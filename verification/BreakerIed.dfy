/**
 The breaker IED: a polling thread that reads the shared file and a consumer that
 drains the queue onto the display.
 */
module BreakerIed {
  import opened BreakerSpec

  class BreakerIed {
    var lastPayload: string
    var queue: seq<Data>
    var permissionWarning: bool
    var tripStatus: Command
    var closeStatus: Command
    var faultType: Fault
    var protElement: string
    var current: string
    var voltage: string
    var frequency: string
    var breakerStatus: Position

    ghost function View(): Ied
      reads this
    {
      Ied(lastPayload, queue,
          Display(tripStatus, closeStatus, faultType, protElement, current, voltage, frequency, breakerStatus),
          permissionWarning)
    }

    constructor ()
      ensures View() == START
      ensures tripStatus == closeStatus == INACTIVE && faultType == Unknown && breakerStatus == OPEN && queue == []
      ensures protElement == "--" && current == "0.0 A" && voltage == "0 V" && frequency == "0.0 Hz"
    {
      lastPayload, queue, permissionWarning := NO_PAYLOAD, [], false;
      tripStatus, closeStatus, faultType, protElement := INACTIVE, INACTIVE, Unknown, "--";
      current, voltage, frequency, breakerStatus := "0.0 A", "0 V", "0.0 Hz", OPEN;
    }

    /** One round of run_subscriber. */
    method PollOnce(read: Read)
      modifies this`lastPayload, this`queue, this`permissionWarning
      ensures View() == Polled(old(View()), read)
    {
      match read
      case Text(content) =>
        var payload := Strip(content);
        if permissionWarning { permissionWarning := false; }
        if payload == "" { return; }
        if payload == lastPayload { return; }
        var data := Split(payload);
        if |data| >= FIELDS {
          lastPayload := payload;
          queue := queue + [data[..FIELDS]];
        }
      case NotFound =>
      case PermissionDenied =>
        if !permissionWarning { permissionWarning := true; }
      case OtherError =>
    }

    /** One round of the loop in process_queue; polls may come between rounds. */
    method ProcessOne(format: Format)
      requires queue != []
      modifies this
      ensures View() == Drained(format, old(View()))
    {
      var data := queue[0];
      queue := queue[1..];
      ShowData(format, data);
    }

    /** The labels that show commands and the fault, and the position they lead to. */
    method ShowStatus(data: Data)
      modifies this`tripStatus, this`closeStatus, this`faultType, this`breakerStatus
      ensures tripStatus == Active(data[0]) && closeStatus == Active(data[1]) && faultType == FaultType(data[2])
      ensures tripStatus == ACTIVE <==> data[0] == "1"
      ensures closeStatus == ACTIVE <==> data[1] == "1"
      ensures (faultType == NoFault <==> data[2] == "0") && (faultType == Overcurrent <==> data[2] == "1")
      ensures (faultType == Differential <==> data[2] == "2") && (faultType == Distance <==> data[2] == "3")
      ensures breakerStatus == if data[0] == "1" then OPEN else if data[1] == "1" then CLOSED else old(breakerStatus)
    {
      FlagTexts(data[0]);
      FlagTexts(data[1]);
      FaultTexts(data[2]);
      tripStatus := Active(data[0]);
      closeStatus := Active(data[1]);
      faultType := FaultType(data[2]);
      if IsSet(data[0]) {
        breakerStatus := OPEN;
      } else if IsSet(data[1]) {
        breakerStatus := CLOSED;
      }
    }

    /** The labels that show texts. */
    method ShowTexts(format: Format, data: Data)
      modifies this`protElement, this`current, this`voltage, this`frequency
      ensures protElement == data[3] && current == data[4] + " A" && voltage == data[5] + " V" &&
                frequency == format(data[6])
    {
      protElement := data[3];
      current := data[4] + " A";
      voltage := data[5] + " V";
      frequency := format(data[6]);
    }

    method ShowData(format: Format, data: Data)
      modifies this`tripStatus, this`closeStatus, this`faultType, this`protElement, this`current, this`voltage,
                 this`frequency, this`breakerStatus
      ensures View().display == Show(format, old(View()).display, data)
    {
      FlagTexts(data[0]);
      FlagTexts(data[1]);
      ShowTexts(format, data);
      ShowStatus(data);
    }

    /** process_queue: everything that is queued goes to the display, in order. */
    method ProcessQueue(format: Format)
      modifies this
      ensures View() == old(View()).(queue := [], display := Eventual(format, old(View())))
    {
      while queue != []
        invariant Eventual(format, View()) == Eventual(format, old(View()))
        invariant View() == old(View()).(queue := View().queue, display := View().display)
        decreases |queue|
      {
        ShowFirst(format, View().display, queue);
        ProcessOne(format);
      }
    }
  }
}
