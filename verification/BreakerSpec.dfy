/**
 The breaker display on values: what one payload does to it, and the polling and
 draining steps that get payloads there through the de-duplicating poller and the queue.
 */
module BreakerSpec {

  // The texts that come from a fixed set are values of their own.
  datatype Command = ACTIVE | INACTIVE
  datatype Fault = NoFault | Overcurrent | Differential | Distance | Unknown
  datatype Position = OPEN | CLOSED

  /** Everything on the display except the time of the last update. */
  datatype Display = Display(
    trip: Command, close: Command, faultType: Fault, protElement: string,
    current: string, voltage: string, frequency: string, breaker: Position)

  const BLANK := Display(INACTIVE, INACTIVE, Unknown, "--", "0.0 A", "0 V", "0.0 Hz", OPEN)

  const FIELDS := 7

  /** Formatting of the frequency field, which Python's float parsing and printing decide. */
  type Format = string -> string

  // ---- Text ----

  /** The characters Python's strip() removes. */
  predicate IsSpace(c: char) {
    var n := c as int;
    9 <= n <= 13 || 28 <= n <= 32 || 0x2000 <= n <= 0x200a ||
    n in {0x85, 0xa0, 0x1680, 0x2028, 0x2029, 0x202f, 0x205f, 0x3000}
  }

  ghost predicate AllSpace(text: string) { forall i | 0 <= i < |text| :: IsSpace(text[i]) }

  function Strip(text: string): string {
    if text == [] then []
    else if IsSpace(text[0]) then Strip(text[1..])
    else if IsSpace(text[|text| - 1]) then Strip(text[..|text| - 1])
    else text
  }

  /** What is left starts and ends with a character that is not space. */
  lemma {:induction false} StripEnds(text: string)
    ensures Strip(text) != [] ==> !IsSpace(Strip(text)[0]) && !IsSpace(Strip(text)[|Strip(text)| - 1])
  {
    if text == [] {
    } else if IsSpace(text[0]) {
      StripEnds(text[1..]);
    } else if IsSpace(text[|text| - 1]) {
      StripEnds(text[..|text| - 1]);
    }
  }

  lemma FirstMoves(text: string, a: string, b: string, c: string)
    requires text != [] && text[1..] == a + b + c
    ensures text == ([text[0]] + a) + b + c
  {
    assert text == [text[0]] + text[1..];
  }

  lemma LastMoves(text: string, a: string, b: string, c: string)
    requires text != [] && text[..|text| - 1] == a + b + c
    ensures text == a + b + (c + [text[|text| - 1]])
  {
    assert text == text[..|text| - 1] + [text[|text| - 1]];
  }

  /** Only space goes, and only at the ends. */
  lemma {:induction false} StripTrims(text: string) returns (before: string, after: string)
    ensures text == before + Strip(text) + after && AllSpace(before) && AllSpace(after)
  {
    before, after := [], [];
    if text == [] {
    } else if IsSpace(text[0]) {
      var inner;
      inner, after := StripTrims(text[1..]);
      before := [text[0]] + inner;
      FirstMoves(text, inner, Strip(text[1..]), after);
    } else if IsSpace(text[|text| - 1]) {
      var inner;
      before, inner := StripTrims(text[..|text| - 1]);
      after := inner + [text[|text| - 1]];
      LastMoves(text, before, Strip(text[..|text| - 1]), inner);
    }
  }

  function Split(text: string): (fields: seq<string>)
    ensures |fields| >= 1
  {
    if text == [] then [[]]
    else
      var rest := Split(text[1..]);
      if text[0] == ',' then [[]] + rest else [[text[0]] + rest[0]] + rest[1..]
  }

  function Join(fields: seq<string>): string
    requires |fields| >= 1
  {
    if |fields| == 1 then fields[0] else fields[0] + "," + Join(fields[1..])
  }

  /** Splitting loses nothing and leaves no comma in a field. */
  lemma {:induction false} SplitJoins(text: string)
    ensures Join(Split(text)) == text
    ensures forall i | 0 <= i < |Split(text)| :: ',' !in Split(text)[i]
  {
    if text != [] {
      SplitJoins(text[1..]);
      var rest := Split(text[1..]);
      if text[0] == ',' {
        assert ([[]] + rest)[1..] == rest;
      } else {
        var fields := [[text[0]] + rest[0]] + rest[1..];
        assert fields[1..] == rest[1..];
      }
    }
  }

  predicate WellFormed(payload: string) { payload != [] && |Split(payload)| >= FIELDS }

  type Data = d: seq<string> | |d| == FIELDS witness seq(FIELDS, _ => "")

  function DataOf(payload: string): Data
    requires WellFormed(payload)
  {
    Split(payload)[..FIELDS]
  }

  // ---- One payload ----

  /** The field is this one character. */
  predicate Is(field: string, c: char) { |field| == 1 && field[0] == c }

  function FaultType(code: string): Fault {
    if Is(code, '0') then NoFault
    else if Is(code, '1') then Overcurrent
    else if Is(code, '2') then Differential
    else if Is(code, '3') then Distance
    else Unknown
  }

  predicate IsSet(flag: string) { Is(flag, '1') }

  /** The flag is set by the text "1" and by no other. */
  lemma FlagTexts(flag: string)
    ensures IsSet(flag) <==> flag == "1"
  {
  }

  /** The codes of the faults. */
  lemma FaultTexts(code: string)
    ensures FaultType(code) == NoFault <==> code == "0"
    ensures FaultType(code) == Overcurrent <==> code == "1"
    ensures FaultType(code) == Differential <==> code == "2"
    ensures FaultType(code) == Distance <==> code == "3"
    ensures FaultType(code) == Unknown <==> code != "0" && code != "1" && code != "2" && code != "3"
  {
  }

  function Active(flag: string): Command { if IsSet(flag) then ACTIVE else INACTIVE }

  function Show(format: Format, display: Display, d: Data): Display {
    Display(Active(d[0]), Active(d[1]), FaultType(d[2]), d[3], d[4] + " A", d[5] + " V", format(d[6]),
            if IsSet(d[0]) then OPEN else if IsSet(d[1]) then CLOSED else display.breaker)
  }

  function ShowAll(format: Format, display: Display, ds: seq<Data>): Display {
    if ds == [] then display else Show(format, ShowAll(format, display, ds[..|ds| - 1]), ds[|ds| - 1])
  }

  // ---- The poller, the queue and the consumer ----

  /** What one poll of the file brings. */
  datatype Read = Text(content: string) | NotFound | PermissionDenied | OtherError

  datatype Ied = Ied(lastPayload: string, queue: seq<Data>, display: Display, permissionWarning: bool)

  /** No payload yet: a payload is never empty. */
  const NO_PAYLOAD: string := ""

  const START := Ied(NO_PAYLOAD, [], BLANK, false)

  datatype Event = Poll(read: Read) | Drain

  function Polled(y: Ied, read: Read): Ied {
    match read
    case Text(content) =>
      var payload := Strip(content);
      var readable := y.(permissionWarning := false);
      if payload != y.lastPayload && WellFormed(payload)
      then readable.(lastPayload := payload, queue := y.queue + [DataOf(payload)])
      else readable
    case PermissionDenied => y.(permissionWarning := true)
    case _ => y
  }

  /** One item from the queue to the display; nothing when the queue is empty. */
  function Drained(format: Format, y: Ied): Ied {
    if y.queue == [] then y
    else y.(queue := y.queue[1..], display := Show(format, y.display, y.queue[0]))
  }

  function Step(format: Format, y: Ied, e: Event): Ied {
    match e
    case Poll(read) => Polled(y, read)
    case Drain => Drained(format, y)
  }

  function After(format: Format, events: seq<Event>): Ied {
    if events == [] then START else Step(format, After(format, events[..|events| - 1]), events[|events| - 1])
  }

  /** Every well-formed payload that was read, repetitions included. */
  function AllRead(events: seq<Event>): seq<Data> {
    if events == [] then []
    else
      var before, e := AllRead(events[..|events| - 1]), events[|events| - 1];
      if e.Poll? && e.read.Text? && WellFormed(Strip(e.read.content))
      then before + [DataOf(Strip(e.read.content))] else before
  }

  lemma {:induction false} ShowFirst(format: Format, display: Display, ds: seq<Data>)
    requires ds != []
    ensures ShowAll(format, Show(format, display, ds[0]), ds[1..]) == ShowAll(format, display, ds)
  {
    if |ds| > 1 {
      var n := |ds| - 1;
      ShowFirst(format, display, ds[..n]);
      assert ds[..n][1..] == ds[1..][..n - 1];
    }
  }

  lemma ShowTwice(format: Format, display: Display, d: Data)
    ensures Show(format, Show(format, display, d), d) == Show(format, display, d)
  {
  }

  /** What the display will show when the queue has been drained. */
  function Eventual(format: Format, y: Ied): Display {
    ShowAll(format, y.display, y.queue)
  }

  /** The state agrees with the payloads `ds` read so far: eventual display and last payload. */
  ghost predicate Agrees(format: Format, y: Ied, ds: seq<Data>) {
    && Eventual(format, y) == ShowAll(format, BLANK, ds)
    && if y.lastPayload == NO_PAYLOAD then ds == []
       else WellFormed(y.lastPayload) && ds != [] && ds[|ds| - 1] == DataOf(y.lastPayload)
  }

  lemma DrainAgrees(format: Format, y: Ied, ds: seq<Data>)
    requires Agrees(format, y, ds)
    ensures Agrees(format, Drained(format, y), ds)
  {
    if y.queue != [] { ShowFirst(format, y.display, y.queue); }
  }

  /** A new payload is queued; a repeated one is dropped, and showing it again would change nothing. */
  lemma PollAgrees(format: Format, y: Ied, ds: seq<Data>, content: string)
    requires Agrees(format, y, ds) && WellFormed(Strip(content))
    ensures Agrees(format, Polled(y, Text(content)), ds + [DataOf(Strip(content))])
  {
    var d := DataOf(Strip(content));
    if Strip(content) == y.lastPayload {
      Repeated(format, BLANK, ds, d);
    } else {
      Appended(format, y.display, y.queue, d);
      Appended(format, BLANK, ds, d);
    }
  }

  /**
   For every interleaving of polls and drains: the display plus what is queued shows what all reads,
   with no de-duplication, would show.
   */
  lemma {:induction false} QueueShowsAllReads(format: Format, events: seq<Event>)
    ensures Agrees(format, After(format, events), AllRead(events))
    ensures Eventual(format, After(format, events)) == ShowAll(format, BLANK, AllRead(events))
  {
    if events != [] {
      var before, e := events[..|events| - 1], events[|events| - 1];
      var y := After(format, before);
      QueueShowsAllReads(format, before);
      if e.Drain? {
        DrainAgrees(format, y, AllRead(before));
      } else if e.read.Text? && WellFormed(Strip(e.read.content)) {
        PollAgrees(format, y, AllRead(before), e.read.content);
      }
    }
  }

  lemma Appended(format: Format, display: Display, ds: seq<Data>, d: Data)
    ensures ShowAll(format, display, ds + [d]) == Show(format, ShowAll(format, display, ds), d)
  {
    assert (ds + [d])[..|ds + [d]| - 1] == ds;
  }

  lemma Repeated(format: Format, display: Display, ds: seq<Data>, d: Data)
    requires ds != [] && ds[|ds| - 1] == d
    ensures ShowAll(format, display, ds + [d]) == ShowAll(format, display, ds)
  {
    Appended(format, display, ds, d);
    ShowTwice(format, ShowAll(format, display, ds[..|ds| - 1]), d);
  }

  // ---- When the breaker is shown closed ----

  function Processed(format: Format, events: seq<Event>): seq<Data> {
    if events == [] then []
    else
      var before, e := events[..|events| - 1], events[|events| - 1];
      var y := After(format, before);
      if e.Drain? && y.queue != [] then Processed(format, before) + [y.queue[0]] else Processed(format, before)
  }

  /** Closed by some payload and not tripped by any later one; a trip in the same payload goes before. */
  ghost predicate ClosedBy(ds: seq<Data>, i: int) {
    && 0 <= i < |ds| && ds[i][1] == "1" && ds[i][0] != "1"
    && forall j | i < j < |ds| :: ds[j][0] != "1"
  }

  lemma {:induction false} ClosedAfter(format: Format, ds: seq<Data>)
    ensures ShowAll(format, BLANK, ds).breaker == CLOSED <==> exists i :: ClosedBy(ds, i)
  {
    if ds != [] {
      var n := |ds| - 1;
      var before := ds[..n];
      ClosedAfter(format, before);
      FlagTexts(ds[n][0]);
      FlagTexts(ds[n][1]);
      assert forall i | 0 <= i < n :: before[i] == ds[i];
      if ds[n][1] == "1" && ds[n][0] != "1" { assert ClosedBy(ds, n); }
      if ds[n][0] != "1" {
        forall i | ClosedBy(before, i) ensures ClosedBy(ds, i) {}
      }
      forall i | ClosedBy(ds, i) ensures ds[n][0] != "1" && (i == n || ClosedBy(before, i)) {}
    }
  }

  lemma {:induction false} DisplayShowsProcessed(format: Format, events: seq<Event>)
    ensures After(format, events).display == ShowAll(format, BLANK, Processed(format, events))
  {
    if events != [] {
      var before, e := events[..|events| - 1], events[|events| - 1];
      var y := After(format, before);
      DisplayShowsProcessed(format, before);
      if e.Drain? && y.queue != [] { Appended(format, BLANK, Processed(format, before), y.queue[0]); }
    }
  }

  /** Every label but the breaker's shows its field of the payload processed last. */
  lemma LabelsShowLast(format: Format, events: seq<Event>)
    requires Processed(format, events) != []
    ensures var ds, shown := Processed(format, events), After(format, events).display;
            var d := ds[|ds| - 1];
            && (shown.trip == ACTIVE <==> d[0] == "1") && (shown.close == ACTIVE <==> d[1] == "1")
            && shown.protElement == d[3] && shown.frequency == format(d[6])
            && shown.current == d[4] + " A" && shown.voltage == d[5] + " V"
    ensures var ds, shown := Processed(format, events), After(format, events).display;
            var d := ds[|ds| - 1];
            && (shown.faultType == NoFault <==> d[2] == "0") && (shown.faultType == Overcurrent <==> d[2] == "1")
            && (shown.faultType == Differential <==> d[2] == "2") && (shown.faultType == Distance <==> d[2] == "3")
  {
    var ds := Processed(format, events);
    var d := ds[|ds| - 1];
    DisplayShowsProcessed(format, events);
    FlagTexts(d[0]);
    FlagTexts(d[1]);
    FaultTexts(d[2]);
  }

  /** The payloads that are new when read, each by its first seven fields, and the last of them. */
  datatype News = News(data: seq<Data>, last: string)

  function NewsWith(news: News, e: Event): News {
    if e.Poll? && e.read.Text? then
      var payload := Strip(e.read.content);
      if |Split(payload)| >= 7 && payload != news.last then News(news.data + [Split(payload)[..7]], payload) else news
    else news
  }

  function NewsIn(events: seq<Event>): News {
    if events == [] then News([], "") else NewsWith(NewsIn(events[..|events| - 1]), events[|events| - 1])
  }

  lemma PollBringsNews(y: Ied, read: Read, done: seq<Data>, news: News)
    requires news == News(done + y.queue, y.lastPayload)
    ensures NewsWith(news, Poll(read)) == News(done + Polled(y, read).queue, Polled(y, read).lastPayload)
  {
    if read.Text? && WellFormed(Strip(read.content)) {
      assert done + (y.queue + [DataOf(Strip(read.content))]) == (done + y.queue) + [DataOf(Strip(read.content))];
    }
  }

  lemma MovedOn(done: seq<Data>, queue: seq<Data>)
    requires queue != []
    ensures (done + [queue[0]]) + queue[1..] == done + queue
  {
  }

  /**
   What has been processed and what is still queued are, in order, the payloads of at least seven fields that
   were read and differ from the one before.
   */
  lemma {:induction false} NothingLostOrReordered(format: Format, events: seq<Event>)
    ensures NewsIn(events) ==
            News(Processed(format, events) + After(format, events).queue, After(format, events).lastPayload)
  {
    if events != [] {
      var before, e := events[..|events| - 1], events[|events| - 1];
      var y := After(format, before);
      NothingLostOrReordered(format, before);
      if e.Poll? {
        PollBringsNews(y, e.read, Processed(format, before), NewsIn(before));
      } else if y.queue != [] {
        MovedOn(Processed(format, before), y.queue);
      }
    }
  }

  /** The warning is up exactly when the last poll that was readable or refused was refused. */
  ghost predicate RefusedSince(events: seq<Event>, i: int) {
    && 0 <= i < |events| && events[i] == Poll(PermissionDenied)
    && forall j | i < j < |events| && events[j].Poll? :: !events[j].read.Text?
  }

  lemma {:induction false} WarnsIffRefused(format: Format, events: seq<Event>)
    ensures After(format, events).permissionWarning <==> exists i :: RefusedSince(events, i)
  {
    if events != [] {
      var n := |events| - 1;
      WarnsIffRefused(format, events[..n]);
      assert forall i | 0 <= i < n :: events[..n][i] == events[i];
      if events[n] == Poll(PermissionDenied) { assert RefusedSince(events, n); }
      forall i | i != n
        ensures RefusedSince(events, i) <==> RefusedSince(events[..n], i) && !(events[n].Poll? && events[n].read.Text?)
      {
      }
    }
  }

  /** The characters that count as space, one by one. */
  lemma SpaceCharacters(c: char)
    ensures IsSpace(c) <==> c as int in {
              9, 10, 11, 12, 13, 28, 29, 30, 31, 32, 0x85, 0xa0, 0x1680,
              0x2000, 0x2001, 0x2002, 0x2003, 0x2004, 0x2005, 0x2006, 0x2007, 0x2008, 0x2009, 0x200a,
              0x2028, 0x2029, 0x202f, 0x205f, 0x3000}
  {
  }

  /**
   In every run the breaker is shown closed if and only if a processed payload closed it and none
   processed later tripped it.
   */
  lemma ClosedIffClosedAndNotTripped(format: Format, events: seq<Event>)
    ensures After(format, events).display.breaker == CLOSED <==> exists i :: ClosedBy(Processed(format, events), i)
  {
    DisplayShowsProcessed(format, events);
    ClosedAfter(format, Processed(format, events));
  }
}
