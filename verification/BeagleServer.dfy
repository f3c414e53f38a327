/**
 The BeagleBone demo server as it is written: global variables changed by callbacks
 and by the main loop.  Each operation is tied to its function on values.
 */
module BeagleServer {
  import opened BeagleSpec

  const CONTROL_ACCEPTED := -1
  const CONTROL_TEMPORARILY_UNAVAILABLE := 2
  const DATA_ACCESS_ERROR_SUCCESS := -1
  const DATA_ACCESS_ERROR_OBJECT_ACCESS_DENIED := 3
  const DATA_ACCESS_ERROR_OBJECT_VALUE_INVALID := 11

  class BeagleServer {
    var controllingClient: Client
    var automaticOperationMode: bool
    var led1: bool
    var led2: bool
    var led3: bool
    var led4: bool
    var ledOnTimeMs: int
    var ledOffTimeMs: int
    var opCnt: int
    var opCntStVal: int
    var ledStateValue: bool
    var nextLedToggleTime: int

    ghost function View(): Server
      reads this
    {
      Server(controllingClient, automaticOperationMode, Leds(led1, led2, led3, led4), ledOnTimeMs, ledOffTimeMs,
             opCnt, opCntStVal, ledStateValue, nextLedToggleTime)
    }

    constructor (startTime: int)
      ensures View() == Initial(startTime)
    {
      controllingClient, automaticOperationMode := NO_CLIENT, true;
      led1, led2, led3, led4 := false, false, false, false;
      ledOnTimeMs, ledOffTimeMs, opCnt, opCntStVal := 1000, 1000, 0, 0;
      ledStateValue, nextLedToggleTime := false, startTime + 1000;
    }

    method ConnectionIndicationHandler(connection: Client, connected: bool)
      modifies this
      ensures View() == Step(old(View()), if connected then Connect(connection) else Disconnect(connection))
      ensures controllingClient == if !connected && old(controllingClient) == connection
                                   then NO_CLIENT else old(controllingClient)
    {
      if !connected {
        if controllingClient == connection {
          controllingClient := NO_CLIENT;
          automaticOperationMode := true;
        }
      }
    }

    method PerformCheckHandler(test: bool, connection: Client) returns (result: int)
      modifies this
      ensures View() == AfterCheck(old(View()), connection)
      ensures old(controllingClient) == NO_CLIENT ==> controllingClient == connection && !automaticOperationMode
      ensures old(controllingClient) != NO_CLIENT ==> View() == old(View())
      ensures test ==> result == CONTROL_TEMPORARILY_UNAVAILABLE
      ensures !test ==> result == if controllingClient == connection
                                  then CONTROL_ACCEPTED else CONTROL_TEMPORARILY_UNAVAILABLE
    {
      if controllingClient == NO_CLIENT {
        controllingClient := connection;
        automaticOperationMode := false;
      }
      if test { return CONTROL_TEMPORARILY_UNAVAILABLE; }
      if controllingClient == connection {
        result := CONTROL_ACCEPTED;
      } else {
        result := CONTROL_TEMPORARILY_UNAVAILABLE;
      }
    }

    method ControlHandlerForBinaryOutput(parameter: Led, newState: bool, test: bool)
      modifies this
      ensures View() == if test
                then old(View()) else old(View()).(leds := Switched(old(View()).leds, parameter, newState))
      ensures led1 == (if parameter == LED1 && !test then newState else old(led1))
      ensures led2 == (if parameter == LED2 && !test then newState else old(led2))
      ensures led3 == (if parameter == LED3 && !test then newState else old(led3))
      ensures led4 == (if parameter == LED4 && !test then newState else old(led4))
    {
      if test { return; }
      if parameter == LED1 { led1 := newState; }
      if parameter == LED2 { led2 := newState; }
      if parameter == LED3 { led3 := newState; }
      if parameter == LED4 {
        if newState {
          led4 := true;
        } else {
          led4 := false;
        }
      }
    }

    /** Direct control with normal security: the check, and the control handler if it accepts. */
    method Operate(connection: Client, led: Led, value: bool, test: bool) returns (result: int)
      modifies this
      ensures View() == Step(old(View()), BeagleSpec.Operate(connection, led, value, test))
      ensures result == CONTROL_ACCEPTED <==>
                !test && (old(controllingClient) == NO_CLIENT || old(controllingClient) == connection)
    {
      result := PerformCheckHandler(test, connection);
      if result == CONTROL_ACCEPTED {
        ControlHandlerForBinaryOutput(led, value, test);
      }
    }

    /** The operation counter has no check handler: any client may reset it. */
    method ControlHandlerForInt32Controls(connection: Client, newValue: int, test: bool)
      modifies this
      ensures View() == Step(old(View()), ResetCount(connection, newValue, test))
      ensures opCnt == (if test then old(opCnt) else newValue)
    {
      if test { return; }
      opCnt := newValue;
      opCntStVal := opCnt;
    }

    method Int32WriteAccessHandler(connection: Client, dataAttribute: Setting, newValue: int) returns (error: int)
      modifies this
      ensures View() == Step(old(View()), WriteSetting(connection, dataAttribute, newValue))
      ensures ledOffTimeMs == (if newValue >= 0 && dataAttribute == OpDlTmms then newValue else old(ledOffTimeMs))
      ensures ledOnTimeMs == (if newValue >= 0 && dataAttribute == RsDlTmms then newValue else old(ledOnTimeMs))
      ensures error == DATA_ACCESS_ERROR_OBJECT_VALUE_INVALID <==> newValue < 0
      ensures error == DATA_ACCESS_ERROR_SUCCESS <==> newValue >= 0 && dataAttribute != OtherAttribute
      ensures error == DATA_ACCESS_ERROR_OBJECT_ACCESS_DENIED <==> newValue >= 0 && dataAttribute == OtherAttribute
    {
      if newValue < 0 { return DATA_ACCESS_ERROR_OBJECT_VALUE_INVALID; }
      if dataAttribute == OpDlTmms {
        ledOffTimeMs := newValue;
        return DATA_ACCESS_ERROR_SUCCESS;
      }
      if dataAttribute == RsDlTmms {
        ledOnTimeMs := newValue;
        return DATA_ACCESS_ERROR_SUCCESS;
      }
      error := DATA_ACCESS_ERROR_OBJECT_ACCESS_DENIED;
    }

    /** One round of the main loop, measurements aside. */
    method MainLoopRound(currentTime: int)
      modifies this
      ensures View() == Step(old(View()), Tick(currentTime))
      ensures ledStateValue != old(ledStateValue) <==>
                old(automaticOperationMode) && old(nextLedToggleTime) <= currentTime
      ensures ledStateValue && !old(ledStateValue) ==> nextLedToggleTime == currentTime + ledOnTimeMs
      ensures !ledStateValue && old(ledStateValue) ==> nextLedToggleTime == currentTime + ledOffTimeMs
      ensures ledStateValue != old(ledStateValue) ==> led1 == led2 == led3 == ledStateValue
      ensures led4 == old(led4)
    {
      if automaticOperationMode {
        if nextLedToggleTime <= currentTime {
          if ledStateValue {
            nextLedToggleTime := currentTime + ledOffTimeMs;
          } else {
            nextLedToggleTime := currentTime + ledOnTimeMs;
          }
          ledStateValue := !ledStateValue;
          if ledStateValue {
            opCnt := Inc32(opCnt);
            opCntStVal := opCnt;
          }
          led1, led2, led3 := ledStateValue, ledStateValue, ledStateValue;
        }
      }
    }

    /** Whole runs of the real operations are runs of the model. */
    method Serve(ghost startTime: int, ghost done: seq<Event>, events: seq<Event>)
      requires View() == After(startTime, done)
      modifies this
      ensures View() == After(startTime, done + events)
    {
      assert done + events[..0] == done;
      for n := 0 to |events|
        invariant View() == After(startTime, done + events[..n])
      {
        match events[n] {
          case Connect(c) => ConnectionIndicationHandler(c, true);
          case Disconnect(c) => ConnectionIndicationHandler(c, false);
          case Operate(c, led, value, test) => var _ := Operate(c, led, value, test);
          case ResetCount(c, count, test) => ControlHandlerForInt32Controls(c, count, test);
          case WriteSetting(c, setting, delay) => var _ := Int32WriteAccessHandler(c, setting, delay);
          case Tick(now) => MainLoopRound(now);
        }
        var run := done + events[..n + 1];
        assert run[..|run| - 1] == done + events[..n] && run[|run| - 1] == events[n];
      }
      assert events[..|events|] == events;
    }
  }
}
