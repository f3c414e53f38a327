/**
 Control handlers as a plain table: the last registration for a native node and a
 kind of handler is the one that counts.
 */
module ControlSpec {
  import opened NativeModel

  type Delegate = int
  type Parameter = int
  const NO_HANDLER: Delegate := 0

  datatype HandlerKind = Control | Check | WaitForExecution | SelectStateChanged

  /** A registration may name no handler, which switches the callback off. */
  datatype Registration = Registration(handler: Delegate, parameter: Parameter)

  datatype SetHandlerCall = SetHandlerCall(node: Ptr, kind: HandlerKind, registration: Registration)

  type HandlerTable = map<(Ptr, HandlerKind), Registration>

  /** The native server takes a handler only for a node it has a control object for. */
  function Apply(controllable: set<Ptr>, table: HandlerTable, call: SetHandlerCall): HandlerTable {
    if call.node in controllable then table[(call.node, call.kind) := call.registration] else table
  }

  function ApplyAll(controllable: set<Ptr>, table: HandlerTable, calls: seq<SetHandlerCall>): HandlerTable {
    if calls == [] then table
    else Apply(controllable, ApplyAll(controllable, table, calls[..|calls| - 1]), calls[|calls| - 1])
  }

  predicate Sets(call: SetHandlerCall, node: Ptr, kind: HandlerKind) {
    call.node == node && call.kind == kind
  }

  /** `i` is the last of the calls that set the handler of `node` and `kind`. */
  ghost predicate IsLast(calls: seq<SetHandlerCall>, node: Ptr, kind: HandlerKind, i: int) {
    0 <= i < |calls| && Sets(calls[i], node, kind) && forall j | i < j < |calls| :: !Sets(calls[j], node, kind)
  }

  lemma {:induction false} InTableIffSet(controllable: set<Ptr>, calls: seq<SetHandlerCall>, node: Ptr,
                                         kind: HandlerKind)
    ensures (node, kind) in ApplyAll(controllable, map[], calls) <==>
            node in controllable && exists i :: 0 <= i < |calls| && Sets(calls[i], node, kind)
  {
    if calls != [] {
      var n := |calls| - 1;
      InTableIffSet(controllable, calls[..n], node, kind);
      if (node, kind) in ApplyAll(controllable, map[], calls[..n]) {
        var i :| 0 <= i < n && Sets(calls[..n][i], node, kind);
        assert Sets(calls[i], node, kind);
      }
      if i :| 0 <= i < n && Sets(calls[i], node, kind) {
        assert Sets(calls[..n][i], node, kind);
      }
    }
  }

  lemma {:induction false} LastHolds(controllable: set<Ptr>, calls: seq<SetHandlerCall>, node: Ptr, kind: HandlerKind,
                                     i: int)
    requires IsLast(calls, node, kind, i) && node in controllable
    ensures (node, kind) in ApplyAll(controllable, map[], calls)
    ensures ApplyAll(controllable, map[], calls)[(node, kind)] == calls[i].registration
  {
    var n := |calls| - 1;
    if i < n { LastHolds(controllable, calls[..n], node, kind, i); }
  }

  /**
   From an empty table: a pair is in it iff its node is controllable and it was ever
   set, and then holds the registration of the last call that set it.
   */
  lemma LastCallWins(controllable: set<Ptr>, calls: seq<SetHandlerCall>, node: Ptr, kind: HandlerKind)
    ensures (node, kind) in ApplyAll(controllable, map[], calls) <==>
            node in controllable && exists i :: 0 <= i < |calls| && Sets(calls[i], node, kind)
    ensures forall i | IsLast(calls, node, kind, i) && node in controllable ::
              ApplyAll(controllable, map[], calls)[(node, kind)] == calls[i].registration
  {
    InTableIffSet(controllable, calls, node, kind);
    forall i | IsLast(calls, node, kind, i) && node in controllable
      ensures ApplyAll(controllable, map[], calls)[(node, kind)] == calls[i].registration
    {
      LastHolds(controllable, calls, node, kind, i);
    }
  }

  datatype Callback =
    | Runs(handler: Delegate, parameter: Parameter)
    | Answers(code: int)
    | DoesNothing

  const FAILED := 0
  const OBJECT_UNDEFINED := 4

  /** What the server answers for the native library when no handler is set. */
  function WithoutHandler(kind: HandlerKind): Callback {
    match kind
    case Control => Answers(FAILED)
    case Check => Answers(OBJECT_UNDEFINED)
    case WaitForExecution => Answers(FAILED)
    case SelectStateChanged => DoesNothing
  }

  /** The answers without a handler: failed, object undefined, failed, none. */
  predicate IsDefault(callback: Callback, kind: HandlerKind) {
    && (kind == Control ==> callback == Answers(0)) && (kind == Check ==> callback == Answers(4))
    && (kind == WaitForExecution ==> callback == Answers(0)) && (kind == SelectStateChanged ==> callback == DoesNothing)
  }

  /** What a callback does for what is registered. */
  function Calls(registration: Registration, kind: HandlerKind): Callback {
    if registration.handler != NO_HANDLER
        then Runs(registration.handler, registration.parameter) else WithoutHandler(kind)
  }
}
