/**
 Runs of a managed server, on values: the calls an application and the native
 library make, what each does to the server's tables, and what this means for every
 later call.
 */
module ServerTraces {
  import opened NativeModel
  import opened ModelNodeCache
  import opened IedServer
  import ControlSpec
  import LookupRuns
  import WriteAccessSpec

  /** As in runs of lookups alone, a wrapper argument is a position in the pool of wrappers at hand. */
  datatype Call =
    | Lookup(lookup: LookupRuns.Call)
    | HandleWrite(k: nat, handler: ControlSpec.Delegate, parameter: ControlSpec.Parameter)
    | HandleComplexWrite(k: nat, handler: ControlSpec.Delegate, parameter: ControlSpec.Parameter)
    | HandleObjectWrite(k: nat, fc: int, handler: ControlSpec.Delegate, parameter: ControlSpec.Parameter)
    | SetHandler(k: nat, kind: ControlSpec.HandlerKind, registration: ControlSpec.Registration)
    | Indicate(connection: Ptr, connected: bool)
    | Write(attribute: Ptr, connection: Ptr)
    | Control(node: Ptr, kind: ControlSpec.HandlerKind, connection: Ptr)
    | Report(rcb: Ptr, connection: Ptr)
  {
    predicate Opens() { Indicate? && connected }

    predicate Registers() { HandleWrite? || HandleComplexWrite? || HandleObjectWrite? }

    /** The class of wrapper a registration takes. */
    function Takes(): NodeClass
      requires Registers() || SetHandler?
    {
      if HandleWrite? || HandleComplexWrite? then DataAttribute else DataObject
    }
  }

  /**
   What comes out of a call: the wrappers a lookup answers; the node a registration is
   made for, NULL when the position is not filled or holds a wrapper of another class;
   whether the native server calls back for a write; whether a registration succeeds
   or a handler of the application is run; the write handler and its parameter; what a
   control callback does; the connection a handler is told or resolves; the block of a
   report event.
   */
  datatype Outcome = Outcome(
    answers: seq<ModelNode>, node: Ptr, asked: bool, ran: bool,
    handler: ControlSpec.Delegate, parameter: ControlSpec.Parameter,
    callback: ControlSpec.Callback, con: ClientConnection?, block: ReportControlBlock?)

  const NOTHING := Outcome([], NULL, false, false, ControlSpec.NO_HANDLER, 0, ControlSpec.DoesNothing, null, null)

  type Connections = map<Ptr, ClientConnection>

  /** The server's write handlers and the attributes the native server calls back for. */
  datatype Writes = Writes(entries: WriteAccessTable, monitored: set<Ptr>)

  /** `controllable` are the nodes with a native control object; they never change. */
  datatype Tables = Tables(connections: Connections, handlers: ControlSpec.HandlerTable, writes: Writes,
      controllable: set<Ptr>)

  ghost function At(table: Connections, c: Ptr): ClientConnection? {
    if c in table then table[c] else null
  }

  /** What a call does to the table of connections, and which connection it tells or resolves. */
  ghost predicate ConnectionEffect(call: Call, out: Outcome, before: Connections, after: Connections) {
    match call
    case Indicate(c, true) =>
      if c in before then after == before && out.con == null
      else out.con != null && out.con.self == c && after == before[c := out.con]
    case Indicate(c, false) => after == before - {c} && out.con == At(before, c)
    case Write(_, c) => after == before && (out.ran ==> out.con == At(before, c))
    case Control(_, _, c) => after == before && (out.ran ==> out.con == if c == NULL then null else At(before, c))
    case Report(_, c) => after == before && out.con == if c == NULL then null else At(before, c)
    case _ => after == before
  }

  /** What a call does to the table of control handlers, and what a control callback makes of it. */
  ghost predicate HandlerEffect(call: Call, out: Outcome, controllable: set<Ptr>,
                                before: ControlSpec.HandlerTable, after: ControlSpec.HandlerTable)
  {
    match call
    case SetHandler(_, kind, registration) =>
      && out.ran == (out.node != NULL && out.node in controllable)
      && after == if out.node == NULL then before
                  else ControlSpec.Apply(controllable, before, ControlSpec.SetHandlerCall(out.node, kind, registration))
    case Control(node, kind, _) =>
      && after == before
      && out.callback == (if (node, kind) in before
           then ControlSpec.Calls(before[(node, kind)], kind) else ControlSpec.DoesNothing)
      && out.ran == out.callback.Runs?
    case _ => after == before
  }

  /** The attributes a registration made for `node` is to cover. */
  ghost function TargetOf(t: Native, call: Call, node: Ptr): set<Ptr>
    requires t.IsForest() && call.Registers()
  {
    match call
    case HandleComplexWrite(_, _, _) => WriteAccessSpec.AttributeTarget(t, node)
    case HandleObjectWrite(_, fc, _, _) => WriteAccessSpec.ObjectTarget(t, node, fc)
    case _ => {node}
  }

  /** The nodes the native server goes through for it. */
  ghost function ReachOf(t: Native, call: Call, node: Ptr): set<Ptr>
    requires t.IsForest() && call.Registers()
  {
    match call
    case HandleComplexWrite(_, _, _) => WriteAccessSpec.Subtree(t, node)
    case HandleObjectWrite(_, fc, _, _) => WriteAccessSpec.NativeTarget(t, node, fc)
    case _ => {node}
  }

  lemma TargetIsReached(t: Native, call: Call, node: Ptr)
    requires t.IsForest() && call.Registers() && node in t.kind &&
               (call.HandleComplexWrite? ==> t.kind[node] == DATA_ATTRIBUTE)
    ensures TargetOf(t, call, node) <= ReachOf(t, call, node)
    ensures WriteAccessSpec.AttributesHoldAttributes(t) ==> TargetOf(t, call, node) == ReachOf(t, call, node)
  {
    var fc := if call.HandleObjectWrite? then call.fc else 0;
    WriteAccessSpec.CoveredAreReached(t, node, fc);
    if WriteAccessSpec.AttributesHoldAttributes(t) { WriteAccessSpec.MonitorsWhatIsCovered(t, node, fc); }
  }

  /** The entry that `call` registers for `q` is there, and the native server calls back for `q`. */
  ghost predicate Serves(writes: Writes, q: Ptr, call: Call)
    requires call.Registers()
  {
    && q in writes.monitored && q in writes.entries
    && writes.entries[q].handler == call.handler && writes.entries[q].parameter == call.parameter
  }

  /**
   A registration succeeds unless one of its attributes has an entry, and then serves
   all of them.  Nothing registered is lost; new entries are for its attributes; a
   failed one has nothing monitored.
   */
  ghost predicate RegisterEffect(t: Native, call: Call, out: Outcome, before: Writes, after: Writes)
    requires t.IsForest() && call.Registers()
  {
    && Keeps(before.entries, after.entries)
    && after.entries.Keys <= before.entries.Keys + (if out.node == NULL then {} else TargetOf(t, call, out.node))
    && out.ran == (out.node != NULL && TargetOf(t, call, out.node) !! before.entries.Keys)
    && after.monitored == before.monitored + (if out.ran then ReachOf(t, call, out.node) else {})
    && (out.ran ==> forall q {:trigger Serves(after, q, call)} | q in TargetOf(t, call, out.node) ::
         Serves(after, q, call))
  }

  /** The contract of the registration methods, as an effect on the tables. */
  lemma RegisterEffectOf(t: Native, call: Call, out: Outcome, before: Writes, after: Writes)
    requires t.IsForest() && call.Registers() && out.node != NULL
    requires out.ran <==> TargetOf(t, call, out.node) !! before.entries.Keys
    requires out.ran ==> TargetOf(t, call, out.node) <= after.entries.Keys
    requires out.ran ==> TargetOf(t, call, out.node) <= ReachOf(t, call, out.node)
    requires after.entries.Keys <= before.entries.Keys + TargetOf(t, call, out.node)
    requires after.monitored == if out.ran then before.monitored + ReachOf(t, call, out.node) else before.monitored
    requires Keeps(before.entries, after.entries)
    requires forall q | q in after.entries && q !in before.entries ::
               IsFor(after.entries[q], call.handler, call.parameter, q)
    ensures RegisterEffect(t, call, out, before, after)
  {
  }

  /** What a call does to the write-access tables, and which handler a write reaches. */
  ghost predicate WriteEffect(t: Native, call: Call, out: Outcome, before: Writes, after: Writes)
    requires t.IsForest()
  {
    if call.Registers() then RegisterEffect(t, call, out, before, after)
    else
      && after == before
      && (call.Write? ==>
            && out.asked == (call.attribute in before.monitored)
            && out.ran == (out.asked && call.attribute in before.entries)
            && (out.ran ==>
                  && out.handler == before.entries[call.attribute].handler
                  && out.parameter == before.entries[call.attribute].parameter))
  }

  /**
   There is a block exactly for a report of a logical node inside a logical device, and it stands for
   the native block there.
   */
  ghost predicate BlockFits(t: Native, rcb: Ptr, block: ReportControlBlock?)
    requires t.WellFormed() && rcb in t.rcbOwner
  {
    var ln := t.rcbOwner[rcb];
    && (block != null <==> rcb != NULL && ln != NULL && t.Rooted(ln))
    && (block != null ==> block.self == rcb && block.parent.self == ln)
  }

  /** The native nodes whose wrappers a call answers. */
  ghost function AskedBy(t: Native, pool: seq<ModelNode>, call: Call): seq<Ptr>
    requires t.WellFormed()
  {
    if call.Lookup? then LookupRuns.Asked(t, pool, call.lookup) else []
  }

  /** The node a registration is made for. */
  function Aim(pool: seq<ModelNode>, call: Call): Ptr {
    if (call.Registers() || call.SetHandler?) && call.k < |pool| && pool[call.k].cls == call.Takes()
    then pool[call.k].self else NULL
  }

  /** What a call does, with the wrappers at hand, between two states of the tables. */
  ghost predicate Effect(t: Native, pool: seq<ModelNode>, call: Call, out: Outcome, before: Tables, after: Tables)
    requires t.WellFormed()
  {
    && out.node == Aim(pool, call)
    && LookupRuns.Selves(out.answers) == AskedBy(t, pool, call)
    && (call.Report? ==> call.rcb in t.rcbOwner && BlockFits(t, call.rcb, out.block))
    && ConnectionEffect(call, out, before.connections, after.connections)
    && HandlerEffect(call, out, before.controllable, before.handlers, after.handlers)
    && WriteEffect(t, call, out, before.writes, after.writes)
    && after.controllable == before.controllable
  }

  // ---- Connections over a run ----

  /** Connection `c` was opened by call `i` and not closed by any of the calls up to `n`. */
  ghost predicate OpenAt(calls: seq<Call>, c: Ptr, i: int, n: int) {
    0 <= i < n <= |calls| && calls[i] == Indicate(c, true) && forall k | i < k < n :: calls[k] != Indicate(c, false)
  }

  /** The native server opens a connection only when it is not open. */
  ghost predicate Alternates(calls: seq<Call>) {
    forall c, i, n | OpenAt(calls, c, i, n) && n < |calls| :: calls[n] != Indicate(c, true)
  }

  /** The table holds exactly the open connections, with the wrappers that were told when they were opened. */
  ghost predicate TableFits(calls: seq<Call>, outs: seq<Outcome>, table: Connections) {
    && |outs| <= |calls|
    && (forall c, i | OpenAt(calls, c, i, |outs|) :: c in table && outs[i].con == table[c])
    && (forall c | c in table :: exists i :: OpenAt(calls, c, i, |outs|))
  }

  /** A closing, a write, a control or a report over connection `c`. */
  ghost predicate Concerns(call: Call, c: Ptr) {
    || call == Indicate(c, false)
    || ((call.Write? || call.Control? || call.Report?) && call.connection == c && c != NULL)
  }

  /**
   At the closing of a connection, and in every callback between its opening and its closing, the
   application's handler is given the wrapper told at the opening.
   */
  ghost predicate SameConnection(calls: seq<Call>, outs: seq<Outcome>)
    requires |outs| <= |calls|
  {
    forall c, i, n {:trigger OpenAt(calls, c, i, n)} | OpenAt(calls, c, i, n) && n < |outs| && Concerns(calls[n], c) ::
      outs[i].con != null && (calls[n].Indicate? || calls[n].Report? || outs[n].ran ==> outs[n].con == outs[i].con)
  }

  lemma OpenNext(calls: seq<Call>, c: Ptr, i: int, n: int)
    requires 0 <= n < |calls|
    ensures OpenAt(calls, c, i, n + 1) <==>
              if i == n then calls[n] == Indicate(c, true)
              else OpenAt(calls, c, i, n) && calls[n] != Indicate(c, false)
  {
  }

  lemma TableFitsNext(calls: seq<Call>, outs: seq<Outcome>, out: Outcome, before: Connections, after: Connections)
    requires Alternates(calls) && TableFits(calls, outs, before) && |outs| < |calls|
    requires ConnectionEffect(calls[|outs|], out, before, after)
    ensures TableFits(calls, outs + [out], after)
  {
    var n, more := |outs|, outs + [out];
    forall c, i | OpenAt(calls, c, i, |more|) ensures c in after && more[i].con == after[c] {
      OpenNext(calls, c, i, n);
    }
    forall c | c in after ensures exists i :: OpenAt(calls, c, i, |more|) {
      if c in before {
        var j :| OpenAt(calls, c, j, n);
        OpenNext(calls, c, j, n);
        assert OpenAt(calls, c, j, |more|);
      } else {
        OpenNext(calls, c, n, n);
        assert OpenAt(calls, c, n, |more|);
      }
    }
  }

  lemma SameConnectionNext(calls: seq<Call>, outs: seq<Outcome>, out: Outcome, before: Connections, after: Connections)
    requires TableFits(calls, outs, before) && |outs| < |calls| && SameConnection(calls, outs)
    requires ConnectionEffect(calls[|outs|], out, before, after)
    ensures SameConnection(calls, outs + [out])
  {
  }

  // ---- Control handlers over a run ----

  ghost predicate SetsAt(calls: seq<Call>, outs: seq<Outcome>, i: nat, node: Ptr, kind: ControlSpec.HandlerKind)
    requires i < |outs| <= |calls|
  {
    calls[i].SetHandler? && outs[i].ran && outs[i].node == node && calls[i].kind == kind
  }

  /** Of the first `n` calls, `i` is the last that set the handler of `node` and `kind`. */
  ghost predicate LastSet(calls: seq<Call>, outs: seq<Outcome>, node: Ptr, kind: ControlSpec.HandlerKind, i: int,
                          n: int)
    requires n <= |outs| <= |calls|
  {
    0 <= i < n && SetsAt(calls, outs, i, node, kind) && forall k | i < k < n :: !SetsAt(calls, outs, k, node, kind)
  }

  ghost predicate HandlersFit(calls: seq<Call>, outs: seq<Outcome>, table: ControlSpec.HandlerTable)
    requires |outs| <= |calls|
  {
    && (forall node, kind, i | LastSet(calls, outs, node, kind, i, |outs|) ::
         (node, kind) in table && table[(node, kind)] == calls[i].registration)
    && (forall node, kind | (node, kind) in table :: exists i :: LastSet(calls, outs, node, kind, i, |outs|))
  }

  /** A registered handler is run with its parameter; without one the kind's default is answered. */
  ghost predicate Obeys(out: Outcome, registration: ControlSpec.Registration, kind: ControlSpec.HandlerKind) {
    if registration.handler != ControlSpec.NO_HANDLER
    then out.ran && out.callback == ControlSpec.Runs(registration.handler, registration.parameter)
    else !out.ran && ControlSpec.IsDefault(out.callback, kind)
  }

  /**
   A control callback does what the last call that set its handler asks for, and there is none
   without such a call.
   */
  ghost predicate LastHandlerRuns(calls: seq<Call>, outs: seq<Outcome>)
    requires |outs| <= |calls|
  {
    forall n | 0 <= n < |outs| && calls[n].Control? ::
      && (forall i | LastSet(calls, outs, calls[n].node, calls[n].kind, i, n) ::
           Obeys(outs[n], calls[i].registration, calls[n].kind))
      && ((forall i :: !LastSet(calls, outs, calls[n].node, calls[n].kind, i, n)) ==>
           outs[n].callback == ControlSpec.DoesNothing)
  }

  lemma LastSetNext(calls: seq<Call>, outs: seq<Outcome>, out: Outcome, node: Ptr, kind: ControlSpec.HandlerKind,
                    i: int)
    requires |outs| < |calls|
    ensures LastSet(calls, outs + [out], node, kind, i, |outs| + 1) <==>
            if i == |outs| then SetsAt(calls, outs + [out], |outs|, node, kind)
            else LastSet(calls, outs, node, kind, i, |outs|) && !SetsAt(calls, outs + [out], |outs|, node, kind)
  {
    var n, more := |outs|, outs + [out];
    assert forall k: nat | k < n :: SetsAt(calls, more, k, node, kind) == SetsAt(calls, outs, k, node, kind);
    if LastSet(calls, outs, node, kind, i, n) && !SetsAt(calls, more, n, node, kind) {
      assert forall k | i < k < n + 1 :: !SetsAt(calls, more, k, node, kind);
    }
  }

  lemma HandlersFitNext(calls: seq<Call>, outs: seq<Outcome>, out: Outcome,
                            controllable: set<Ptr>, before: ControlSpec.HandlerTable, after: ControlSpec.HandlerTable)
    requires |outs| < |calls| && HandlersFit(calls, outs, before)
    requires HandlerEffect(calls[|outs|], out, controllable, before, after)
    ensures HandlersFit(calls, outs + [out], after)
  {
    var n, more := |outs|, outs + [out];
    forall node, kind, i | LastSet(calls, more, node, kind, i, |more|)
      ensures (node, kind) in after && after[(node, kind)] == calls[i].registration
    {
      LastSetNext(calls, outs, out, node, kind, i);
    }
    forall node, kind | (node, kind) in after ensures exists i :: LastSet(calls, more, node, kind, i, |more|) {
      LastSetNext(calls, outs, out, node, kind, n);
      if SetsAt(calls, more, n, node, kind) {
        assert LastSet(calls, more, node, kind, n, |more|);
      } else {
        var i :| LastSet(calls, outs, node, kind, i, n);
        LastSetNext(calls, outs, out, node, kind, i);
        assert LastSet(calls, more, node, kind, i, |more|);
      }
    }
  }

  lemma LastSetBefore(calls: seq<Call>, outs: seq<Outcome>, out: Outcome, node: Ptr, kind: ControlSpec.HandlerKind,
                      i: int, n: int)
    requires n <= |outs| < |calls|
    ensures LastSet(calls, outs + [out], node, kind, i, n) <==> LastSet(calls, outs, node, kind, i, n)
  {
    assert forall k: nat | k < n :: SetsAt(calls, outs + [out], k, node, kind) == SetsAt(calls, outs, k, node, kind);
  }

  lemma LastHandlerRunsNext(calls: seq<Call>, outs: seq<Outcome>, out: Outcome,
                            controllable: set<Ptr>, before: ControlSpec.HandlerTable, after: ControlSpec.HandlerTable)
    requires |outs| < |calls| && HandlersFit(calls, outs, before)
    requires HandlerEffect(calls[|outs|], out, controllable, before, after)
    requires LastHandlerRuns(calls, outs)
    ensures LastHandlerRuns(calls, outs + [out])
  {
    var more := outs + [out];
    forall n | 0 <= n < |more| && calls[n].Control?
      ensures forall i | LastSet(calls, more, calls[n].node, calls[n].kind, i, n) ::
                Obeys(more[n], calls[i].registration, calls[n].kind)
      ensures (forall i :: !LastSet(calls, more, calls[n].node, calls[n].kind, i, n)) ==>
                more[n].callback == ControlSpec.DoesNothing
    {
      forall i
        ensures LastSet(calls, more, calls[n].node, calls[n].kind, i, n) <==>
                  LastSet(calls, outs, calls[n].node, calls[n].kind, i, n)
      {
        LastSetBefore(calls, outs, out, calls[n].node, calls[n].kind, i, n);
      }
    }
  }

  // ---- Write handlers over a run ----

  ghost predicate RegisteredAt(t: Native, calls: seq<Call>, outs: seq<Outcome>, i: int, q: Ptr)
    requires t.IsForest() && |outs| <= |calls|
  {
    0 <= i < |outs| && calls[i].Registers() && outs[i].ran && q in TargetOf(t, calls[i], outs[i].node)
  }

  ghost predicate EntriesFit(t: Native, calls: seq<Call>, outs: seq<Outcome>, writes: Writes)
    requires t.IsForest() && |outs| <= |calls|
  {
    forall i, q | RegisteredAt(t, calls, outs, i, q) :: Serves(writes, q, calls[i])
  }

  /**
   From a registration that succeeded onwards, every write to an attribute it covers runs its handler
   with its parameter.
   */
  ghost predicate WritesReachTheirHandler(t: Native, calls: seq<Call>, outs: seq<Outcome>)
    requires t.IsForest() && |outs| <= |calls|
  {
    forall i, n | 0 <= i < n < |outs| && calls[n].Write? && RegisteredAt(t, calls, outs, i, calls[n].attribute) ::
        ReachedBy(calls, outs, i, n)
  }

  ghost predicate ReachedBy(calls: seq<Call>, outs: seq<Outcome>, i: nat, n: nat)
    requires i < n < |outs| <= |calls| && calls[i].Registers()
  {
    outs[n].ran && outs[n].handler == calls[i].handler && outs[n].parameter == calls[i].parameter
  }

  lemma RegisteredBefore(t: Native, calls: seq<Call>, outs: seq<Outcome>, out: Outcome, i: int, q: Ptr)
    requires t.IsForest() && |outs| < |calls| && i < |outs|
    ensures RegisteredAt(t, calls, outs + [out], i, q) <==> RegisteredAt(t, calls, outs, i, q)
  {
  }

  lemma EntriesFitNext(t: Native, calls: seq<Call>, outs: seq<Outcome>, out: Outcome, before: Writes, after: Writes)
    requires t.IsForest() && |outs| < |calls| && EntriesFit(t, calls, outs, before)
    requires WriteEffect(t, calls[|outs|], out, before, after)
    ensures EntriesFit(t, calls, outs + [out], after)
  {
    forall i, q | RegisteredAt(t, calls, outs + [out], i, q) ensures Serves(after, q, calls[i]) {
      if i < |outs| {
        RegisteredBefore(t, calls, outs, out, i, q);
        assert Serves(before, q, calls[i]);
      }
    }
  }

  lemma WritesReachNext(t: Native, calls: seq<Call>, outs: seq<Outcome>, out: Outcome, before: Writes, after: Writes)
    requires t.IsForest() && |outs| < |calls| && EntriesFit(t, calls, outs, before)
    requires WriteEffect(t, calls[|outs|], out, before, after)
    requires WritesReachTheirHandler(t, calls, outs)
    ensures WritesReachTheirHandler(t, calls, outs + [out])
  {
    var more := outs + [out];
    forall i, n | 0 <= i < n < |more| && calls[n].Write? && RegisteredAt(t, calls, more, i, calls[n].attribute)
      ensures ReachedBy(calls, more, i, n)
    {
      RegisteredBefore(t, calls, outs, out, i, calls[n].attribute);
      if n < |outs| {
        assert ReachedBy(calls, outs, i, n);
      } else {
        assert Serves(before, calls[n].attribute, calls[i]);
      }
    }
  }

  /** Every write the native server calls back for runs a handler. */
  ghost predicate NeverDenied(calls: seq<Call>, outs: seq<Outcome>)
    requires |outs| <= |calls|
  {
    forall i | 0 <= i < |outs| && calls[i].Write? :: outs[i].asked == outs[i].ran
  }

  /** Where attributes hold attributes only, what is monitored has an entry. */
  ghost predicate Answered(t: Native, writes: Writes)
    requires t.IsForest()
  {
    WriteAccessSpec.AttributesHoldAttributes(t) ==> writes.monitored <= writes.entries.Keys
  }

  /** A registration's wrapper fits its node. */
  ghost predicate AimFits(t: Native, call: Call, out: Outcome) {
    call.Registers() && out.node != NULL ==>
      out.node in t.kind && (call.HandleComplexWrite? ==> t.kind[out.node] == DATA_ATTRIBUTE)
  }

  lemma AnsweredNext(t: Native, call: Call, out: Outcome, before: Writes, after: Writes)
    requires t.IsForest() && Answered(t, before) && WriteEffect(t, call, out, before, after) && AimFits(t, call, out)
    ensures Answered(t, after)
  {
    if WriteAccessSpec.AttributesHoldAttributes(t) && call.Registers() {
      if out.ran { TargetIsReached(t, call, out.node); }
      forall q | q in after.monitored ensures q in after.entries {
        if q in before.monitored { assert q in before.entries; } else { assert Serves(after, q, call); }
      }
    }
  }

  // ---- Transcripts ----

  /** The wrappers at hand after some calls. */
  function Pool(outside: seq<ModelNode>, outs: seq<Outcome>): seq<ModelNode> {
    if outs == [] then outside else Pool(outside, outs[..|outs| - 1]) + outs[|outs| - 1].answers
  }

  ghost predicate StepAt(t: Native, outside: seq<ModelNode>, calls: seq<Call>, outs: seq<Outcome>, tables: seq<Tables>,
                         k: nat)
    requires t.WellFormed() && |tables| == |outs| + 1 && k < |outs| <= |calls|
  {
    Effect(t, Pool(outside, outs[..k]), calls[k], outs[k], tables[k], tables[k + 1]) && AimFits(t, calls[k], outs[k])
  }

  /** Each of the first calls has its effect, from one state of the tables to the next. */
  ghost predicate IsTranscript(t: Native, outside: seq<ModelNode>, calls: seq<Call>, outs: seq<Outcome>,
                               tables: seq<Tables>)
    requires t.WellFormed()
  {
    && |tables| == |outs| + 1 && |outs| <= |calls|
    && forall k {:trigger StepAt(t, outside, calls, outs, tables, k)} | 0 <= k < |outs| ::
         StepAt(t, outside, calls, outs, tables, k)
  }

  lemma TranscriptNext(t: Native, outside: seq<ModelNode>, calls: seq<Call>, outs: seq<Outcome>, tables: seq<Tables>,
                       out: Outcome, after: Tables)
    requires t.WellFormed() && IsTranscript(t, outside, calls, outs, tables) && |outs| < |calls|
    requires Effect(t, Pool(outside, outs), calls[|outs|], out, tables[|outs|], after) && AimFits(t, calls[|outs|], out)
    ensures IsTranscript(t, outside, calls, outs + [out], tables + [after])
    ensures Pool(outside, outs + [out]) == Pool(outside, outs) + out.answers
  {
    assert (outs + [out])[..|outs|] == outs;
    forall k | 0 <= k < |outs + [out]| ensures StepAt(t, outside, calls, outs + [out], tables + [after], k) {
      if k < |outs| {
        assert StepAt(t, outside, calls, outs, tables, k);
        assert (outs + [out])[..k] == outs[..k];
      }
    }
  }

  lemma TranscriptPrefix(t: Native, outside: seq<ModelNode>, calls: seq<Call>, outs: seq<Outcome>, tables: seq<Tables>,
                         n: nat)
    requires t.WellFormed() && IsTranscript(t, outside, calls, outs, tables) && n <= |outs|
    ensures IsTranscript(t, outside, calls, outs[..n], tables[..n + 1])
  {
    var some := tables[..n + 1];
    forall k | 0 <= k < n ensures StepAt(t, outside, calls, outs[..n], some, k) {
      assert StepAt(t, outside, calls, outs, tables, k);
      assert outs[..n][..k] == outs[..k];
    }
  }

  /** What the calls so far have left in the tables. */
  ghost predicate TablesFit(t: Native, calls: seq<Call>, outs: seq<Outcome>, tables: Tables)
    requires t.IsForest() && |outs| <= |calls|
  {
    && (Alternates(calls) ==> TableFits(calls, outs, tables.connections))
    && HandlersFit(calls, outs, tables.handlers)
    && EntriesFit(t, calls, outs, tables.writes)
    && Answered(t, tables.writes)
  }

  /** What is promised of the calls so far. */
  ghost predicate Kept(t: Native, calls: seq<Call>, outs: seq<Outcome>)
    requires t.IsForest() && |outs| <= |calls|
  {
    && (Alternates(calls) ==> SameConnection(calls, outs))
    && LastHandlerRuns(calls, outs)
    && WritesReachTheirHandler(t, calls, outs)
    && (WriteAccessSpec.AttributesHoldAttributes(t) ==> NeverDenied(calls, outs))
  }

  /** One more call with its effect keeps it all. */
  lemma KeptNext(t: Native, pool: seq<ModelNode>, calls: seq<Call>, outs: seq<Outcome>, out: Outcome, before: Tables,
                 after: Tables)
    requires t.WellFormed() && |outs| < |calls| && TablesFit(t, calls, outs, before) && Kept(t, calls, outs)
    requires Effect(t, pool, calls[|outs|], out, before, after) && AimFits(t, calls[|outs|], out)
    ensures TablesFit(t, calls, outs + [out], after) && Kept(t, calls, outs + [out])
  {
    if Alternates(calls) {
      TableFitsNext(calls, outs, out, before.connections, after.connections);
      SameConnectionNext(calls, outs, out, before.connections, after.connections);
    }
    HandlersFitNext(calls, outs, out, before.controllable, before.handlers, after.handlers);
    LastHandlerRunsNext(calls, outs, out, before.controllable, before.handlers, after.handlers);
    EntriesFitNext(t, calls, outs, out, before.writes, after.writes);
    WritesReachNext(t, calls, outs, out, before.writes, after.writes);
    AnsweredNext(t, calls[|outs|], out, before.writes, after.writes);
  }

  /** A server with no connection and no control handler yet. */
  ghost predicate Begins(t: Native, tables: Tables)
    requires t.IsForest()
  {
    tables.connections == map[] && tables.handlers == map[] && Answered(t, tables.writes)
  }

  /**
   In every transcript from such a server: a connection's callbacks are given what was
   told at its opening; control callbacks run the handlers set last; writes reach the
   handlers registered for them, and none that is monitored is denied for want of an
   entry.  The tables at its end hold exactly what the calls have left in them.
   */
  lemma {:induction false} TranscriptKept(t: Native, outside: seq<ModelNode>, calls: seq<Call>, outs: seq<Outcome>,
                                          tables: seq<Tables>)
    requires t.WellFormed() && IsTranscript(t, outside, calls, outs, tables) && Begins(t, tables[0])
    ensures TablesFit(t, calls, outs, tables[|outs|]) && Kept(t, calls, outs)
    decreases |outs|
  {
    if outs != [] {
      var n := |outs| - 1;
      TranscriptPrefix(t, outside, calls, outs, tables, n);
      TranscriptKept(t, outside, calls, outs[..n], tables[..n + 1]);
      assert StepAt(t, outside, calls, outs, tables, n);
      KeptNext(t, Pool(outside, outs[..n]), calls, outs[..n], outs[n], tables[n], tables[n + 1]);
      assert outs[..n] + [outs[n]] == outs;
    }
  }

  // ---- What a failed registration leaves behind ----

  /** Registration `i` failed and left an entry for `q`. */
  ghost predicate LeftBehind(calls: seq<Call>, outs: seq<Outcome>, tables: seq<Tables>, i: nat, q: Ptr)
    requires |tables| == |outs| + 1 && i < |outs| <= |calls|
  {
    && calls[i].Registers() && !outs[i].ran
    && q in tables[i + 1].writes.entries && q !in tables[i].writes.entries
  }

  lemma {:induction false} AnsweredAlong(t: Native, outside: seq<ModelNode>, calls: seq<Call>, outs: seq<Outcome>,
                                         tables: seq<Tables>, n: nat)
    requires t.WellFormed() && IsTranscript(t, outside, calls, outs, tables) && Answered(t, tables[0].writes) &&
               n <= |outs|
    ensures Answered(t, tables[n].writes)
  {
    if n > 0 {
      AnsweredAlong(t, outside, calls, outs, tables, n - 1);
      assert StepAt(t, outside, calls, outs, tables, n - 1);
      AnsweredNext(t, calls[n - 1], outs[n - 1], tables[n - 1].writes, tables[n].writes);
    }
  }

  /** An entry without monitoring stays one: what covers it fails, and its writes are not called back for. */
  lemma SilentNext(t: Native, call: Call, out: Outcome, before: Writes, after: Writes, q: Ptr)
    requires t.IsForest() && WriteAccessSpec.AttributesHoldAttributes(t) && WriteEffect(t, call, out, before, after)
    requires AimFits(t, call, out) && q in before.entries && q !in before.monitored
    ensures q in after.entries && q !in after.monitored
    ensures call.Write? && call.attribute == q ==> !out.asked
    ensures call.Registers() && out.node != NULL && q in TargetOf(t, call, out.node) ==> !out.ran
  {
    if call.Registers() && out.ran { TargetIsReached(t, call, out.node); }
  }

  /**
   What a failed registration leaves behind is for attributes it was to cover, and is
   dead for good: the native server never calls back for them, and every later
   registration that covers one of them fails.
   */
  lemma {:induction false} LeftBehindIsDead(t: Native, outside: seq<ModelNode>, calls: seq<Call>, outs: seq<Outcome>,
                                            tables: seq<Tables>,
                                            i: nat, q: Ptr, n: nat)
    requires t.WellFormed() && IsTranscript(t, outside, calls, outs, tables) && Answered(t, tables[0].writes)
    requires WriteAccessSpec.AttributesHoldAttributes(t) && i < n <= |outs| && LeftBehind(calls, outs, tables, i, q)
    ensures q in TargetOf(t, calls[i], outs[i].node)
    ensures q in tables[n].writes.entries && q !in tables[n].writes.monitored
    ensures n < |outs| && calls[n].Write? && calls[n].attribute == q ==> !outs[n].asked
    ensures n < |outs| && calls[n].Registers() && outs[n].node != NULL && q in TargetOf(t, calls[n], outs[n].node) ==>
              !outs[n].ran
  {
    AnsweredAlong(t, outside, calls, outs, tables, i);
    assert StepAt(t, outside, calls, outs, tables, i);
    if n > i + 1 {
      LeftBehindIsDead(t, outside, calls, outs, tables, i, q, n - 1);
      assert StepAt(t, outside, calls, outs, tables, n - 1);
      SilentNext(t, calls[n - 1], outs[n - 1], tables[n - 1].writes, tables[n].writes, q);
    }
    if n < |outs| {
      assert StepAt(t, outside, calls, outs, tables, n);
      SilentNext(t, calls[n], outs[n], tables[n].writes, tables[n + 1].writes, q);
    }
  }

  // ---- Openings ----

  /** Different openings are told with different wrappers. */
  ghost predicate ToldApart(calls: seq<Call>, outs: seq<Outcome>)
    requires |outs| <= |calls|
  {
    forall i, j | 0 <= i < j < |outs| && calls[i].Opens() && calls[j].Opens() && outs[i].con != null ::
        outs[i].con != outs[j].con
  }
}
