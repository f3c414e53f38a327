/**
 Whole runs of a managed server as objects: lookups, registrations, connection
 indications and the native callbacks, in any order.
 */
module ServerRuns {
  import opened NativeModel
  import opened ModelNodeCache
  import opened IedServer
  import opened ServerTraces
  import ControlSpec
  import LookupRuns
  import WriteAccessSpec

  ghost predicate Possible(t: Native, call: Call) {
    && (call.Lookup? && call.lookup.ByRef? ==> call.lookup.p in t.kind)
    && (call.Report? ==> call.rcb in t.rcbOwner)
  }

  ghost predicate AllUsable(t: Native, m: IedModel, pool: seq<ModelNode>)
    requires t.WellFormed()
  {
    forall i | 0 <= i < |pool| :: LookupRuns.Usable(t, m, pool[i])
  }

  /** The invariant of a server. */
  ghost predicate Sound(t: Native, s: IedServer)
    requires t.WellFormed()
    reads s, s.controlHandlers.Values, s.iedModel, s.iedModel.Wrappers()
  {
    s.iedModel.Valid(t) && s.RcbsValid() && s.ControlValid() &&
        (WriteAccessSpec.AttributesHoldAttributes(t) ==> s.Answered())
  }

  function WritesOf(s: IedServer): Writes
    reads s`writeAccessHandlers, s`monitored
  {
    Writes(s.writeAccessHandlers, s.monitored)
  }

  ghost function TablesOf(s: IedServer): Tables
    requires s.ControlValid()
    reads s, s.controlHandlers.Values
  {
    Tables(s.clientConnections, s.ControlTable(), WritesOf(s), s.controlObjects)
  }

  /**
   Nothing cached is lost: wrappers, their report control blocks and control handler infos stay, and
   what is added is new.
   */
  twostate predicate Continues(s: IedServer)
    reads s, s.iedModel, s.iedModel.Wrappers()
  {
    && Keeps(old(s.iedModel.modelNodes), s.iedModel.modelNodes)
    && (forall p | p in s.iedModel.modelNodes && p !in old(s.iedModel.modelNodes) :: fresh(s.iedModel.modelNodes[p]))
    && (forall p | p in old(s.iedModel.modelNodes) ::
         Keeps(old(s.iedModel.modelNodes[p].rcbs), old(s.iedModel.modelNodes)[p].rcbs))
    && fresh(s.controlHandlers.Values - old(s.controlHandlers.Values))
  }

  /** What every call promises. */
  twostate predicate Did(t: Native, s: IedServer, pool: seq<ModelNode>, call: Call, new out: Outcome)
    requires t.WellFormed() && old(s.ControlValid()) && Possible(t, call)
    reads s, s.controlHandlers.Values, s.iedModel, s.iedModel.Wrappers()
  {
    && Sound(t, s) && Continues(s)
    && Effect(t, pool, call, out, old(TablesOf(s)), TablesOf(s)) && AimFits(t, call, out)
    && LookupRuns.AreCached(s.iedModel, out.answers) && AllUsable(t, s.iedModel, out.answers)
    && (call.Report? ==> s.HandedOut(t, call.rcb, out.block))
    && (call.Opens() && out.con != null ==> fresh(out.con))
  }

  // ---- The calls, one method each ----

  /** The registration methods' contracts, whichever is called through `w`. */
  twostate predicate Registration(t: Native, s: IedServer, w: ModelNode, call: Call, ok: bool)
    requires t.WellFormed() && call.Registers()
    reads s, s.iedModel, s.iedModel.Wrappers()
  {
    && s.iedModel.Grows(t)
    && (ok <==> TargetOf(t, call, w.self) !! old(s.writeAccessHandlers).Keys)
    && (ok ==> TargetOf(t, call, w.self) <= s.writeAccessHandlers.Keys)
    && s.writeAccessHandlers.Keys <= old(s.writeAccessHandlers).Keys + TargetOf(t, call, w.self)
    && s.monitored == (if ok then old(s.monitored) + ReachOf(t, call, w.self) else old(s.monitored))
    && Keeps(old(s.writeAccessHandlers), s.writeAccessHandlers)
    && (forall q | q in s.writeAccessHandlers && q !in old(s.writeAccessHandlers) ::
         IsFor(s.writeAccessHandlers[q], call.handler, call.parameter, q))
    && (WriteAccessSpec.AttributesHoldAttributes(t) && old(s.Answered()) ==> s.Answered())
  }

  method RegisterComplex(t: Native, s: IedServer, w: ModelNode, call: Call) returns (ok: bool)
    requires t.WellFormed() && s.iedModel.Valid(t) && LookupRuns.Usable(t, s.iedModel, w) && call.HandleComplexWrite? &&
               w.cls == DataAttribute
    modifies s`writeAccessHandlers, s`monitored, s.iedModel
    ensures Registration(t, s, w, call, ok)
  {
    ok := s.HandleWriteAccessForComplexAttribute(t, w, call.handler, call.parameter);
  }

  method RegisterObject(t: Native, s: IedServer, w: ModelNode, call: Call) returns (ok: bool)
    requires t.WellFormed() && s.iedModel.Valid(t) && LookupRuns.Usable(t, s.iedModel, w) && call.HandleObjectWrite? &&
               w.cls == DataObject
    modifies s`writeAccessHandlers, s`monitored, s.iedModel
    ensures Registration(t, s, w, call, ok)
  {
    ok := s.HandleWriteAccessForDataObject(t, w, call.fc, call.handler, call.parameter);
  }

  method RegisterThrough(t: Native, s: IedServer, w: ModelNode, call: Call) returns (ok: bool)
    requires t.WellFormed() && s.iedModel.Valid(t) && LookupRuns.Usable(t, s.iedModel, w) && call.Registers() &&
               w.cls == call.Takes()
    modifies s`writeAccessHandlers, s`monitored, s.iedModel
    ensures Registration(t, s, w, call, ok)
  {
    match call {
      case HandleComplexWrite(_, _, _) => ok := RegisterComplex(t, s, w, call);
      case HandleObjectWrite(_, _, _, _) => ok := RegisterObject(t, s, w, call);
      case HandleWrite(_, handler, parameter) => ok := s.HandleWriteAccess(w, handler, parameter);
    }
  }

  /** A write-access registration through a wrapper of the pool. */
  method Register(t: Native, s: IedServer, pool: seq<ModelNode>, call: Call) returns (out: Outcome)
    requires t.WellFormed() && s.iedModel.Valid(t) && AllUsable(t, s.iedModel, pool) && call.Registers()
    modifies s`writeAccessHandlers, s`monitored, s.iedModel
    ensures s.iedModel.Grows(t) && out.answers == [] && out.node == Aim(pool, call) && AimFits(t, call, out)
    ensures RegisterEffect(t, call, out, old(WritesOf(s)), WritesOf(s))
    ensures WriteAccessSpec.AttributesHoldAttributes(t) && old(s.Answered()) ==> s.Answered()
  {
    out := NOTHING;
    if call.k < |pool| && pool[call.k].cls == call.Takes() {
      var w := pool[call.k];
      assert LookupRuns.Usable(t, s.iedModel, w);
      var ok := RegisterThrough(t, s, w, call);
      out := NOTHING.(node := w.self, ran := ok);
      TargetIsReached(t, call, w.self);
      RegisterEffectOf(t, call, out, old(WritesOf(s)), WritesOf(s));
    }
  }

  method LookUpOrRegister(t: Native, s: IedServer, pool: seq<ModelNode>, call: Call) returns (out: Outcome)
    requires t.WellFormed() && s.iedModel.Valid(t) && AllUsable(t, s.iedModel, pool) && Possible(t, call) &&
               (call.Lookup? || call.Registers())
    modifies s`writeAccessHandlers, s`monitored, s.iedModel
    ensures s.iedModel.Grows(t) && out.node == Aim(pool, call) && AimFits(t, call, out)
    ensures LookupRuns.AreCached(s.iedModel, out.answers) && AllUsable(t, s.iedModel, out.answers)
    ensures LookupRuns.Selves(out.answers) == AskedBy(t, pool, call)
    ensures WriteEffect(t, call, out, old(WritesOf(s)), WritesOf(s))
    ensures WriteAccessSpec.AttributesHoldAttributes(t) && old(s.Answered()) ==> s.Answered()
  {
    if call.Lookup? {
      var answers := LookupRuns.Perform(t, s.iedModel, pool, call.lookup);
      out := NOTHING.(answers := answers);
    } else {
      out := Register(t, s, pool, call);
    }
  }

  /** The calls that make wrappers and change nothing else of the server but the write-access tables. */
  method GrowSoundly(t: Native, s: IedServer, pool: seq<ModelNode>, call: Call) returns (out: Outcome)
    requires t.WellFormed() && Sound(t, s) && AllUsable(t, s.iedModel, pool) && Possible(t, call) &&
               (call.Lookup? || call.Registers())
    modifies s`writeAccessHandlers, s`monitored, s.iedModel
    ensures Sound(t, s) && Continues(s) && out.node == Aim(pool, call) && AimFits(t, call, out)
    ensures LookupRuns.AreCached(s.iedModel, out.answers) && AllUsable(t, s.iedModel, out.answers)
    ensures LookupRuns.Selves(out.answers) == AskedBy(t, pool, call)
    ensures WriteEffect(t, call, out, old(WritesOf(s)), WritesOf(s))
    ensures s.ControlTable() == old(s.ControlTable())
  {
    out := LookUpOrRegister(t, s, pool, call);
    assert s.RcbsValid() && s.ControlValid();
  }

  method Grow(t: Native, s: IedServer, pool: seq<ModelNode>, call: Call) returns (out: Outcome)
    requires t.WellFormed() && Sound(t, s) && AllUsable(t, s.iedModel, pool) && Possible(t, call) &&
               (call.Lookup? || call.Registers())
    modifies s`writeAccessHandlers, s`monitored, s.iedModel
    ensures Did(t, s, pool, call, out)
  {
    out := GrowSoundly(t, s, pool, call);
  }

  method SetThrough(s: IedServer, pool: seq<ModelNode>, call: Call) returns (out: Outcome)
    requires s.ControlValid() && call.SetHandler? && (call.k < |pool| ==> pool[call.k].self != NULL)
    modifies s`controlHandlers, s`nativeHandlers, s.controlHandlers.Values
    ensures s.ControlValid() && fresh(s.controlHandlers.Values - old(s.controlHandlers.Values))
    ensures HandlerEffect(call, out, s.controlObjects, old(s.ControlTable()), s.ControlTable())
    ensures out.answers == [] && out.node == Aim(pool, call)
  {
    out := NOTHING;
    if call.k < |pool| && pool[call.k].cls == DataObject {
      s.SetHandler(pool[call.k], call.kind, call.registration);
      out := NOTHING.(ran := pool[call.k].self in s.controlObjects, node := pool[call.k].self);
    }
  }

  method SetSoundly(t: Native, s: IedServer, pool: seq<ModelNode>, call: Call) returns (out: Outcome)
    requires t.WellFormed() && Sound(t, s) && AllUsable(t, s.iedModel, pool) && call.SetHandler?
    modifies s`controlHandlers, s`nativeHandlers, s.controlHandlers.Values
    ensures Sound(t, s) && Continues(s)
    ensures HandlerEffect(call, out, s.controlObjects, old(s.ControlTable()), s.ControlTable())
    ensures out.answers == [] && out.node == Aim(pool, call)
  {
    assert call.k < |pool| ==> LookupRuns.Usable(t, s.iedModel, pool[call.k]);
    out := SetThrough(s, pool, call);
  }

  method SetOne(t: Native, s: IedServer, pool: seq<ModelNode>, call: Call) returns (out: Outcome)
    requires t.WellFormed() && Sound(t, s) && AllUsable(t, s.iedModel, pool) && Possible(t, call) && call.SetHandler?
    modifies s`controlHandlers, s`nativeHandlers, s.controlHandlers.Values
    ensures Did(t, s, pool, call, out)
  {
    out := SetSoundly(t, s, pool, call);
  }

  /** The native server calls back for the attributes it monitors. */
  method WriteOne(t: Native, s: IedServer, pool: seq<ModelNode>, call: Call) returns (out: Outcome)
    requires t.WellFormed() && Sound(t, s) && Possible(t, call) && call.Write?
    ensures Did(t, s, pool, call, out)
  {
    out := NOTHING;
    if call.attribute in s.monitored {
      var outcome := s.WriteAccessHandlerImpl(call.attribute, call.connection);
      out := NOTHING.(asked := true);
      if outcome.Invoked? {
        out := NOTHING.(asked := true, ran := true, handler := outcome.handler, parameter := outcome.parameter,
            con := outcome.connection);
      }
    }
  }

  /** The native server calls back for what it was told a handler of. */
  method CallBack(s: IedServer, call: Call) returns (out: Outcome)
    requires s.ControlValid() && call.Control?
    ensures ConnectionEffect(call, out, s.clientConnections, s.clientConnections)
    ensures HandlerEffect(call, out, s.controlObjects, s.ControlTable(), s.ControlTable())
    ensures out.answers == [] && out.node == NULL
  {
    out := NOTHING;
    if (call.node, call.kind) in s.nativeHandlers {
      var callback, action := s.InternalHandlerImpl(call.node, call.kind, call.connection);
      out := NOTHING.(callback := callback);
      if action != null {
        var con := action.GetClientConnection();
        out := NOTHING.(callback := callback, ran := true, con := con);
      }
    }
  }

  method ControlOne(t: Native, s: IedServer, pool: seq<ModelNode>, call: Call) returns (out: Outcome)
    requires t.WellFormed() && Sound(t, s) && Possible(t, call) && call.Control?
    ensures Did(t, s, pool, call, out)
  {
    out := CallBack(s, call);
  }

  method IndicateSoundly(t: Native, s: IedServer, call: Call) returns (out: Outcome)
    requires t.WellFormed() && Sound(t, s) && call.Indicate?
    modifies s`clientConnections
    ensures Sound(t, s) && s.ControlTable() == old(s.ControlTable())
    ensures ConnectionEffect(call, out, old(s.clientConnections), s.clientConnections)
    ensures call.Opens() && out.con != null ==> fresh(out.con)
    ensures out.answers == [] && out.node == NULL
  {
    var con, _ := s.ConnectionIndicationHandlerImpl(call.connection, call.connected, true);
    out := NOTHING.(ran := con != null, con := con);
  }

  method IndicateOne(t: Native, s: IedServer, pool: seq<ModelNode>, call: Call) returns (out: Outcome)
    requires t.WellFormed() && Sound(t, s) && Possible(t, call) && call.Indicate?
    modifies s`clientConnections
    ensures Did(t, s, pool, call, out)
  {
    out := IndicateSoundly(t, s, call);
  }

  method ReportSoundly(t: Native, s: IedServer, call: Call) returns (out: Outcome)
    requires t.WellFormed() && Sound(t, s) && Possible(t, call) && call.Report?
    modifies s.iedModel, s.iedModel.Wrappers()
    ensures Sound(t, s) && Continues(s) && s.HandedOut(t, call.rcb, out.block) && BlockFits(t, call.rcb, out.block)
    ensures ConnectionEffect(call, out, s.clientConnections, s.clientConnections)
    ensures out.answers == [] && out.node == NULL
  {
    var block, con := s.InternalRCBEventHandlerImplementation(t, call.rcb, call.connection);
    out := NOTHING.(ran := true, con := con, block := block);
  }

  method ReportOne(t: Native, s: IedServer, pool: seq<ModelNode>, call: Call) returns (out: Outcome)
    requires t.WellFormed() && Sound(t, s) && Possible(t, call) && call.Report?
    modifies s.iedModel, s.iedModel.Wrappers()
    ensures Did(t, s, pool, call, out)
  {
    out := ReportSoundly(t, s, call);
  }

  method Perform(t: Native, s: IedServer, pool: seq<ModelNode>, call: Call) returns (out: Outcome)
    requires t.WellFormed() && Sound(t, s) && AllUsable(t, s.iedModel, pool) && Possible(t, call)
    modifies s, s.iedModel, s.iedModel.Wrappers(), s.controlHandlers.Values
    ensures Did(t, s, pool, call, out)
  {
    if call.Lookup? || call.Registers() {
      out := Grow(t, s, pool, call);
    } else if call.SetHandler? {
      out := SetOne(t, s, pool, call);
    } else if call.Indicate? {
      out := IndicateOne(t, s, pool, call);
    } else if call.Report? {
      out := ReportOne(t, s, pool, call);
    } else if call.Write? {
      out := WriteOne(t, s, pool, call);
    } else {
      out := ControlOne(t, s, pool, call);
    }
  }

  // ---- The run ----

  /** The caches hold what a call answered or handed out. */
  ghost predicate HeldOf(t: Native, s: IedServer, call: Call, out: Outcome)
    requires t.WellFormed()
    reads s.iedModel, s.iedModel.Wrappers()
  {
    && LookupRuns.AreCached(s.iedModel, out.answers)
    && (call.Report? ==> call.rcb in t.rcbOwner && s.HandedOut(t, call.rcb, out.block))
  }

  ghost predicate Held(t: Native, s: IedServer, calls: seq<Call>, outs: seq<Outcome>)
    requires t.WellFormed() && |outs| <= |calls|
    reads s.iedModel, s.iedModel.Wrappers()
  {
    forall i {:trigger HeldOf(t, s, calls[i], outs[i])} | 0 <= i < |outs| :: HeldOf(t, s, calls[i], outs[i])
  }

  /** One report control block is only ever handed out as one wrapper. */
  ghost predicate OneBlockEach(calls: seq<Call>, outs: seq<Outcome>)
    requires |outs| == |calls|
  {
    forall i, j | 0 <= i < j < |calls| && calls[i].Report? && calls[j].Report? && calls[i].rcb == calls[j].rcb ::
        outs[i].block == outs[j].block
  }

  /** One native node is only ever answered with one wrapper. */
  ghost predicate OneWrapperEach(outs: seq<Outcome>) {
    forall i, j, a, b | 0 <= i < j < |outs| && a in outs[i].answers && b in outs[j].answers && a.self == b.self ::
        a == b
  }

  lemma HeldMeans(t: Native, s: IedServer, calls: seq<Call>, outs: seq<Outcome>)
    requires t.WellFormed() && |outs| == |calls| && Held(t, s, calls, outs)
    ensures OneBlockEach(calls, outs) && OneWrapperEach(outs)
  {
    assert forall i | 0 <= i < |outs| :: HeldOf(t, s, calls[i], outs[i]);
  }

  /** What a call answered or handed out stays so. */
  method PerformAfter(t: Native, s: IedServer, pool: seq<ModelNode>, calls: seq<Call>, outs: seq<Outcome>)
    returns (out: Outcome)
    requires t.WellFormed() && Sound(t, s) && AllUsable(t, s.iedModel, pool)
    requires |outs| < |calls| && Possible(t, calls[|outs|]) && Held(t, s, calls, outs)
    modifies s, s.iedModel, s.iedModel.Wrappers(), s.controlHandlers.Values
    ensures Did(t, s, pool, calls[|outs|], out) && Held(t, s, calls, outs)
  {
    out := Perform(t, s, pool, calls[|outs|]);
    forall i | 0 <= i < |outs| ensures HeldOf(t, s, calls[i], outs[i]) {
      assert old(HeldOf(t, s, calls[i], outs[i]));
    }
  }

  lemma HeldNext(t: Native, s: IedServer, calls: seq<Call>, outs: seq<Outcome>, out: Outcome)
    requires t.WellFormed() && |outs| < |calls| && Held(t, s, calls, outs) && HeldOf(t, s, calls[|outs|], out)
    ensures Held(t, s, calls, outs + [out])
  {
    forall i | 0 <= i < |outs + [out]| ensures HeldOf(t, s, calls[i], (outs + [out])[i]) {
      if i < |outs| { assert HeldOf(t, s, calls[i], outs[i]); }
    }
  }

  /** What holds between two calls of a run. */
  ghost predicate Going(t: Native, s: IedServer, outside: seq<ModelNode>, pool: seq<ModelNode>,
                        calls: seq<Call>, outs: seq<Outcome>, tables: seq<Tables>)
    requires t.WellFormed()
    reads s, s.controlHandlers.Values, s.iedModel, s.iedModel.Wrappers()
  {
    && IsTranscript(t, outside, calls, outs, tables) && pool == Pool(outside, outs) && ToldApart(calls, outs)
    && Sound(t, s) && tables[|outs|] == TablesOf(s) && AllUsable(t, s.iedModel, pool) && Held(t, s, calls, outs)
  }

  method Next(t: Native, s: IedServer, outside: seq<ModelNode>, pool: seq<ModelNode>,
              calls: seq<Call>, outs: seq<Outcome>, ghost tables: seq<Tables>)
    returns (out: Outcome)
    requires t.WellFormed() && Going(t, s, outside, pool, calls, outs, tables)
    requires |outs| < |calls| && Possible(t, calls[|outs|])
    modifies s, s.iedModel, s.iedModel.Wrappers(), s.controlHandlers.Values
    ensures Continues(s) && s.ControlValid()
    ensures Going(t, s, outside, pool + out.answers, calls, outs + [out], tables + [TablesOf(s)])
  {
    out := PerformAfter(t, s, pool, calls, outs);
    TranscriptNext(t, outside, calls, outs, tables, out, TablesOf(s));
    HeldNext(t, s, calls, outs, out);
  }

  method Replay(t: Native, s: IedServer, outside: seq<ModelNode>, calls: seq<Call>)
    returns (outs: seq<Outcome>, ghost tables: seq<Tables>)
    requires t.WellFormed() && Sound(t, s) && AllUsable(t, s.iedModel, outside)
    requires forall i | 0 <= i < |calls| :: Possible(t, calls[i])
    modifies s, s.iedModel, s.iedModel.Wrappers(), s.controlHandlers.Values
    ensures |outs| == |calls| && Going(t, s, outside, Pool(outside, outs), calls, outs, tables)
    ensures tables[0] == old(TablesOf(s))
  {
    outs, tables := [], [TablesOf(s)];
    var pool := outside;
    for n := 0 to |calls|
      invariant Continues(s) && |outs| == n && Going(t, s, outside, pool, calls, outs, tables)
      invariant tables[0] == old(TablesOf(s))
    {
      var out := Next(t, s, outside, pool, calls, outs, tables);
      outs, tables, pool := outs + [out], tables + [TablesOf(s)], pool + out.answers;
    }
  }

  /**
   Any run of a server: its outcomes and the tables between the calls are a transcript
   of the calls.  The invariant holds at its end, where the caches hold everything that
   was answered and handed out, so blocks and wrappers are one for each native thing;
   each opening of a connection is told with a wrapper of its own.  When the server
   starts with no connection and no control handler, all that is promised of transcripts
   is kept.
   */
  method Run(t: Native, s: IedServer, outside: seq<ModelNode>, calls: seq<Call>)
    returns (outs: seq<Outcome>, ghost tables: seq<Tables>)
    requires t.WellFormed() && Sound(t, s) && AllUsable(t, s.iedModel, outside)
    requires forall i | 0 <= i < |calls| :: Possible(t, calls[i])
    modifies s, s.iedModel, s.iedModel.Wrappers(), s.controlHandlers.Values
    ensures |outs| == |calls| && IsTranscript(t, outside, calls, outs, tables)
    ensures tables[0] == old(TablesOf(s)) && Sound(t, s) && tables[|calls|] == TablesOf(s)
    ensures Held(t, s, calls, outs) && OneBlockEach(calls, outs) && OneWrapperEach(outs)
    ensures ToldApart(calls, outs)
    ensures Begins(t, tables[0]) ==> Kept(t, calls, outs)
  {
    outs, tables := Replay(t, s, outside, calls);
    HeldMeans(t, s, calls, outs);
    if Begins(t, tables[0]) { TranscriptKept(t, outside, calls, outs, tables); }
  }

  /** Any run of a new server of a new model. */
  method RunNew(t: Native, controlObjects: set<Ptr>, calls: seq<Call>)
    returns (s: IedServer, outs: seq<Outcome>, ghost tables: seq<Tables>)
    requires t.WellFormed() && forall i | 0 <= i < |calls| :: Possible(t, calls[i])
    ensures fresh(s) && |outs| == |calls| && IsTranscript(t, [], calls, outs, tables)
    ensures tables[0] == Tables(map[], map[], Writes(map[], {}), controlObjects)
    ensures Sound(t, s) && tables[|calls|] == TablesOf(s) && Held(t, s, calls, outs)
    ensures OneBlockEach(calls, outs) && OneWrapperEach(outs) && ToldApart(calls, outs) && Kept(t, calls, outs)
  {
    var m := new IedModel();
    s := new IedServer(m, controlObjects);
    outs, tables := Run(t, s, [], calls);
  }

  /**
   After any registrations on a new server there is a callback exactly for a node with a
   control object that was set, and it does what the last such call asks for.
   */
  method CallbackAfter(model: IedModel, controlObjects: set<Ptr>,
                       calls: seq<(ModelNode, ControlSpec.HandlerKind, ControlSpec.Registration)>,
                       node: Ptr, kind: ControlSpec.HandlerKind, connection: Ptr)
    returns (called: bool, callback: ControlSpec.Callback)
    ensures called <==> node in controlObjects &&
                        exists i :: 0 <= i < |calls| && ControlSpec.Sets(OnNodes(calls)[i], node, kind)
    ensures forall i | called && ControlSpec.IsLast(OnNodes(calls), node, kind, i) ::
              && (calls[i].2.handler != ControlSpec.NO_HANDLER ==>
                    callback == ControlSpec.Runs(calls[i].2.handler, calls[i].2.parameter))
              && (calls[i].2.handler == ControlSpec.NO_HANDLER ==> ControlSpec.IsDefault(callback, kind))
  {
    var s := new IedServer(model, controlObjects);
    s.SetHandlers(calls);
    ControlSpec.LastCallWins(controlObjects, OnNodes(calls), node, kind);
    called, callback := (node, kind) in s.nativeHandlers, ControlSpec.DoesNothing;
    assert called == ((node, kind) in s.ControlTable());
    if called {
      var action;
      callback, action := s.InternalHandlerImpl(node, kind, connection);
    }
  }
}
