/**
 The handler tables of the managed server: write-access handlers by attribute,
 control handlers by data object, client connections by native connection, and the
 report-control-block wrappers kept by logical-node wrappers.
 */
module IedServer {
  import opened NativeModel
  import opened ModelNodeCache
  import opened WriteAccessSpec
  import opened ControlSpec
  import ConnectionSpec

  class ClientConnection {
    const self: Ptr

    constructor (self: Ptr)
      ensures this.self == self
    {
      this.self := self;
    }
  }

  datatype WriteAccessHandlerInfo = WriteAccessHandlerInfo(handler: Delegate, parameter: Parameter,
      dataAttribute: ModelNode)

  type WriteAccessTable = map<Ptr, WriteAccessHandlerInfo>

  /**
   What a registration for the nodes in `target` does to the entry of `q`: an entry
   that is there stays, and is not in `target` if the registration succeeded; a new
   one is in `target` and well formed; success leaves none in `target` out.
   */
  ghost predicate EntryOf(before: WriteAccessTable, after: WriteAccessTable, target: set<Ptr>, handler: Delegate,
                          parameter: Parameter, ok: bool, q: Ptr)
  {
    if q in before then
      q in after && after[q] == before[q] && (ok ==> q !in target)
    else
      && (q in after ==> q in target && IsFor(after[q], handler, parameter, q))
      && (ok && q in target ==> q in after)
  }

  ghost predicate IsFor(info: WriteAccessHandlerInfo, handler: Delegate, parameter: Parameter, q: Ptr) {
    && info.handler == handler && info.parameter == parameter
    && info.dataAttribute.self == q && info.dataAttribute.cls == DataAttribute
  }

  ghost predicate Clash(before: WriteAccessTable, target: set<Ptr>) {
    exists q :: q in before && q in target
  }

  ghost predicate Registered(before: WriteAccessTable, after: WriteAccessTable, target: set<Ptr>, handler: Delegate,
                             parameter: Parameter, ok: bool)
  {
    && (forall q {:trigger EntryOf(before, after, target, handler, parameter, ok, q)} ::
         EntryOf(before, after, target, handler, parameter, ok, q))
    && (!ok ==> Clash(before, target))
  }

  /**
   A registration succeeds exactly when none of its nodes is registered yet, keeps every earlier
   entry, and on success adds exactly its nodes.
   */
  lemma RegisteredMeans(before: WriteAccessTable, after: WriteAccessTable, target: set<Ptr>, handler: Delegate,
                        parameter: Parameter, ok: bool)
    requires Registered(before, after, target, handler, parameter, ok)
    ensures ok <==> target !! before.Keys
    ensures ok ==> after.Keys == before.Keys + target
    ensures before.Keys <= after.Keys <= before.Keys + target
    ensures forall q | q in before :: after[q] == before[q]
    ensures forall q | q in after && q !in before :: IsFor(after[q], handler, parameter, q)
  {
    forall q
      ensures q in before ==> q in after && after[q] == before[q] && (ok ==> q !in target)
      ensures q in after && q !in before ==> q in target && IsFor(after[q], handler, parameter, q)
      ensures ok && q in target ==> q in after
    {
      assert EntryOf(before, after, target, handler, parameter, ok, q);
    }
  }

  /** Two registrations in a row, on disjoint targets, are one for both. */
  lemma RegisteredTwice(a: WriteAccessTable, b: WriteAccessTable, c: WriteAccessTable, s: set<Ptr>, u: set<Ptr>,
                        handler: Delegate, parameter: Parameter, ok: bool)
    requires s !! u
    requires Registered(a, b, s, handler, parameter, true) && Registered(b, c, u, handler, parameter, ok)
    ensures Registered(a, c, s + u, handler, parameter, ok)
  {
    forall q ensures EntryOf(a, c, s + u, handler, parameter, ok, q) {
      assert EntryOf(a, b, s, handler, parameter, true, q) && EntryOf(b, c, u, handler, parameter, ok, q);
    }
    if !ok {
      var q :| q in b && q in u;
      assert EntryOf(a, b, s, handler, parameter, true, q);
    }
  }

  lemma RegisteredNothing(a: WriteAccessTable, handler: Delegate, parameter: Parameter)
    ensures Registered(a, a, {}, handler, parameter, true)
  {
  }

  /** A part that fails makes the whole registration fail. */
  lemma RegisteredFailure(a: WriteAccessTable, b: WriteAccessTable, part: set<Ptr>, target: set<Ptr>, handler: Delegate,
                          parameter: Parameter)
    requires part <= target && Registered(a, b, part, handler, parameter, false)
    ensures Registered(a, b, target, handler, parameter, false)
  {
    forall q ensures EntryOf(a, b, target, handler, parameter, false, q) {
      assert EntryOf(a, b, part, handler, parameter, false, q);
    }
  }

  /** One round of the loop over the children of `p`: what was covered before, then the child. */
  lemma RegisteredChild(t: Native, scope: Scope, p: Ptr, k: nat, a: WriteAccessTable, b: WriteAccessTable,
                        c: WriteAccessTable, handler: Delegate, parameter: Parameter, ok: bool)
    requires t.IsForest() && p in t.kind && k < |t.children[p]|
    requires Registered(a, b, FirstChildren(t, scope, p, k), handler, parameter, true)
    requires Registered(b, c, ChildTarget(t, scope, t.children[p][k]), handler, parameter, ok)
    ensures Registered(a, c, FirstChildren(t, scope, p, k + 1), handler, parameter, ok)
    ensures !ok ==> Registered(a, c, AllChildren(t, scope, p), handler, parameter, false)
  {
    NextChildIsNew(t, scope, p, k);
    RegisteredTwice(a, b, c, FirstChildren(t, scope, p, k), ChildTarget(t, scope, t.children[p][k]), handler, parameter,
        ok);
    if !ok {
      FirstChildrenGrow(t, scope, p, k + 1);
      RegisteredFailure(a, c, FirstChildren(t, scope, p, k + 1), AllChildren(t, scope, p), handler, parameter);
    }
  }

  type Event = ConnectionSpec.Indication<ClientConnection>

  /**
   What the application is told of an indication that meets `table`: nothing of a repeated opening or
   an unknown closing.
   */
  ghost function Tells(table: map<Ptr, ClientConnection>, e: Event): ClientConnection? {
    match e
    case Opened(c, wrapper) => if c in table then null else wrapper
    case Closed(c) => if c in table then table[c] else null
  }

  ghost predicate ToldInOrder(events: seq<Event>, told: seq<ClientConnection?>)
    requires |told| == |events|
  {
    forall n | 0 <= n < |events| :: told[n] == Tells(ConnectionSpec.TrackAll(events[..n]), events[n])
  }

  /**
   The application is told of an opening with the new wrapper, and of a closing with the one it was
   told of at the opening, if there was one.
   */
  ghost predicate ToldWrappers(events: seq<Event>, told: seq<ClientConnection?>)
    requires |told| == |events|
  {
    && (forall i | 0 <= i < |events| && events[i].Opened? :: told[i] == events[i].wrapper)
    && (forall i, j | 0 <= i < j < |events| && events[j].Closed? &&
         ConnectionSpec.OpenSince(events[..j], events[j].c, i) :: told[j] == told[i])
    && (forall j | 0 <= j < |events| && events[j].Closed? && told[j] != null ::
         exists i :: ConnectionSpec.OpenSince(events[..j], events[j].c, i))
  }

  lemma ToldInOrderNext(events: seq<Event>, told: seq<ClientConnection?>, e: Event, con: ClientConnection?)
    requires |told| == |events| && ToldInOrder(events, told) && con == Tells(ConnectionSpec.TrackAll(events), e)
    ensures ToldInOrder(events + [e], told + [con])
  {
    assert (events + [e])[..|events|] == events;
    assert forall n | 0 <= n < |events| :: (events + [e])[..n] == events[..n];
  }

  /** Different openings are told with different wrappers. */
  ghost predicate NewEach(events: seq<Event>, told: seq<ClientConnection?>)
    requires |told| == |events|
  {
    forall i, j | 0 <= i < j < |events| && events[i].Opened? && events[j].Opened? && told[i] != null ::
        told[i] != told[j]
  }

  /** What is told in order is, in an alternating stream, told with one wrapper from opening to closing. */
  lemma ToldInOrderMeans(events: seq<Event>, told: seq<ClientConnection?>)
    requires |told| == |events| && ToldInOrder(events, told) && ConnectionSpec.Alternating(events)
    ensures ToldWrappers(events, told)
  {
    forall i | 0 <= i < |events| && events[i].Opened? ensures told[i] == events[i].wrapper {
      ConnectionSpec.AlternatingPrefix(events, i + 1);
      assert events[..i] + [events[i]] == events[..i + 1];
      ConnectionSpec.OpensWhatIsNotOpen(events[..i], events[i]);
    }
    forall j | 0 <= j < |events| && events[j].Closed?
      ensures forall i | ConnectionSpec.OpenSince(events[..j], events[j].c, i) :: told[j] == told[i]
      ensures told[j] != null ==> exists i :: ConnectionSpec.OpenSince(events[..j], events[j].c, i)
    {
      ConnectionSpec.AlternatingPrefix(events, j);
      ConnectionSpec.TableHoldsOpenConnections(events[..j], events[j].c);
    }
  }

  /** What the server does with a write by a client. */
  datatype WriteOutcome =
    | Denied
    | Invoked(handler: Delegate, dataAttribute: ModelNode, connection: ClientConnection?, parameter: Parameter)

  class ControlHandlerInfo {
    const controlObject: ModelNode
    var handlers: map<HandlerKind, Registration>

    constructor (controlObject: ModelNode)
      ensures this.controlObject == controlObject && handlers == map[]
    {
      this.controlObject, handlers := controlObject, map[];
    }
  }

  ghost function OnNodes(calls: seq<(ModelNode, HandlerKind, Registration)>): seq<SetHandlerCall> {
    seq(|calls|, i requires 0 <= i < |calls| => SetHandlerCall(calls[i].0.self, calls[i].1, calls[i].2))
  }

  /** What a control handler is given: who asks, and for which object. */
  class ControlAction {
    const connection: Ptr
    const controlObject: ModelNode
    const iedServer: IedServer

    constructor (connection: Ptr, controlObject: ModelNode, iedServer: IedServer)
      ensures this.connection == connection && this.controlObject == controlObject && this.iedServer == iedServer
    {
      this.connection, this.controlObject, this.iedServer := connection, controlObject, iedServer;
    }

    method GetClientConnection() returns (con: ClientConnection?)
      ensures con == if connection == NULL then null else iedServer.Resolved(connection)
      ensures con != null && iedServer.ConnectionsFit() ==> con.self == connection
    {
      con := null;
      if connection != NULL {
        con := if connection in iedServer.clientConnections then iedServer.clientConnections[connection] else null;
      }
    }
  }

  class IedServer {
    const iedModel: IedModel
    /** The nodes the native server has control objects for. */
    const controlObjects: set<Ptr>
    var writeAccessHandlers: WriteAccessTable
    /** The nodes for which the native server calls back on a write. */
    var monitored: set<Ptr>
    var controlHandlers: map<ModelNode, ControlHandlerInfo>
    /** What the native server was told: which handler info to pass back for a callback. */
    var nativeHandlers: map<(Ptr, HandlerKind), ControlHandlerInfo>
    var clientConnections: map<Ptr, ClientConnection>

    constructor (iedModel: IedModel, controlObjects: set<Ptr>)
      ensures this.iedModel == iedModel && this.controlObjects == controlObjects
      ensures writeAccessHandlers == map[] && monitored == {} && controlHandlers == map[] && clientConnections == map[]
      ensures ControlValid() && ControlTable() == map[]
    {
      this.iedModel, this.controlObjects := iedModel, controlObjects;
      writeAccessHandlers, monitored := map[], {};
      controlHandlers, nativeHandlers, clientConnections := map[], map[], map[];
    }

    // ---- Write access ----

    /** Every write the native server calls back for finds an entry. */
    ghost predicate Answered()
      reads this`writeAccessHandlers, this`monitored
    {
      monitored <= writeAccessHandlers.Keys
    }

    /** Dictionary.Add: false stands for the exception on a key that is there already. */
    method AddEntry(da: ModelNode, handler: Delegate, parameter: Parameter) returns (ok: bool)
      requires da.cls == DataAttribute
      modifies this`writeAccessHandlers
      ensures ok <==> da.self !in old(writeAccessHandlers)
      ensures writeAccessHandlers == if ok
                then old(writeAccessHandlers)[da.self := WriteAccessHandlerInfo(handler, parameter, da)]
                else old(writeAccessHandlers)
      ensures Registered(old(writeAccessHandlers), writeAccessHandlers, {da.self}, handler, parameter, ok)
    {
      ok := da.self !in writeAccessHandlers;
      if ok {
        writeAccessHandlers := writeAccessHandlers[da.self := WriteAccessHandlerInfo(handler, parameter, da)];
      }
    }

    /** An exception also skips telling the native server. */
    method HandleWriteAccess(da: ModelNode, handler: Delegate, parameter: Parameter) returns (ok: bool)
      requires da.cls == DataAttribute
      modifies this`writeAccessHandlers, this`monitored
      ensures ok <==> da.self !in old(writeAccessHandlers)
      ensures writeAccessHandlers == if ok
                then old(writeAccessHandlers)[da.self := WriteAccessHandlerInfo(handler, parameter, da)]
                else old(writeAccessHandlers)
      ensures monitored == if ok then old(monitored) + {da.self} else old(monitored)
      ensures old(Answered()) ==> Answered()
    {
      ok := AddEntry(da, handler, parameter);
      if ok { monitored := monitored + {da.self}; }
    }

    /** The tests a child has to pass in the recursive registrations, and what is then done for it. */
    method AddHandlerInfoForChild(t: Native, scope: Scope, child: ModelNode, handler: Delegate, parameter: Parameter)
      returns (ok: bool)
      requires t.WellFormed() && child.Linked(t) && (scope.OfAttribute? || scope.OfObject?)
      requires child.GetIedModel(t) != null ==> child.GetIedModel(t).Valid(t)
      modifies this`writeAccessHandlers, child.GetIedModel(t)
      ensures Registered(old(writeAccessHandlers), writeAccessHandlers, ChildTarget(t, scope, child.self), handler,
                parameter, ok)
      ensures child.GetIedModel(t) != null ==> child.GetIedModel(t).Grows(t)
      decreases Subtree(t, child.self), 3
    {
      if child.cls == DataAttribute && (scope.OfObject? ==> t.fc[child.self] == scope.fc) {
        ok := AddHandlerInfoForDataAttributeRecursive(t, child, handler, parameter);
      } else if child.cls == DataObject && scope.OfObject? {
        ok := AddHandlerInfoForDataObjectRecursive(t, child, scope.fc, handler, parameter);
      } else {
        ok := true;
        RegisteredNothing(writeAccessHandlers, handler, parameter);
      }
    }

    /** One round of the loop below: `start` is the table before the loop. */
    method AddHandlerInfoForNext(t: Native, scope: Scope, node: ModelNode, k: nat, child: ModelNode, handler: Delegate,
                                 parameter: Parameter, ghost start: WriteAccessTable)
      returns (ok: bool)
      requires t.WellFormed() && node.Linked(t) && k < |t.children[node.self]| &&
                 (scope.OfAttribute? || scope.OfObject?)
      requires node.Suits(t, t.children[node.self][k], child)
      requires node.GetIedModel(t) != null ==> node.GetIedModel(t).Valid(t)
      requires Registered(start, writeAccessHandlers, FirstChildren(t, scope, node.self, k), handler, parameter, true)
      modifies this`writeAccessHandlers, node.GetIedModel(t)
      ensures Registered(start, writeAccessHandlers,
                         if ok then FirstChildren(t, scope, node.self, k + 1)
                             else AllChildren(t, scope, node.self), handler, parameter, ok)
      ensures node.GetIedModel(t) != null ==> node.GetIedModel(t).Grows(t)
      decreases Subtree(t, child.self), 4
    {
      ghost var before := writeAccessHandlers;
      ok := AddHandlerInfoForChild(t, scope, child, handler, parameter);
      RegisteredChild(t, scope, node.self, k, start, before, writeAccessHandlers, handler, parameter, ok);
    }

    /** The loop over the children that both recursive registrations have. */
    method AddHandlerInfoForList(t: Native, scope: Scope, node: ModelNode, children: seq<ModelNode>, handler: Delegate,
                                 parameter: Parameter)
      returns (ok: bool)
      requires t.WellFormed() && node.Linked(t) && (scope.OfAttribute? || scope.OfObject?)
      requires |children| == |t.children[node.self]|
      requires forall i | 0 <= i < |children| :: node.Suits(t, t.children[node.self][i], children[i])
      requires node.GetIedModel(t) != null ==> node.GetIedModel(t).Valid(t)
      modifies this`writeAccessHandlers, node.GetIedModel(t)
      ensures Registered(old(writeAccessHandlers), writeAccessHandlers, AllChildren(t, scope, node.self), handler,
                parameter, ok)
      ensures node.GetIedModel(t) != null ==> node.GetIedModel(t).Grows(t)
      decreases Subtree(t, node.self), 0
    {
      var m := node.GetIedModel(t);
      assert allocated(m);
      ok := true;
      assert FirstChildren(t, scope, node.self, 0) == {};
      RegisteredNothing(writeAccessHandlers, handler, parameter);
      var k := 0;
      while ok && k < |children|
        invariant 0 <= k <= |children|
        invariant m != null ==> m.Grows(t)
        invariant Registered(old(writeAccessHandlers), writeAccessHandlers,
                             if ok then FirstChildren(t, scope, node.self, k)
                                 else AllChildren(t, scope, node.self), handler, parameter, ok)
      {
        ChildSubtree(t, node.self, k);
        ok := AddHandlerInfoForNext(t, scope, node, k, children[k], handler, parameter, old(writeAccessHandlers));
        k := k + 1;
      }
    }

    method AddHandlerInfoForChildren(t: Native, scope: Scope, node: ModelNode, handler: Delegate, parameter: Parameter)
      returns (ok: bool)
      requires t.WellFormed() && node.Linked(t) && (scope.OfAttribute? || scope.OfObject?)
      requires node.GetIedModel(t) != null ==> node.GetIedModel(t).Valid(t)
      modifies this`writeAccessHandlers, node.GetIedModel(t)
      ensures Registered(old(writeAccessHandlers), writeAccessHandlers, AllChildren(t, scope, node.self), handler,
                parameter, ok)
      ensures node.GetIedModel(t) != null ==> node.GetIedModel(t).Grows(t)
      decreases Subtree(t, node.self), 1
    {
      ghost var m := node.GetIedModel(t);
      assert allocated(m);
      var children := node.GetChildren(t);
      ok := AddHandlerInfoForList(t, scope, node, children, handler, parameter);
    }

    method AddHandlerInfoForDataAttributeRecursive(t: Native, da: ModelNode, handler: Delegate, parameter: Parameter)
      returns (ok: bool)
      requires t.WellFormed() && da.Linked(t) && da.cls == DataAttribute
      requires da.GetIedModel(t) != null ==> da.GetIedModel(t).Valid(t)
      modifies this`writeAccessHandlers, da.GetIedModel(t)
      ensures Registered(old(writeAccessHandlers), writeAccessHandlers, AttributeTarget(t, da.self), handler, parameter,
                ok)
      ensures da.GetIedModel(t) != null ==> da.GetIedModel(t).Grows(t)
      decreases Subtree(t, da.self), 2
    {
      ghost var m := da.GetIedModel(t);
      assert allocated(m);
      AttributeTargetSplits(t, da.self);
      ok := AddEntry(da, handler, parameter);
      if !ok {
        RegisteredFailure(old(writeAccessHandlers), writeAccessHandlers, {da.self}, AttributeTarget(t, da.self),
            handler, parameter);
        return;
      }
      ghost var before := writeAccessHandlers;
      ok := AddHandlerInfoForChildren(t, OfAttribute, da, handler, parameter);
      RegisteredTwice(old(writeAccessHandlers), before, writeAccessHandlers, {da.self},
          AllChildren(t, OfAttribute, da.self), handler, parameter, ok);
    }

    method AddHandlerInfoForDataObjectRecursive(t: Native, dataObject: ModelNode, fc: int, handler: Delegate,
                                                parameter: Parameter)
      returns (ok: bool)
      requires t.WellFormed() && dataObject.Linked(t)
      requires dataObject.GetIedModel(t) != null ==> dataObject.GetIedModel(t).Valid(t)
      modifies this`writeAccessHandlers, dataObject.GetIedModel(t)
      ensures Registered(old(writeAccessHandlers), writeAccessHandlers, ObjectTarget(t, dataObject.self, fc), handler,
                parameter, ok)
      ensures dataObject.GetIedModel(t) != null ==> dataObject.GetIedModel(t).Grows(t)
      decreases Subtree(t, dataObject.self), 2
    {
      ObjectTargetSplits(t, dataObject.self, fc);
      ok := AddHandlerInfoForChildren(t, OfObject(fc), dataObject, handler, parameter);
    }

    /** The native server's part, over the native tree: the attribute and everything below it. */
    method MonitorComplexAttribute(t: Native, p: Ptr)
      requires t.IsForest() && p in t.kind
      modifies this`monitored
      ensures monitored == old(monitored) + Subtree(t, p)
      decreases Subtree(t, p)
    {
      SubtreeSplits(t, p);
      monitored := monitored + {p};
      for k := 0 to |t.children[p]|
        invariant monitored == old(monitored) + {p} + FirstChildren(t, NativeAttribute, p, k)
      {
        ChildSubtree(t, p, k);
        t.ChildIsBelow(p, k);
        NextChildIsNew(t, NativeAttribute, p, k);
        MonitorComplexAttribute(t, t.children[p][k]);
      }
    }

    method MonitorDataObject(t: Native, p: Ptr, fc: int)
      requires t.IsForest() && p in t.kind
      modifies this`monitored
      ensures monitored == old(monitored) + NativeTarget(t, p, fc)
      decreases Subtree(t, p)
    {
      NativeTargetSplits(t, p, fc);
      for k := 0 to |t.children[p]|
        invariant monitored == old(monitored) + FirstChildren(t, NativeObject(fc), p, k)
      {
        var c := t.children[p][k];
        ChildSubtree(t, p, k);
        t.ChildIsBelow(p, k);
        NextChildIsNew(t, NativeObject(fc), p, k);
        if t.kind[c] == DATA_ATTRIBUTE {
          if t.fc[c] == fc { MonitorComplexAttribute(t, c); }
        } else if t.kind[c] == DATA_OBJECT {
          MonitorDataObject(t, c, fc);
        }
      }
    }

    method HandleWriteAccessForComplexAttribute(t: Native, dataAttr: ModelNode, handler: Delegate, parameter: Parameter)
      returns (ok: bool)
      requires t.WellFormed() && dataAttr.Linked(t) && dataAttr.cls == DataAttribute
      requires dataAttr.GetIedModel(t) != null ==> dataAttr.GetIedModel(t).Valid(t)
      modifies this`writeAccessHandlers, this`monitored, dataAttr.GetIedModel(t)
      ensures ok <==> AttributeTarget(t, dataAttr.self) !! old(writeAccessHandlers).Keys
      ensures ok ==> writeAccessHandlers.Keys == old(writeAccessHandlers).Keys + AttributeTarget(t, dataAttr.self)
      ensures writeAccessHandlers.Keys <= old(writeAccessHandlers).Keys + AttributeTarget(t, dataAttr.self)
      ensures forall q | q in old(writeAccessHandlers) ::
                q in writeAccessHandlers && writeAccessHandlers[q] == old(writeAccessHandlers)[q]
      ensures forall q | q in writeAccessHandlers && q !in old(writeAccessHandlers) ::
                IsFor(writeAccessHandlers[q], handler, parameter, q)
      ensures monitored == if ok then old(monitored) + Subtree(t, dataAttr.self) else old(monitored)
      ensures AttributesHoldAttributes(t) && old(Answered()) ==> Answered()
      ensures dataAttr.GetIedModel(t) != null ==> dataAttr.GetIedModel(t).Grows(t)
    {
      ghost var m := dataAttr.GetIedModel(t);
      assert allocated(m);
      ok := AddHandlerInfoForDataAttributeRecursive(t, dataAttr, handler, parameter);
      RegisteredMeans(old(writeAccessHandlers), writeAccessHandlers, AttributeTarget(t, dataAttr.self), handler,
          parameter, ok);
      if ok { MonitorComplexAttribute(t, dataAttr.self); }
      if AttributesHoldAttributes(t) { MonitorsWhatIsCovered(t, dataAttr.self, 0); }
    }

    method HandleWriteAccessForDataObject(t: Native, dataObj: ModelNode, fc: int, handler: Delegate,
                                          parameter: Parameter)
      returns (ok: bool)
      requires t.WellFormed() && dataObj.Linked(t) && dataObj.cls == DataObject
      requires dataObj.GetIedModel(t) != null ==> dataObj.GetIedModel(t).Valid(t)
      modifies this`writeAccessHandlers, this`monitored, dataObj.GetIedModel(t)
      ensures ok <==> ObjectTarget(t, dataObj.self, fc) !! old(writeAccessHandlers).Keys
      ensures ok ==> writeAccessHandlers.Keys == old(writeAccessHandlers).Keys + ObjectTarget(t, dataObj.self, fc)
      ensures writeAccessHandlers.Keys <= old(writeAccessHandlers).Keys + ObjectTarget(t, dataObj.self, fc)
      ensures forall q | q in old(writeAccessHandlers) ::
                q in writeAccessHandlers && writeAccessHandlers[q] == old(writeAccessHandlers)[q]
      ensures forall q | q in writeAccessHandlers && q !in old(writeAccessHandlers) ::
                IsFor(writeAccessHandlers[q], handler, parameter, q)
      ensures Typed(t, dataObj.self) ==>
                (ObjectTarget(t, dataObj.self, fc) == AttributesBelow(t, dataObj.self, fc) <==>
                    Inherits(t, dataObj.self, fc))
      ensures monitored == if ok then old(monitored) + NativeTarget(t, dataObj.self, fc) else old(monitored)
      ensures AttributesHoldAttributes(t) && old(Answered()) ==> Answered()
      ensures dataObj.GetIedModel(t) != null ==> dataObj.GetIedModel(t).Grows(t)
    {
      ghost var m := dataObj.GetIedModel(t);
      assert allocated(m);
      ok := AddHandlerInfoForDataObjectRecursive(t, dataObj, fc, handler, parameter);
      RegisteredMeans(old(writeAccessHandlers), writeAccessHandlers, ObjectTarget(t, dataObj.self, fc), handler,
          parameter, ok);
      if Typed(t, dataObj.self) { CoversAttributesBelowIffInherited(t, dataObj.self, fc); }
      if ok { MonitorDataObject(t, dataObj.self, fc); }
      if AttributesHoldAttributes(t) { MonitorsWhatIsCovered(t, dataObj.self, fc); }
    }

    /** The native write callback for an attribute. */
    method WriteAccessHandlerImpl(dataAttribute: Ptr, connection: Ptr) returns (outcome: WriteOutcome)
      ensures outcome == Denied <==> dataAttribute !in writeAccessHandlers
      ensures Answered() && dataAttribute in monitored ==> outcome.Invoked?
      ensures outcome.Invoked? ==>
                && var info := writeAccessHandlers[dataAttribute];
                && outcome.handler == info.handler && outcome.parameter == info.parameter &&
                     outcome.dataAttribute == info.dataAttribute
                && outcome.connection == Resolved(connection)
    {
      if dataAttribute in writeAccessHandlers {
        var info := writeAccessHandlers[dataAttribute];
        var con := if connection in clientConnections then clientConnections[connection] else null;
        outcome := Invoked(info.handler, info.dataAttribute, con, info.parameter);
      } else {
        outcome := Denied;
      }
    }

    // ---- Control handlers ----

    ghost predicate ControlValid()
      reads this`controlHandlers, this`nativeHandlers, controlHandlers.Values
    {
      && (forall w | w in controlHandlers :: controlHandlers[w].controlObject == w)
      && (forall key {:trigger NativeEntry(key, nativeHandlers[key])} | key in nativeHandlers ::
           NativeEntry(key, nativeHandlers[key]))
    }

    /** The native server passes back the info of a wrapper of the very node it calls for. */
    ghost predicate NativeEntry(key: (Ptr, HandlerKind), info: ControlHandlerInfo)
      reads this`controlHandlers, controlHandlers.Values
    {
      && key.0 in controlObjects
      && info.controlObject in controlHandlers && controlHandlers[info.controlObject] == info
      && info.controlObject.self == key.0 && key.1 in info.handlers
    }

    /** What a native callback for a node and a kind of handler will find. */
    ghost function ControlTable(): (table: HandlerTable)
      requires ControlValid()
      reads this`controlHandlers, this`nativeHandlers, controlHandlers.Values
    {
      map key | key in nativeHandlers :: RegistrationFor(key)
    }

    ghost function RegistrationFor(key: (Ptr, HandlerKind)): Registration
      requires ControlValid() && key in nativeHandlers
      reads this`controlHandlers, this`nativeHandlers, controlHandlers.Values
    {
      assert NativeEntry(key, nativeHandlers[key]);
      nativeHandlers[key].handlers[key.1]
    }

    method GetControlHandlerInfo(controlObject: ModelNode) returns (info: ControlHandlerInfo)
      requires ControlValid()
      modifies this`controlHandlers
      ensures ControlValid() && ControlTable() == old(ControlTable())
      ensures controlHandlers == old(controlHandlers)[controlObject := info] && info.controlObject == controlObject
      ensures controlObject !in old(controlHandlers) ==> fresh(info)
      ensures controlObject in old(controlHandlers) ==> info == old(controlHandlers)[controlObject]
    {
      if controlObject in controlHandlers {
        info := controlHandlers[controlObject];
      } else {
        info := new ControlHandlerInfo(controlObject);
        controlHandlers := controlHandlers[controlObject := info];
        forall key | key in nativeHandlers ensures NativeEntry(key, nativeHandlers[key]) {
          assert old(NativeEntry(key, nativeHandlers[key]));
        }
      }
    }

    lemma TableIs(table: HandlerTable)
      requires ControlValid() && table.Keys == nativeHandlers.Keys
      requires forall key | key in nativeHandlers :: RegistrationFor(key) == table[key]
      ensures ControlTable() == table
    {
    }

    /**
     Fill in the slot and tell the native server which info to pass back; without a control object it
     takes no notice.
     */
    method Install(info: ControlHandlerInfo, kind: HandlerKind, registration: Registration)
      requires ControlValid() && info.controlObject in controlHandlers && controlHandlers[info.controlObject] == info
      modifies this`nativeHandlers, info
      ensures ControlValid()
      ensures ControlTable() ==
                Apply(controlObjects, old(ControlTable()), SetHandlerCall(info.controlObject.self, kind, registration))
    {
      var key := (info.controlObject.self, kind);
      ghost var table := Apply(controlObjects, ControlTable(),
          SetHandlerCall(info.controlObject.self, kind, registration));
      info.handlers := info.handlers[kind := registration];
      if key.0 in controlObjects {
        nativeHandlers := nativeHandlers[key := info];
      }
      forall k | k in nativeHandlers ensures NativeEntry(k, nativeHandlers[k]) {
        if k in old(nativeHandlers) { assert old(NativeEntry(k, nativeHandlers[k])); }
      }
      forall k | k in nativeHandlers ensures RegistrationFor(k) == table[k] {
        if k != key { assert table[k] == old(RegistrationFor(k)); }
      }
      TableIs(table);
    }

    /** SetControlHandler, SetCheckHandler, SetWaitForExecutionHandler and SetSelectStateChangedHandler. */
    method SetHandler(controlObject: ModelNode, kind: HandlerKind, registration: Registration)
      requires ControlValid()
      modifies this`controlHandlers, this`nativeHandlers, controlHandlers.Values
      ensures ControlValid()
      ensures ControlTable() ==
                Apply(controlObjects, old(ControlTable()), SetHandlerCall(controlObject.self, kind, registration))
      ensures fresh(controlHandlers.Values - old(controlHandlers.Values))
    {
      var info := GetControlHandlerInfo(controlObject);
      Install(info, kind, registration);
    }

    /** Any sequence of registrations, through any wrappers, several of which may stand for one native node. */
    method SetHandlers(calls: seq<(ModelNode, HandlerKind, Registration)>)
      requires ControlValid()
      modifies this`controlHandlers, this`nativeHandlers, controlHandlers.Values
      ensures ControlValid()
      ensures ControlTable() == ApplyAll(controlObjects, old(ControlTable()), OnNodes(calls))
    {
      for n := 0 to |calls|
        invariant ControlValid() && fresh(controlHandlers.Values - old(controlHandlers.Values))
        invariant ControlTable() == ApplyAll(controlObjects, old(ControlTable()), OnNodes(calls[..n]))
      {
        SetHandler(calls[n].0, calls[n].1, calls[n].2);
        assert OnNodes(calls[..n + 1])[..n] == OnNodes(calls[..n]);
      }
      assert calls[..|calls|] == calls;
    }

    /** A native callback for something that was registered, caused by a client over `connection` or by none. */
    method InternalHandlerImpl(node: Ptr, kind: HandlerKind, connection: Ptr)
      returns (callback: Callback, action: ControlAction?)
      requires ControlValid() && (node, kind) in nativeHandlers
      ensures (node, kind) in ControlTable()
      ensures var r := ControlTable()[(node, kind)];
              && callback == Calls(r, kind)
              && (r.handler != NO_HANDLER ==> callback == Runs(r.handler, r.parameter))
              && (r.handler == NO_HANDLER && (kind == Control || kind == WaitForExecution) ==> callback == Answers(0))
              && (r.handler == NO_HANDLER && kind == Check ==> callback == Answers(4))
              && (r.handler == NO_HANDLER && kind == SelectStateChanged ==> callback == DoesNothing)
      ensures action != null <==> callback.Runs?
      ensures action != null ==>
                action.iedServer == this && action.connection == connection && action.controlObject.self == node
    {
      var info := nativeHandlers[(node, kind)];
      assert NativeEntry((node, kind), info);
      var registration := info.handlers[kind];
      callback, action := WithoutHandler(kind), null;
      if registration.handler != NO_HANDLER {
        action := new ControlAction(connection, info.controlObject, this);
        callback := Runs(registration.handler, registration.parameter);
      }
    }

    // ---- Connections ----

    function Resolved(connection: Ptr): ClientConnection?
      reads this`clientConnections
    {
      if connection in clientConnections then clientConnections[connection] else null
    }

    /**
     `notified` is the wrapper given to the application's handler, null when there is none or nothing
     to tell; `failed` is the exception on a repeated key.
     */
    method ConnectionIndicationHandlerImpl(connection: Ptr, connected: bool, hasHandler: bool)
      returns (notified: ClientConnection?, failed: bool)
      modifies this`clientConnections
      ensures !connected ==>
                && clientConnections == ConnectionSpec.Track(old(clientConnections), ConnectionSpec.Closed(connection))
                && !failed
      ensures !connected && hasHandler ==> notified == old(Resolved(connection))
      ensures connected ==> failed == (connection in old(clientConnections))
      ensures connected && failed ==> clientConnections == old(clientConnections) && notified == null
      ensures connected && !failed ==>
                && connection in clientConnections && fresh(clientConnections[connection]) &&
                     clientConnections[connection].self == connection
                && clientConnections == ConnectionSpec.Track(old(clientConnections),
                     ConnectionSpec.Opened(connection, clientConnections[connection]))
                && (hasHandler ==> notified == clientConnections[connection])
      ensures !hasHandler ==> notified == null
    {
      notified, failed := null, false;
      if !connected {
        var con := Resolved(connection);
        if con != null {
          if hasHandler { notified := con; }
          clientConnections := clientConnections - {connection};
        }
      } else {
        var con := new ClientConnection(connection);
        if connection in clientConnections {
          failed := true;
        } else {
          clientConnections := clientConnections[connection := con];
          if hasHandler { notified := con; }
        }
      }
    }

    ghost predicate ConnectionsFit()
      reads this`clientConnections
    {
      forall c | c in clientConnections :: clientConnections[c].self == c
    }

    /** One more indication after `events`. */
    method IndicateNext(connection: Ptr, connected: bool, ghost events: seq<Event>)
      returns (e: Event, con: ClientConnection?)
      requires ConnectionsFit() && clientConnections == ConnectionSpec.TrackAll(events)
      modifies this`clientConnections
      ensures ConnectionsFit() && clientConnections == ConnectionSpec.TrackAll(events + [e])
      ensures e.c == connection && e.Opened? == connected && (e.Opened? ==> e.wrapper.self == connection)
      ensures con == Tells(ConnectionSpec.TrackAll(events), e) && (connected && con != null ==> fresh(con))
    {
      var failed;
      con, failed := ConnectionIndicationHandlerImpl(connection, connected, true);
      e := if connected then ConnectionSpec.Opened(connection, clientConnections[connection])
          else ConnectionSpec.Closed(connection);
      assert (events + [e])[..|events|] == events;
    }

    /**
     Any stream of indications from an empty table, and what the application's handler
     is told.  When the native server opens only what is not open: the opening and
     the closing of a connection are told with one and the same wrapper, and as long
     as the connection is open its pointer is resolved to that wrapper.
     */
    method Indications(stream: seq<(Ptr, bool)>) returns (events: seq<Event>, told: seq<ClientConnection?>)
      requires clientConnections == map[]
      modifies this`clientConnections
      ensures clientConnections == ConnectionSpec.TrackAll(events)
      ensures |told| == |events| == |stream|
      ensures forall i | 0 <= i < |stream| :: events[i].c == stream[i].0 && events[i].Opened? == stream[i].1
      ensures ToldInOrder(events, told) && NewEach(events, told)
      ensures ConnectionSpec.Alternating(events) ==> ToldWrappers(events, told)
      ensures ConnectionSpec.Alternating(events) ==>
                forall c, i | ConnectionSpec.OpenSince(events, c, i) :: Resolved(c) == told[i] && told[i].self == c
    {
      events, told := [], [];
      for n := 0 to |stream|
        invariant ConnectionsFit() && clientConnections == ConnectionSpec.TrackAll(events)
        invariant |told| == |events| == n
        invariant forall i | 0 <= i < n :: events[i].c == stream[i].0 && events[i].Opened? == stream[i].1
        invariant forall i | 0 <= i < n && events[i].Opened? :: events[i].wrapper.self == events[i].c
        invariant ToldInOrder(events, told) && NewEach(events, told)
      {
        var e, con := IndicateNext(stream[n].0, stream[n].1, events);
        ToldInOrderNext(events, told, e, con);
        events, told := events + [e], told + [con];
      }
      if ConnectionSpec.Alternating(events) {
        ToldInOrderMeans(events, told);
        forall c, i | ConnectionSpec.OpenSince(events, c, i) ensures Resolved(c) == told[i] && told[i].self == c {
          ConnectionSpec.TableHoldsOpenConnections(events, c);
        }
      }
    }

    // ---- Report control blocks ----

    ghost predicate RcbsValid()
      reads iedModel, iedModel.Wrappers()
    {
      forall p | p in iedModel.modelNodes :: iedModel.modelNodes[p].RcbsFit()
    }

    /** The wrappers handed to the application's handler for a report event. */
    method InternalRCBEventHandlerImplementation(t: Native, rcb: Ptr, connection: Ptr)
      returns (block: ReportControlBlock?, con: ClientConnection?)
      requires t.WellFormed() && iedModel.Valid(t) && RcbsValid()
      requires rcb == NULL || rcb in t.rcbOwner
      modifies iedModel, iedModel.Wrappers()
      ensures iedModel.Valid(t) && RcbsValid() && Keeps(old(iedModel.modelNodes), iedModel.modelNodes)
      ensures forall p | p in iedModel.modelNodes && p !in old(iedModel.modelNodes) :: fresh(iedModel.modelNodes[p])
      ensures con == if connection == NULL then null else Resolved(connection)
      ensures block != null <==> rcb != NULL && t.rcbOwner[rcb] != NULL && t.Rooted(t.rcbOwner[rcb])
      ensures block != null ==>
                && block.self == rcb && block.parent.self == t.rcbOwner[rcb] && t.rcbOwner[rcb] in iedModel.modelNodes
                && block.parent.cls == LogicalNode
                && block.parent == iedModel.modelNodes[t.rcbOwner[rcb]]
                && rcb in block.parent.rcbs && block.parent.rcbs[rcb] == block
      ensures forall w | w in old(iedModel.Wrappers()) :: Keeps(old(w.rcbs), w.rcbs)
    {
      con := null;
      if connection != NULL {
        con := Resolved(connection);
      }
      block := null;
      if rcb != NULL {
        var lnPtr := t.rcbOwner[rcb];
        if lnPtr != NULL {
          var ln := iedModel.GetModelNodeFromNodeRef(t, lnPtr);
          if ln != null {
            assert Fits(iedModel, t, lnPtr, ln);
            block := ln.GetRcb(rcb);
          }
        }
      }
    }

    /** The block is the one the two-level cache holds, or null for good. */
    ghost predicate HandedOut(t: Native, rcb: Ptr, block: ReportControlBlock?)
      requires t.WellFormed() && rcb in t.rcbOwner
      reads iedModel, iedModel.Wrappers()
    {
      var ln := t.rcbOwner[rcb];
      if block == null then rcb == NULL || ln == NULL || !t.Rooted(ln)
      else
        && rcb != NULL && ln != NULL && t.Rooted(ln)
        && ln in iedModel.modelNodes && rcb in iedModel.modelNodes[ln].rcbs &&
             iedModel.modelNodes[ln].rcbs[rcb] == block
    }
  }
}
