/**
 Whole runs of lookups on objects: any sequence of the three calls, each made on a
 wrapper the caller was given from outside the cache or got from an earlier call.
 */
module LookupRuns {
  import opened NativeModel
  import opened CacheSpec
  import opened ModelNodeCache

  /** The receiver of a call is a position in the pool of wrappers at hand; a position not filled yet makes no call. */
  datatype Call = ByRef(p: Ptr) | ByName(k: nat, name: string) | ByList(k: nat)

  ghost predicate Usable(t: Native, m: IedModel, w: ModelNode)
    requires t.WellFormed()
  {
    w.Linked(t) && w.GetIedModel(t) == m
  }

  ghost predicate AreCached(m: IedModel, nodes: seq<ModelNode>)
    reads m
  {
    forall i | 0 <= i < |nodes| :: nodes[i].self in m.modelNodes && m.modelNodes[nodes[i].self] == nodes[i]
  }

  function Selves(nodes: seq<ModelNode>): seq<Ptr> {
    seq(|nodes|, i requires 0 <= i < |nodes| => nodes[i].self)
  }

  /** The native nodes a call asks for and gets, in order. */
  ghost function Asked(t: Native, pool: seq<ModelNode>, call: Call): seq<Ptr>
    requires t.WellFormed()
  {
    match call
    case ByRef(p) => if p in t.kind && t.Rooted(p) then [p] else []
    case ByName(k, name) =>
      if k < |pool| && t.ChildNamed(pool[k].self, name) != NULL then [t.ChildNamed(pool[k].self, name)] else []
    case ByList(k) => if k < |pool| && pool[k].self in t.children then t.children[pool[k].self] else []
  }

  /** The lookup a call is on values. */
  ghost function Made(pool: seq<ModelNode>, call: Call): seq<Lookup> {
    match call
    case ByRef(p) => [Reference(p)]
    case ByName(k, name) => if k < |pool| then [Child(pool[k].self, name)] else []
    case ByList(k) => if k < |pool| then [Children(pool[k].self)] else []
  }

  /** One call answers exactly what it asks for, with the cached wrappers, and is its lookup on values. */
  method Perform(t: Native, m: IedModel, pool: seq<ModelNode>, call: Call) returns (answers: seq<ModelNode>)
    requires t.WellFormed() && m.Valid(t)
    requires forall i | 0 <= i < |pool| :: Usable(t, m, pool[i])
    requires call.ByRef? ==> call.p in t.kind
    modifies m
    ensures m.Grows(t)
    ensures AreCached(m, answers) && Selves(answers) == Asked(t, pool, call)
    ensures forall i | 0 <= i < |answers| :: Usable(t, m, answers[i])
    ensures Follows(t, LinksOf(old(m.modelNodes)), Made(pool, call), LinksOf(m.modelNodes))
    ensures call.ByRef? && LinkedUp(t, old(m.modelNodes)) ==> LinkedUp(t, m.modelNodes)
  {
    answers := [];
    match call
    case ByRef(p) =>
      var node := m.GetModelNodeFromNodeRef(t, p);
      if node != null {
        assert Fits(m, t, p, node);
        answers := [node];
      }
    case ByName(k, name) =>
      if k < |pool| {
        assert Usable(t, m, pool[k]);
        var node := pool[k].GetChild(t, name);
        if node != null { answers := [node]; }
      }
    case ByList(k) =>
      if k < |pool| {
        assert Usable(t, m, pool[k]);
        answers := pool[k].GetChildren(t);
      }
  }

  /** At most one lookup, which leads from one state of the links to the other. */
  ghost predicate Follows(t: Native, before: Links, made: seq<Lookup>, after: Links)
    requires t.WellFormed()
  {
    if made == [] then after == before
    else |made| == 1 && Possible(t, made[0]) && after == Step(t, before, made[0])
  }

  lemma RunFollows(t: Native, start: Links, ops: seq<Lookup>, made: seq<Lookup>, after: Links)
    requires t.WellFormed() && AllPossible(t, ops) && Follows(t, Run(t, start, ops), made, after)
    ensures AllPossible(t, ops + made) && Run(t, start, ops + made) == after
  {
    if made == [] {
      assert ops + made == ops;
    } else {
      assert (ops + made)[..|ops + made| - 1] == ops;
    }
  }

  /** The wrappers at hand after some calls. */
  function PoolAfter(outside: seq<ModelNode>, answers: seq<seq<ModelNode>>): seq<ModelNode> {
    if answers == [] then outside else PoolAfter(outside, answers[..|answers| - 1]) + answers[|answers| - 1]
  }

  /** Each call answers what it asks for through the wrappers at hand. */
  ghost predicate Answered(t: Native, outside: seq<ModelNode>, calls: seq<Call>, answers: seq<seq<ModelNode>>)
    requires t.WellFormed() && |answers| <= |calls|
  {
    forall n | 0 <= n < |answers| :: Selves(answers[n]) == Asked(t, PoolAfter(outside, answers[..n]), calls[n])
  }

  /** The lookups of some calls, in order. */
  ghost function AllMade(outside: seq<ModelNode>, calls: seq<Call>, answers: seq<seq<ModelNode>>): seq<Lookup>
    requires |answers| <= |calls|
  {
    if answers == [] then []
    else
      var before := answers[..|answers| - 1];
      AllMade(outside, calls, before) + Made(PoolAfter(outside, before), calls[|before|])
  }

  lemma AnsweredNext(t: Native, outside: seq<ModelNode>, calls: seq<Call>, answers: seq<seq<ModelNode>>,
                     more: seq<ModelNode>)
    requires t.WellFormed() && |answers| < |calls| && Answered(t, outside, calls, answers)
    requires Selves(more) == Asked(t, PoolAfter(outside, answers), calls[|answers|])
    ensures Answered(t, outside, calls, answers + [more])
    ensures PoolAfter(outside, answers + [more]) == PoolAfter(outside, answers) + more
    ensures AllMade(outside, calls, answers + [more]) ==
            AllMade(outside, calls, answers) + Made(PoolAfter(outside, answers), calls[|answers|])
  {
    assert (answers + [more])[..|answers|] == answers;
    assert forall n | 0 <= n < |answers| :: (answers + [more])[..n] == answers[..n];
  }

  ghost predicate AllByRef(calls: seq<Call>) {
    forall i | 0 <= i < |calls| :: calls[i].ByRef?
  }

  ghost predicate AllCached(m: IedModel, answers: seq<seq<ModelNode>>)
    reads m
  {
    forall n | 0 <= n < |answers| :: AreCached(m, answers[n])
  }

  /** One native node is only ever answered with one wrapper. */
  ghost predicate OneWrapperEach(answers: seq<seq<ModelNode>>) {
    forall i, j, a, b | 0 <= i < |answers| && 0 <= j < |answers| && a in answers[i] && b in answers[j] &&
        a.self == b.self :: a == b
  }

  lemma CachedAreOne(m: IedModel, answers: seq<seq<ModelNode>>)
    requires AllCached(m, answers)
    ensures OneWrapperEach(answers)
  {
    forall i, a | 0 <= i < |answers| && a in answers[i] ensures a.self in m.modelNodes && m.modelNodes[a.self] == a {
      assert AreCached(m, answers[i]);
    }
  }

  ghost function References(calls: seq<Call>): seq<Lookup>
    requires AllByRef(calls)
  {
    seq(|calls|, i requires 0 <= i < |calls| => Reference(calls[i].p))
  }

  lemma {:induction false} ReferencesMade(outside: seq<ModelNode>, calls: seq<Call>, answers: seq<seq<ModelNode>>)
    requires AllByRef(calls) && |answers| <= |calls|
    ensures AllMade(outside, calls, answers) == References(calls)[..|answers|]
    ensures |answers| == |calls| ==> AllMade(outside, calls, answers) == References(calls)
  {
    if answers != [] { ReferencesMade(outside, calls, answers[..|answers| - 1]); }
  }

  /** What some calls, from a cache with the links `start`, have answered and left. */
  ghost predicate Traced(t: Native, outside: seq<ModelNode>, pool: seq<ModelNode>, calls: seq<Call>,
                         answers: seq<seq<ModelNode>>,
                         start: Links, links: Links)
    requires t.WellFormed() && |answers| <= |calls|
  {
    && pool == PoolAfter(outside, answers) && Answered(t, outside, calls, answers)
    && AllPossible(t, AllMade(outside, calls, answers))
    && links == Run(t, start, AllMade(outside, calls, answers))
  }

  lemma TracedNext(t: Native, outside: seq<ModelNode>, pool: seq<ModelNode>, calls: seq<Call>,
                   answers: seq<seq<ModelNode>>,
                   start: Links, links: Links, more: seq<ModelNode>, links': Links)
    requires t.WellFormed() && |answers| < |calls| && Traced(t, outside, pool, calls, answers, start, links)
    requires Selves(more) == Asked(t, pool, calls[|answers|]) && Follows(t, links, Made(pool, calls[|answers|]), links')
    ensures Traced(t, outside, pool + more, calls, answers + [more], start, links')
  {
    AnsweredNext(t, outside, calls, answers, more);
    RunFollows(t, start, AllMade(outside, calls, answers), Made(pool, calls[|answers|]), links');
  }

  /** One more call of a run from a cache with the links `start`. */
  method Next(t: Native, m: IedModel, outside: seq<ModelNode>, pool: seq<ModelNode>, calls: seq<Call>,
              answers: seq<seq<ModelNode>>, ghost start: Links)
    returns (more: seq<ModelNode>)
    requires t.WellFormed() && m.Valid(t) && |answers| < |calls| && AllCached(m, answers)
    requires Traced(t, outside, pool, calls, answers, start, LinksOf(m.modelNodes))
    requires forall i | 0 <= i < |pool| :: Usable(t, m, pool[i])
    requires calls[|answers|].ByRef? ==> calls[|answers|].p in t.kind
    modifies m
    ensures m.Grows(t) && AllCached(m, answers + [more])
    ensures Traced(t, outside, pool + more, calls, answers + [more], start, LinksOf(m.modelNodes))
    ensures forall i | 0 <= i < |more| :: Usable(t, m, more[i])
    ensures calls[|answers|].ByRef? && LinkedUp(t, old(m.modelNodes)) ==> LinkedUp(t, m.modelNodes)
  {
    ghost var links := LinksOf(m.modelNodes);
    more := Perform(t, m, pool, calls[|answers|]);
    TracedNext(t, outside, pool, calls, answers, start, links, more, LinksOf(m.modelNodes));
  }

  method RunAll(t: Native, m: IedModel, outside: seq<ModelNode>, calls: seq<Call>)
    returns (answers: seq<seq<ModelNode>>)
    requires t.WellFormed() && m.Valid(t)
    requires forall i | 0 <= i < |outside| :: Usable(t, m, outside[i])
    requires forall i | 0 <= i < |calls| && calls[i].ByRef? :: calls[i].p in t.kind
    modifies m
    ensures m.Grows(t) && |answers| == |calls| && AllCached(m, answers)
    ensures Traced(t, outside, PoolAfter(outside, answers), calls, answers,
                   LinksOf(old(m.modelNodes)), LinksOf(m.modelNodes))
    ensures AllByRef(calls) && LinkedUp(t, old(m.modelNodes)) ==> LinkedUp(t, m.modelNodes)
  {
    answers := [];
    var pool := outside;
    for n := 0 to |calls|
      invariant m.Grows(t) && |answers| == n && AllCached(m, answers)
      invariant Traced(t, outside, pool, calls, answers, LinksOf(old(m.modelNodes)), LinksOf(m.modelNodes))
      invariant forall i | 0 <= i < |pool| :: Usable(t, m, pool[i])
      invariant AllByRef(calls) && LinkedUp(t, old(m.modelNodes)) ==> LinkedUp(t, m.modelNodes)
    {
      var more := Next(t, m, outside, pool, calls, answers, LinksOf(old(m.modelNodes)));
      answers, pool := answers + [more], pool + more;
    }
  }

  /**
   In every run the cache stays valid; each call answers what it asks for; one native
   node is only ever answered with one wrapper object, the one cached at the end; and
   the links of the cached wrappers are those of the run of the same lookups on values.
   Runs of reference lookups keep every wrapper's parent the cached wrapper of the
   native parent.
   */
  method Replay(t: Native, m: IedModel, outside: seq<ModelNode>, calls: seq<Call>)
    returns (answers: seq<seq<ModelNode>>, ghost ops: seq<Lookup>)
    requires t.WellFormed() && m.Valid(t)
    requires forall i | 0 <= i < |outside| :: Usable(t, m, outside[i])
    requires forall i | 0 <= i < |calls| && calls[i].ByRef? :: calls[i].p in t.kind
    modifies m
    ensures m.Grows(t)
    ensures |answers| == |calls| && Answered(t, outside, calls, answers)
    ensures AllCached(m, answers) && OneWrapperEach(answers)
    ensures ops == AllMade(outside, calls, answers) && (AllByRef(calls) ==> ops == References(calls))
    ensures AllPossible(t, ops) && LinksOf(m.modelNodes) == Run(t, LinksOf(old(m.modelNodes)), ops)
    ensures AllByRef(calls) && LinkedUp(t, old(m.modelNodes)) ==> LinkedUp(t, m.modelNodes)
  {
    answers := RunAll(t, m, outside, calls);
    ops := AllMade(outside, calls, answers);
    if AllByRef(calls) { ReferencesMade(outside, calls, answers); }
    CachedAreOne(m, answers);
  }
}
