/**
 What the wrapper cache holds, on values: which native nodes have a cached wrapper
 and which native node the wrapper's `parent` wrapper stands for (NULL for a
 logical device).  Lookups are functions on such maps; runs are sequences of
 lookups.
 */
module CacheSpec {
  import opened NativeModel

  type Links = map<Ptr, Ptr>

  /** Lookup by reference, after a lookup of the parent: a node outside every logical device gets no wrapper. */
  ghost function ByReference(t: Native, links: Links, p: Ptr): Links
    requires t.IsForest() && p in t.kind
    decreases t.depth[p]
  {
    if p in links || !t.Rooted(p) then links
    else if t.HasParent(p) then ByReference(t, links, t.parent[p])[p := t.parent[p]]
    else links[p := NULL]
  }

  /** Lookup of children through a wrapper for `w`, one by one: what is cached already stays. */
  ghost function ByParent(links: Links, w: Ptr, children: seq<Ptr>): Links {
    if children == [] then links
    else
      var before := ByParent(links, w, children[..|children| - 1]);
      var c := children[|children| - 1];
      if c in before then before else before[c := w]
  }

  lemma ByParentNext(links: Links, w: Ptr, children: seq<Ptr>, k: nat)
    requires k < |children|
    ensures ByParent(links, w, children[..k + 1]) == ByParent(ByParent(links, w, children[..k]), w, [children[k]])
  {
    var c := children[k];
    assert children[..k + 1][..k] == children[..k];
    assert ByParent(ByParent(links, w, children[..k]), w, [c][..|[c]| - 1]) == ByParent(links, w, children[..k]);
  }

  /** The nodes from `p` upwards that come before the first cached one. */
  ghost function Missing(t: Native, cached: set<Ptr>, p: Ptr): (missing: set<Ptr>)
    requires t.IsForest() && p in t.kind
    ensures missing <= t.kind.Keys && forall q | q in missing :: t.depth[q] <= t.depth[p]
    ensures p !in cached ==> p in missing
    decreases t.depth[p]
  {
    if p in cached then {}
    else if t.HasParent(p) then {p} + Missing(t, cached, t.parent[p])
    else {p}
  }

  function Up(t: Native, p: Ptr): Ptr
    requires p in t.kind && p in t.parent
  {
    if t.HasParent(p) then t.parent[p] else NULL
  }

  /** Nodes linked the way the native tree links them. */
  ghost function Natively(t: Native, nodes: set<Ptr>): Links
    requires t.IsForest() && nodes <= t.kind.Keys
  {
    map q | q in nodes :: Up(t, q)
  }

  lemma NativelyOneMore(t: Native, links: Links, nodes: set<Ptr>, p: Ptr)
    requires t.IsForest() && nodes <= t.kind.Keys && p in t.kind && p !in links && p !in nodes
    ensures Natively(t, {p} + nodes) + links == (Natively(t, nodes) + links)[p := Up(t, p)]
  {
  }

  /** A reference lookup adds the missing nodes, each linked to its native parent, and nothing else. */
  lemma {:induction false} ByReferenceAdds(t: Native, links: Links, p: Ptr)
    requires t.IsForest() && p in t.kind
    ensures t.Rooted(p) ==> ByReference(t, links, p) == Natively(t, Missing(t, links.Keys, p)) + links
    ensures !t.Rooted(p) ==> ByReference(t, links, p) == links
    decreases t.depth[p]
  {
    if p !in links && t.Rooted(p) {
      if t.HasParent(p) {
        ByReferenceAdds(t, links, t.parent[p]);
        NativelyOneMore(t, links, Missing(t, links.Keys, t.parent[p]), p);
      } else {
        NativelyOneMore(t, links, {}, p);
      }
    }
  }

  /** A lookup through a wrapper adds the children not cached yet, all linked to the wrapper, and nothing else. */
  lemma {:induction false} ByParentAdds(links: Links, w: Ptr, children: seq<Ptr>)
    ensures ByParent(links, w, children) == (map c | c in children :: w) + links
  {
    if children != [] {
      var n := |children| - 1;
      ByParentAdds(links, w, children[..n]);
      assert children == children[..n] + [children[n]];
    }
  }

  /** Looking up the parent of `p` does not add `p`: this is what keeps Dictionary.Add from meeting its own key. */
  lemma NotYetAdded(t: Native, links: Links, p: Ptr)
    requires t.IsForest() && p in t.kind && p !in links
    ensures t.HasParent(p) ==> p !in ByReference(t, links, t.parent[p])
  {
    if t.HasParent(p) {
      ByReferenceAdds(t, links, t.parent[p]);
    }
  }

  datatype Lookup =
    | Reference(p: Ptr)
    | Child(w: Ptr, name: string)
    | Children(w: Ptr)

  /** Lookups through a wrapper are made on wrappers of nodes inside some logical device. */
  ghost predicate Possible(t: Native, op: Lookup)
    requires t.WellFormed()
  {
    match op
    case Reference(p) => p in t.kind
    case Child(w, _) => w in t.kind && t.Rooted(w)
    case Children(w) => w in t.kind && t.Rooted(w)
  }

  ghost function Step(t: Native, links: Links, op: Lookup): Links
    requires t.WellFormed() && Possible(t, op)
  {
    match op
    case Reference(p) => ByReference(t, links, p)
    case Child(w, name) =>
      var c := t.ChildNamed(w, name);
      if c == NULL then links else ByParent(links, w, [c])
    case Children(w) => ByParent(links, w, t.children[w])
  }

  ghost predicate AllPossible(t: Native, ops: seq<Lookup>)
    requires t.WellFormed()
  {
    forall i | 0 <= i < |ops| :: Possible(t, ops[i])
  }

  ghost function Run(t: Native, links: Links, ops: seq<Lookup>): Links
    requires t.WellFormed() && AllPossible(t, ops)
  {
    if ops == [] then links
    else Step(t, Run(t, links, ops[..|ops| - 1]), ops[|ops| - 1])
  }

  /** Every cached node belongs to a logical device and its wrapper hangs below an ancestor's. */
  ghost predicate Coherent(t: Native, links: Links)
    requires t.IsForest()
  {
    forall p | p in links ::
      && p in t.kind && t.Rooted(p)
      && (t.kind[p] == LOGICAL_DEVICE ==> links[p] == NULL)
      && (t.kind[p] != LOGICAL_DEVICE ==> t.Below(links[p], p))
  }

  /** The cache is closed under parents and links follow the native parents exactly. */
  ghost predicate LinksUp(t: Native, links: Links)
    requires t.IsForest()
  {
    forall p | p in links && p in t.kind && t.HasParent(p) :: links[p] == t.parent[p] && t.parent[p] in links
  }

  /** `Missing` without recursion: the nodes at or above `p` with no cached node at or between. */
  lemma {:induction false} MissingIsPathToCached(t: Native, cached: set<Ptr>, p: Ptr, q: Ptr)
    requires t.IsForest() && p in t.kind && q in t.kind
    ensures q in Missing(t, cached, p) <==>
            && (q == p || t.Below(q, p))
            && !exists x :: x in cached && (x == p || t.Below(x, p)) && (x == q || (x in t.kind && t.Below(q, x)))
    decreases t.depth[p]
  {
    if p in cached {
      assert q == p || t.Below(q, p) ==> p in cached;
    } else if t.HasParent(p) {
      MissingIsPathToCached(t, cached, t.parent[p], q);
      if q == p {
        forall x | x in cached && t.Below(x, p) ensures !(x in t.kind && t.Below(q, x)) {
          if t.Below(p, x) { t.BelowTransitive(x, p, x); }
        }
      }
    }
  }

  lemma MissingRooted(t: Native, cached: set<Ptr>, p: Ptr)
    requires t.IsForest() && p in t.kind && t.Rooted(p)
    ensures forall q | q in Missing(t, cached, p) :: t.Rooted(q)
    decreases t.depth[p]
  {
  }

  /** Every node missing above `p` has its parent missing or cached. */
  lemma {:induction false} MissingClosesUp(t: Native, cached: set<Ptr>, p: Ptr, q: Ptr)
    requires t.IsForest() && p in t.kind && q in Missing(t, cached, p) && t.HasParent(q)
    ensures t.parent[q] in Missing(t, cached, p) || t.parent[q] in cached
    decreases t.depth[p]
  {
    if q != p {
      MissingClosesUp(t, cached, t.parent[p], q);
    }
  }

  lemma ChildRooted(t: Native, w: Ptr, c: Ptr)
    requires t.IsForest() && w in t.kind && t.Rooted(w) && c in t.children[w]
    ensures c in t.kind && t.Below(w, c) && t.Rooted(c)
  {
    var i :| 0 <= i < |t.children[w]| && t.children[w][i] == c;
    t.ChildIsBelow(w, i);
  }

  lemma StepCoherent(t: Native, links: Links, op: Lookup)
    requires t.WellFormed() && Possible(t, op) && Coherent(t, links)
    ensures Coherent(t, Step(t, links, op))
  {
    match op
    case Reference(p) =>
      ByReferenceAdds(t, links, p);
      if t.Rooted(p) { MissingRooted(t, links.Keys, p); }
    case Child(w, name) =>
      var c := t.ChildNamed(w, name);
      if c != NULL {
        assert t.Below(w, c);
        t.RootedBelow(w, c);
        ByParentAdds(links, w, [c]);
      }
    case Children(w) =>
      forall c | c in t.children[w] ensures c in t.kind && t.Below(w, c) && t.Rooted(c) { ChildRooted(t, w, c); }
      ByParentAdds(links, w, t.children[w]);
  }

  lemma StepKeeps(t: Native, links: Links, op: Lookup)
    requires t.WellFormed() && Possible(t, op)
    ensures forall p | p in links :: p in Step(t, links, op) && Step(t, links, op)[p] == links[p]
  {
    match op
    case Reference(p) => ByReferenceAdds(t, links, p);
    case Child(w, name) => ByParentAdds(links, w, [t.ChildNamed(w, name)]);
    case Children(w) => ByParentAdds(links, w, t.children[w]);
  }

  /** Any interleaving of the three kinds of lookup keeps the cache coherent and keeps every link made before. */
  lemma {:induction false} RunCoherent(t: Native, links: Links, ops: seq<Lookup>)
    requires t.WellFormed() && AllPossible(t, ops) && Coherent(t, links)
    ensures Coherent(t, Run(t, links, ops))
    ensures forall p | p in links :: p in Run(t, links, ops) && Run(t, links, ops)[p] == links[p]
  {
    if ops != [] {
      var before := ops[..|ops| - 1];
      RunCoherent(t, links, before);
      StepCoherent(t, Run(t, links, before), ops[|ops| - 1]);
      StepKeeps(t, Run(t, links, before), ops[|ops| - 1]);
    }
  }

  /**
   A reference lookup finds a wrapper exactly for the nodes inside a logical device, whatever was
   looked up before.
   */
  lemma ReferenceAnswers(t: Native, links: Links, p: Ptr)
    requires t.WellFormed() && p in t.kind && Coherent(t, links)
    ensures p in ByReference(t, links, p) <==> t.Rooted(p)
  {
  }

  lemma StepLinksUp(t: Native, links: Links, p: Ptr)
    requires t.WellFormed() && p in t.kind && LinksUp(t, links)
    ensures LinksUp(t, ByReference(t, links, p))
  {
    var after := ByReference(t, links, p);
    ByReferenceAdds(t, links, p);
    forall q | q in after && q in t.kind && t.HasParent(q)
      ensures after[q] == t.parent[q] && t.parent[q] in after
    {
      if q !in links { MissingClosesUp(t, links.Keys, p, q); }
    }
  }

  /**
   Runs of reference lookups alone, from an empty cache, leave it closed under parents and linked
   like the native tree.
   */
  lemma {:induction false} ReferenceRunsLinkUp(t: Native, ops: seq<Lookup>)
    requires t.WellFormed() && AllPossible(t, ops)
    requires forall i | 0 <= i < |ops| :: ops[i].Reference?
    ensures LinksUp(t, Run(t, map[], ops))
  {
    if ops != [] {
      var before := ops[..|ops| - 1];
      ReferenceRunsLinkUp(t, before);
      StepLinksUp(t, Run(t, map[], before), ops[|ops| - 1].p);
    }
  }

  /**
   After runs of reference lookups alone, the cached nodes are exactly those at or above a node that
   was looked up.
   */
  lemma {:induction false} ReferenceRunKeys(t: Native, ops: seq<Lookup>, q: Ptr)
    requires t.WellFormed() && AllPossible(t, ops) && q in t.kind
    requires forall i | 0 <= i < |ops| :: ops[i].Reference?
    ensures q in Run(t, map[], ops) <==>
            exists i :: 0 <= i < |ops| && t.Rooted(ops[i].p) && (q == ops[i].p || t.Below(q, ops[i].p))
  {
    if ops != [] {
      var n := |ops| - 1;
      var before := ops[..n];
      var links := Run(t, map[], before);
      var p := ops[n].p;
      ReferenceRunKeys(t, before, q);
      ReferenceRunsLinkUp(t, before);
      ByReferenceAdds(t, links, p);
      MissingIsPathToCached(t, links.Keys, p, q);
      if t.Rooted(p) && (q == p || t.Below(q, p)) && q !in Missing(t, links.Keys, p) {
        var x :| x in links.Keys && (x == p || t.Below(x, p)) && (x == q || (x in t.kind && t.Below(q, x)));
        if x != q { AncestorsCached(t, links, x, q); }
      }
      assert forall i | 0 <= i < n :: ops[i] == before[i];
      assert ops[n].p == p;
    }
  }

  /**
   When a lookup through a wrapper keeps the links native: exactly when what it adds are direct
   children of a cached node.
   */
  lemma ByParentLinksUp(t: Native, links: Links, w: Ptr, children: seq<Ptr>)
    requires t.IsForest() && LinksUp(t, links)
    requires forall c | c in children :: c in t.kind && t.Below(w, c)
    ensures LinksUp(t, ByParent(links, w, children)) <==>
            forall c | c in children && c !in links :: t.parent[c] == w && w in links
  {
    var after := ByParent(links, w, children);
    ByParentAdds(links, w, children);
    assert w !in children;
    if LinksUp(t, after) {
      forall c | c in children && c !in links ensures t.parent[c] == w && w in links {
        assert c in after && t.HasParent(c);
      }
    }
  }

  lemma {:induction false} AncestorsCached(t: Native, links: Links, x: Ptr, q: Ptr)
    requires t.IsForest() && LinksUp(t, links) && x in links && x in t.kind && t.Below(q, x)
    ensures q in links
    decreases t.depth[x]
  {
    if t.parent[x] != q { AncestorsCached(t, links, t.parent[x], q); }
  }
}
