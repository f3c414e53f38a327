/**
 Which native nodes a recursive write-access registration is to cover, as sets over
 the native tree, and how these sets split over the children of a node.
 */
module WriteAccessSpec {
  import opened NativeModel

  /** `q` is `p` or is reached from it through nodes of one kind only. */
  ghost predicate Through(t: Native, kind: int, p: Ptr, q: Ptr)
    requires t.IsForest() && q in t.kind
    decreases t.depth[q]
  {
    q == p || (t.HasParent(q) && t.kind[q] == kind && Through(t, kind, p, t.parent[q]))
  }

  /** `q` is a data attribute at or below one with constraint `fc` that sits in a data object under `p`. */
  ghost predicate Covered(t: Native, p: Ptr, fc: int, q: Ptr)
    requires t.IsForest() && q in t.kind
    decreases t.depth[q]
  {
    && t.HasParent(q) && t.kind[q] == DATA_ATTRIBUTE
    && ((t.fc[q] == fc && Through(t, DATA_OBJECT, p, t.parent[q])) || Covered(t, p, fc, t.parent[q]))
  }

  ghost function AttributeTarget(t: Native, p: Ptr): set<Ptr>
    requires t.IsForest()
  {
    set q | q in t.kind && Through(t, DATA_ATTRIBUTE, p, q)
  }

  ghost function ObjectTarget(t: Native, p: Ptr, fc: int): set<Ptr>
    requires t.IsForest()
  {
    set q | q in t.kind && Covered(t, p, fc, q)
  }

  ghost function Subtree(t: Native, p: Ptr): set<Ptr>
    requires t.IsForest()
  {
    set q | q in t.kind && (q == p || t.Below(p, q))
  }

  /**
   `q` is at or below an attribute with constraint `fc` that sits in a data object under `p`: what
   the native server goes through, which asks no inner node for its type.
   */
  ghost predicate Reached(t: Native, p: Ptr, fc: int, q: Ptr)
    requires t.IsForest() && q in t.kind
    decreases t.depth[q]
  {
    && t.HasParent(q)
    && ((t.kind[q] == DATA_ATTRIBUTE && t.fc[q] == fc && Through(t, DATA_OBJECT, p, t.parent[q])) ||
         Reached(t, p, fc, t.parent[q]))
  }

  ghost function NativeTarget(t: Native, p: Ptr, fc: int): set<Ptr>
    requires t.IsForest()
  {
    set q | q in t.kind && Reached(t, p, fc, q)
  }

  /**
   A registration is made for an attribute with all its parts, or for an object and one functional
   constraint, in the managed table or by the native server.
   */
  datatype Scope = OfAttribute | OfObject(fc: int) | NativeAttribute | NativeObject(fc: int)

  /** What one child contributes to its parent's target. */
  ghost function ChildTarget(t: Native, scope: Scope, c: Ptr): set<Ptr>
    requires t.IsForest()
  {
    if c !in t.kind then {}
    else match scope
    case OfAttribute => if t.kind[c] == DATA_ATTRIBUTE then AttributeTarget(t, c) else {}
    case OfObject(fc) =>
      if t.kind[c] == DATA_ATTRIBUTE && t.fc[c] == fc then AttributeTarget(t, c)
      else if t.kind[c] == DATA_OBJECT then ObjectTarget(t, c, fc)
      else {}
    case NativeAttribute => Subtree(t, c)
    case NativeObject(fc) =>
      if t.kind[c] == DATA_ATTRIBUTE && t.fc[c] == fc then Subtree(t, c)
      else if t.kind[c] == DATA_OBJECT then NativeTarget(t, c, fc)
      else {}
  }

  ghost predicate CoveredByFirst(t: Native, scope: Scope, p: Ptr, n: nat, q: Ptr)
    requires t.IsForest() && p in t.kind && n <= |t.children[p]|
  {
    exists i :: 0 <= i < n && q in ChildTarget(t, scope, t.children[p][i])
  }

  /** The targets of the first `n` children of `p` together. */
  ghost function FirstChildren(t: Native, scope: Scope, p: Ptr, n: nat): set<Ptr>
    requires t.IsForest() && p in t.kind && n <= |t.children[p]|
  {
    set q | q in t.kind && CoveredByFirst(t, scope, p, n, q)
  }

  ghost function AllChildren(t: Native, scope: Scope, p: Ptr): set<Ptr>
    requires t.IsForest() && p in t.kind
  {
    FirstChildren(t, scope, p, |t.children[p]|)
  }

  lemma {:induction false} ThroughIsBelow(t: Native, kind: int, p: Ptr, q: Ptr)
    requires t.IsForest() && q in t.kind && Through(t, kind, p, q)
    ensures q == p || t.Below(p, q)
    decreases t.depth[q]
  {
    if q != p { ThroughIsBelow(t, kind, p, t.parent[q]); }
  }

  lemma {:induction false} CoveredIsBelow(t: Native, p: Ptr, fc: int, q: Ptr)
    requires t.IsForest() && q in t.kind && Covered(t, p, fc, q)
    ensures t.Below(p, q)
    decreases t.depth[q]
  {
    if t.fc[q] == fc && Through(t, DATA_OBJECT, p, t.parent[q]) {
      ThroughIsBelow(t, DATA_OBJECT, p, t.parent[q]);
    } else {
      CoveredIsBelow(t, p, fc, t.parent[q]);
    }
  }

  lemma {:induction false} ReachedIsBelow(t: Native, p: Ptr, fc: int, q: Ptr)
    requires t.IsForest() && q in t.kind && Reached(t, p, fc, q)
    ensures t.Below(p, q)
    decreases t.depth[q]
  {
    if t.kind[q] == DATA_ATTRIBUTE && t.fc[q] == fc && Through(t, DATA_OBJECT, p, t.parent[q]) {
      ThroughIsBelow(t, DATA_OBJECT, p, t.parent[q]);
    } else {
      ReachedIsBelow(t, p, fc, t.parent[q]);
    }
  }

  lemma ChildTargetInSubtree(t: Native, scope: Scope, c: Ptr)
    requires t.IsForest() && c in t.kind
    ensures ChildTarget(t, scope, c) <= Subtree(t, c)
  {
    forall q | q in ChildTarget(t, scope, c) ensures q in Subtree(t, c) {
      match scope
      case OfAttribute => ThroughIsBelow(t, DATA_ATTRIBUTE, c, q);
      case OfObject(fc) =>
        if t.kind[c] == DATA_ATTRIBUTE {
          ThroughIsBelow(t, DATA_ATTRIBUTE, c, q);
        } else {
          CoveredIsBelow(t, c, fc, q);
        }
      case NativeAttribute =>
      case NativeObject(fc) => if t.kind[c] == DATA_OBJECT { ReachedIsBelow(t, c, fc, q); }
    }
  }

  lemma ChildSubtree(t: Native, p: Ptr, i: nat)
    requires t.IsForest() && p in t.kind && i < |t.children[p]|
    ensures Subtree(t, t.children[p][i]) < Subtree(t, p)
  {
    var c := t.children[p][i];
    t.ChildIsBelow(p, i);
    forall q | q in Subtree(t, c) ensures q in Subtree(t, p) {
      if q != c { t.BelowTransitive(p, c, q); }
    }
    assert p in Subtree(t, p) && p !in Subtree(t, c);
  }

  /** Subtrees of different children do not meet. */
  lemma SiblingsDisjoint(t: Native, p: Ptr, i: nat, j: nat)
    requires t.IsForest() && p in t.kind && i < j < |t.children[p]|
    ensures Subtree(t, t.children[p][i]) !! Subtree(t, t.children[p][j])
  {
    var a, b := t.children[p][i], t.children[p][j];
    t.ChildIsBelow(p, i);
    t.ChildIsBelow(p, j);
    assert t.NoRepeats(p);
    forall q | q in Subtree(t, a) && q in Subtree(t, b) ensures false {
      if q != a && q != b { t.AncestorsAreLinear(a, b, q); }
    }
  }

  /** The next child's target is new: apart from `p` and from what the earlier children contributed. */
  lemma NextChildIsNew(t: Native, scope: Scope, p: Ptr, k: nat)
    requires t.IsForest() && p in t.kind && k < |t.children[p]|
    ensures ChildTarget(t, scope, t.children[p][k]) !! FirstChildren(t, scope, p, k) + {p}
    ensures FirstChildren(t, scope, p, k + 1) == FirstChildren(t, scope, p, k) + ChildTarget(t, scope, t.children[p][k])
  {
    var c := t.children[p][k];
    ChildSubtree(t, p, k);
    t.ChildIsBelow(p, k);
    ChildTargetInSubtree(t, scope, c);
    forall q | q in FirstChildren(t, scope, p, k) ensures q !in ChildTarget(t, scope, c) {
      var i :| 0 <= i < k && q in ChildTarget(t, scope, t.children[p][i]);
      ChildTargetInSubtree(t, scope, t.children[p][i]);
      SiblingsDisjoint(t, p, i, k);
    }
    assert forall q | q in ChildTarget(t, scope, c) :: CoveredByFirst(t, scope, p, k + 1, q);
    forall q | q in FirstChildren(t, scope, p, k + 1)
      ensures q in FirstChildren(t, scope, p, k) || q in ChildTarget(t, scope, c)
    {
      var i :| 0 <= i < k + 1 && q in ChildTarget(t, scope, t.children[p][i]);
      if i < k { assert CoveredByFirst(t, scope, p, k, q); }
    }
    forall q | q in FirstChildren(t, scope, p, k) ensures CoveredByFirst(t, scope, p, k + 1, q) {
      var i :| 0 <= i < k && q in ChildTarget(t, scope, t.children[p][i]);
      assert 0 <= i < k + 1;
    }
  }

  lemma FirstChildrenGrow(t: Native, scope: Scope, p: Ptr, k: nat)
    requires t.IsForest() && p in t.kind && k <= |t.children[p]|
    ensures FirstChildren(t, scope, p, k) <= AllChildren(t, scope, p)
  {
    forall q | q in FirstChildren(t, scope, p, k) ensures CoveredByFirst(t, scope, p, |t.children[p]|, q) {
      var i :| 0 <= i < k && q in ChildTarget(t, scope, t.children[p][i]);
      assert 0 <= i < |t.children[p]|;
    }
  }

  lemma {:induction false} ThroughChild(t: Native, kind: int, p: Ptr, q: Ptr) returns (i: nat)
    requires t.IsForest() && p in t.kind && q in t.kind && Through(t, kind, p, q) && q != p
    ensures i < |t.children[p]| && t.children[p][i] in t.kind
    ensures t.kind[t.children[p][i]] == kind && Through(t, kind, t.children[p][i], q)
    decreases t.depth[q]
  {
    if t.parent[q] == p {
      assert t.Listed(q);
      i :| 0 <= i < |t.children[p]| && t.children[p][i] == q;
    } else {
      i := ThroughChild(t, kind, p, t.parent[q]);
    }
  }

  lemma {:induction false} ThroughComposes(t: Native, kind: int, p: Ptr, c: Ptr, q: Ptr)
    requires t.IsForest() && c in t.kind && q in t.kind && Through(t, kind, p, c) && Through(t, kind, c, q)
    ensures Through(t, kind, p, q)
    decreases t.depth[q]
  {
    if q != c { ThroughComposes(t, kind, p, c, t.parent[q]); }
  }

  /** The attributes under an attribute are itself and those under its attribute children. */
  lemma AttributeTargetSplits(t: Native, p: Ptr)
    requires t.IsForest() && p in t.kind
    ensures AttributeTarget(t, p) == {p} + AllChildren(t, OfAttribute, p)
    ensures p !in AllChildren(t, OfAttribute, p)
  {
    if p in AllChildren(t, OfAttribute, p) {
      var i :| 0 <= i < |t.children[p]| && p in ChildTarget(t, OfAttribute, t.children[p][i]);
      NextChildIsNew(t, OfAttribute, p, i);
      assert false;
    }
    forall q | q in AttributeTarget(t, p) && q != p ensures q in FirstChildren(t, OfAttribute, p, |t.children[p]|) {
      var i := ThroughChild(t, DATA_ATTRIBUTE, p, q);
    }
    forall q | q in FirstChildren(t, OfAttribute, p, |t.children[p]|) ensures Through(t, DATA_ATTRIBUTE, p, q) {
      var i :| 0 <= i < |t.children[p]| && q in ChildTarget(t, OfAttribute, t.children[p][i]);
      t.ChildIsBelow(p, i);
      ThroughComposes(t, DATA_ATTRIBUTE, p, t.children[p][i], q);
    }
  }

  lemma {:induction false} CoveredChildOf(t: Native, p: Ptr, fc: int, q: Ptr) returns (i: nat)
    requires t.IsForest() && p in t.kind && q in t.kind && Covered(t, p, fc, q)
    ensures i < |t.children[p]| && q in ChildTarget(t, OfObject(fc), t.children[p][i])
    decreases t.depth[q]
  {
    if t.fc[q] == fc && Through(t, DATA_OBJECT, p, t.parent[q]) {
      if t.parent[q] == p {
        assert t.Listed(q);
        i :| 0 <= i < |t.children[p]| && t.children[p][i] == q;
      } else {
        i := ThroughChild(t, DATA_OBJECT, p, t.parent[q]);
      }
    } else {
      i := CoveredChildOf(t, p, fc, t.parent[q]);
    }
  }

  lemma {:induction false} CoveredThroughObject(t: Native, p: Ptr, c: Ptr, fc: int, q: Ptr)
    requires t.IsForest() && c in t.kind && q in t.kind
    requires t.HasParent(c) && t.parent[c] == p && t.kind[c] == DATA_OBJECT && Covered(t, c, fc, q)
    ensures Covered(t, p, fc, q)
    decreases t.depth[q]
  {
    if t.fc[q] == fc && Through(t, DATA_OBJECT, c, t.parent[q]) {
      ThroughComposes(t, DATA_OBJECT, p, c, t.parent[q]);
    } else {
      CoveredThroughObject(t, p, c, fc, t.parent[q]);
    }
  }

  lemma {:induction false} CoveredThroughAttribute(t: Native, p: Ptr, c: Ptr, fc: int, q: Ptr)
    requires t.IsForest() && p in t.kind && c in t.kind && q in t.kind
    requires Covered(t, p, fc, c) && Through(t, DATA_ATTRIBUTE, c, q)
    ensures Covered(t, p, fc, q)
    decreases t.depth[q]
  {
    if q != c { CoveredThroughAttribute(t, p, c, fc, t.parent[q]); }
  }

  /** What an object covers is what its attribute children with the constraint and its object children cover. */
  lemma ObjectTargetSplits(t: Native, p: Ptr, fc: int)
    requires t.IsForest() && p in t.kind
    ensures ObjectTarget(t, p, fc) == AllChildren(t, OfObject(fc), p)
  {
    forall q | q in ObjectTarget(t, p, fc) ensures q in FirstChildren(t, OfObject(fc), p, |t.children[p]|) {
      var i := CoveredChildOf(t, p, fc, q);
    }
    forall q | q in FirstChildren(t, OfObject(fc), p, |t.children[p]|) ensures Covered(t, p, fc, q) {
      var i :| 0 <= i < |t.children[p]| && q in ChildTarget(t, OfObject(fc), t.children[p][i]);
      var c := t.children[p][i];
      t.ChildIsBelow(p, i);
      if t.kind[c] == DATA_ATTRIBUTE {
        CoveredThroughAttribute(t, p, c, fc, q);
      } else {
        CoveredThroughObject(t, p, c, fc, q);
      }
    }
  }

  // ---- What the native server monitors ----

  lemma {:induction false} BelowChild(t: Native, p: Ptr, q: Ptr) returns (i: nat)
    requires t.IsForest() && p in t.kind && q in t.kind && t.Below(p, q)
    ensures i < |t.children[p]| && q in Subtree(t, t.children[p][i])
    decreases t.depth[q]
  {
    if t.parent[q] == p {
      assert t.Listed(q);
      i :| 0 <= i < |t.children[p]| && t.children[p][i] == q;
    } else {
      i := BelowChild(t, p, t.parent[q]);
    }
  }

  /** A subtree is its root and the subtrees of the root's children. */
  lemma SubtreeSplits(t: Native, p: Ptr)
    requires t.IsForest() && p in t.kind
    ensures Subtree(t, p) == {p} + AllChildren(t, NativeAttribute, p)
  {
    forall q | q in Subtree(t, p) && q != p ensures q in FirstChildren(t, NativeAttribute, p, |t.children[p]|) {
      var i := BelowChild(t, p, q);
      t.ChildIsBelow(p, i);
    }
    forall q | q in FirstChildren(t, NativeAttribute, p, |t.children[p]|) ensures q in Subtree(t, p) {
      var i :| 0 <= i < |t.children[p]| && q in ChildTarget(t, NativeAttribute, t.children[p][i]);
      ChildSubtree(t, p, i);
    }
  }

  lemma {:induction false} ReachedChildOf(t: Native, p: Ptr, fc: int, q: Ptr) returns (i: nat)
    requires t.IsForest() && p in t.kind && q in t.kind && Reached(t, p, fc, q)
    ensures i < |t.children[p]| && q in ChildTarget(t, NativeObject(fc), t.children[p][i])
    decreases t.depth[q]
  {
    if t.kind[q] == DATA_ATTRIBUTE && t.fc[q] == fc && Through(t, DATA_OBJECT, p, t.parent[q]) {
      if t.parent[q] == p {
        assert t.Listed(q);
        i :| 0 <= i < |t.children[p]| && t.children[p][i] == q;
      } else {
        i := ThroughChild(t, DATA_OBJECT, p, t.parent[q]);
      }
    } else {
      i := ReachedChildOf(t, p, fc, t.parent[q]);
    }
  }

  lemma {:induction false} ReachedThroughObject(t: Native, p: Ptr, c: Ptr, fc: int, q: Ptr)
    requires t.IsForest() && c in t.kind && q in t.kind
    requires t.HasParent(c) && t.parent[c] == p && t.kind[c] == DATA_OBJECT && Reached(t, c, fc, q)
    ensures Reached(t, p, fc, q)
    decreases t.depth[q]
  {
    if t.kind[q] == DATA_ATTRIBUTE && t.fc[q] == fc && Through(t, DATA_OBJECT, c, t.parent[q]) {
      ThroughComposes(t, DATA_OBJECT, p, c, t.parent[q]);
    } else {
      ReachedThroughObject(t, p, c, fc, t.parent[q]);
    }
  }

  lemma {:induction false} ReachedBelow(t: Native, p: Ptr, c: Ptr, fc: int, q: Ptr)
    requires t.IsForest() && c in t.kind && q in t.kind && Reached(t, p, fc, c) && q in Subtree(t, c)
    ensures Reached(t, p, fc, q)
    decreases t.depth[q]
  {
    if q != c { ReachedBelow(t, p, c, fc, t.parent[q]); }
  }

  /** What the native server reaches from an object is what it reaches from the object's children. */
  lemma NativeTargetSplits(t: Native, p: Ptr, fc: int)
    requires t.IsForest() && p in t.kind
    ensures NativeTarget(t, p, fc) == AllChildren(t, NativeObject(fc), p)
  {
    forall q | q in NativeTarget(t, p, fc) ensures q in FirstChildren(t, NativeObject(fc), p, |t.children[p]|) {
      var i := ReachedChildOf(t, p, fc, q);
    }
    forall q | q in FirstChildren(t, NativeObject(fc), p, |t.children[p]|) ensures Reached(t, p, fc, q) {
      var i :| 0 <= i < |t.children[p]| && q in ChildTarget(t, NativeObject(fc), t.children[p][i]);
      var c := t.children[p][i];
      t.ChildIsBelow(p, i);
      if t.kind[c] == DATA_ATTRIBUTE {
        ReachedBelow(t, p, c, fc, q);
      } else {
        ReachedThroughObject(t, p, c, fc, q);
      }
    }
  }

  /** Attributes hold attributes only, which the native server takes for granted. */
  ghost predicate AttributesHoldAttributes(t: Native)
    requires t.IsForest()
  {
    forall q | q in t.kind && t.HasParent(q) && t.kind[t.parent[q]] == DATA_ATTRIBUTE :: t.kind[q] == DATA_ATTRIBUTE
  }

  lemma {:induction false} BelowAttribute(t: Native, p: Ptr, q: Ptr)
    requires t.IsForest() && AttributesHoldAttributes(t) && p in t.kind && q in t.kind
    requires t.kind[p] == DATA_ATTRIBUTE && t.Below(p, q)
    ensures t.kind[q] == DATA_ATTRIBUTE && Through(t, DATA_ATTRIBUTE, p, q)
    decreases t.depth[q]
  {
    if t.parent[q] != p { BelowAttribute(t, p, t.parent[q]); }
  }

  lemma {:induction false} ReachedIsCovered(t: Native, p: Ptr, fc: int, q: Ptr)
    requires t.IsForest() && AttributesHoldAttributes(t) && q in t.kind && Reached(t, p, fc, q)
    ensures Covered(t, p, fc, q)
    decreases t.depth[q]
  {
    if !(t.kind[q] == DATA_ATTRIBUTE && t.fc[q] == fc && Through(t, DATA_OBJECT, p, t.parent[q])) {
      ReachedIsCovered(t, p, fc, t.parent[q]);
    }
  }

  lemma {:induction false} CoveredIsReached(t: Native, p: Ptr, fc: int, q: Ptr)
    requires t.IsForest() && q in t.kind && Covered(t, p, fc, q)
    ensures Reached(t, p, fc, q)
    decreases t.depth[q]
  {
    if !(t.fc[q] == fc && Through(t, DATA_OBJECT, p, t.parent[q])) {
      CoveredIsReached(t, p, fc, t.parent[q]);
    }
  }

  /** What the managed recursion covers, the native one reaches, whatever the tree. */
  lemma CoveredAreReached(t: Native, p: Ptr, fc: int)
    requires t.IsForest()
    ensures ObjectTarget(t, p, fc) <= NativeTarget(t, p, fc) && AttributeTarget(t, p) <= Subtree(t, p)
  {
    forall q | q in ObjectTarget(t, p, fc) ensures q in NativeTarget(t, p, fc) { CoveredIsReached(t, p, fc, q); }
    forall q | q in AttributeTarget(t, p) ensures q in Subtree(t, p) { ThroughIsBelow(t, DATA_ATTRIBUTE, p, q); }
  }

  /**
   The native server's own recursion over the tree monitors exactly the nodes that the managed
   recursion over the wrappers has entries for.
   */
  lemma MonitorsWhatIsCovered(t: Native, p: Ptr, fc: int)
    requires t.IsForest() && AttributesHoldAttributes(t) && p in t.kind
    ensures NativeTarget(t, p, fc) == ObjectTarget(t, p, fc)
    ensures t.kind[p] == DATA_ATTRIBUTE ==> Subtree(t, p) == AttributeTarget(t, p)
  {
    CoveredAreReached(t, p, fc);
    forall q | q in NativeTarget(t, p, fc) ensures q in ObjectTarget(t, p, fc) { ReachedIsCovered(t, p, fc, q); }
    if t.kind[p] == DATA_ATTRIBUTE {
      forall q | q in Subtree(t, p) && q != p ensures q in AttributeTarget(t, p) { BelowAttribute(t, p, q); }
    }
  }

  // ---- The simple set, and when it is what gets covered ----

  /** The documented meaning: the data attributes below `p` that have the functional constraint. */
  ghost function AttributesBelow(t: Native, p: Ptr, fc: int): set<Ptr>
    requires t.IsForest()
  {
    set q | q in t.kind && t.Below(p, q) && t.kind[q] == DATA_ATTRIBUTE && t.fc[q] == fc
  }

  /** Below `p` there are only data objects in data objects and data attributes in either. */
  ghost predicate Typed(t: Native, p: Ptr)
    requires t.IsForest()
  {
    forall q | q in t.kind && t.Below(p, q) ::
      || (t.kind[q] == DATA_OBJECT && (t.parent[q] == p || t.kind[t.parent[q]] == DATA_OBJECT))
      || (t.kind[q] == DATA_ATTRIBUTE && (t.parent[q] == p || t.kind[t.parent[q]] in {DATA_OBJECT, DATA_ATTRIBUTE}))
  }

  /** `q` is an attribute directly inside an attribute, both below `p`. */
  ghost predicate Nested(t: Native, p: Ptr, q: Ptr)
    requires t.IsForest() && q in t.kind
  {
    t.Below(p, q) && t.kind[q] == DATA_ATTRIBUTE && t.parent[q] != p && t.kind[t.parent[q]] == DATA_ATTRIBUTE
  }

  /** Below `p`, an attribute inside an attribute has the constraint `fc` exactly when the one around it has. */
  ghost predicate Inherits(t: Native, p: Ptr, fc: int)
    requires t.IsForest()
  {
    forall q | q in t.kind && Nested(t, p, q) :: t.fc[q] == fc <==> t.fc[t.parent[q]] == fc
  }

  lemma {:induction false} ObjectsBelowAreUnder(t: Native, p: Ptr, o: Ptr)
    requires t.IsForest() && o in t.kind && Typed(t, p) && t.Below(p, o) && t.kind[o] == DATA_OBJECT
    ensures Through(t, DATA_OBJECT, p, o)
    decreases t.depth[o]
  {
    if t.parent[o] != p { ObjectsBelowAreUnder(t, p, t.parent[o]); }
  }

  lemma {:induction false} AttributesBelowAreCovered(t: Native, p: Ptr, fc: int, q: Ptr)
    requires t.IsForest() && q in t.kind && Typed(t, p) && Inherits(t, p, fc)
    requires t.Below(p, q) && t.kind[q] == DATA_ATTRIBUTE && t.fc[q] == fc
    ensures Covered(t, p, fc, q)
    decreases t.depth[q]
  {
    if t.parent[q] != p {
      if t.kind[t.parent[q]] == DATA_OBJECT {
        ObjectsBelowAreUnder(t, p, t.parent[q]);
      } else {
        assert Nested(t, p, q);
        AttributesBelowAreCovered(t, p, fc, t.parent[q]);
      }
    }
  }

  lemma {:induction false} CoveredHasConstraint(t: Native, p: Ptr, fc: int, q: Ptr)
    requires t.IsForest() && p in t.kind && t.kind[p] == DATA_OBJECT && q in t.kind && Inherits(t, p, fc) &&
               Covered(t, p, fc, q)
    ensures t.fc[q] == fc
    decreases t.depth[q]
  {
    CoveredIsBelow(t, p, fc, q);
    if !(t.fc[q] == fc && Through(t, DATA_OBJECT, p, t.parent[q])) {
      CoveredHasConstraint(t, p, fc, t.parent[q]);
      assert Nested(t, p, q);
    }
  }

  /** An attribute inside an attribute is covered exactly with the one around it. */
  lemma NestedCoveredTogether(t: Native, p: Ptr, fc: int, q: Ptr)
    requires t.IsForest() && q in t.kind && Nested(t, p, q)
    ensures Covered(t, p, fc, q) <==> Covered(t, p, fc, t.parent[q])
  {
  }

  /** A registration covers exactly the documented set if and only if its constraint is inherited below the object. */
  lemma CoversAttributesBelowIffInherited(t: Native, p: Ptr, fc: int)
    requires t.IsForest() && p in t.kind && t.kind[p] == DATA_OBJECT && Typed(t, p)
    ensures ObjectTarget(t, p, fc) == AttributesBelow(t, p, fc) <==> Inherits(t, p, fc)
  {
    if Inherits(t, p, fc) {
      forall q | q in ObjectTarget(t, p, fc) ensures q in AttributesBelow(t, p, fc) {
        CoveredIsBelow(t, p, fc, q);
        CoveredHasConstraint(t, p, fc, q);
      }
      forall q | q in AttributesBelow(t, p, fc) ensures q in ObjectTarget(t, p, fc) {
        AttributesBelowAreCovered(t, p, fc, q);
      }
    }
    if ObjectTarget(t, p, fc) == AttributesBelow(t, p, fc) {
      forall q | q in t.kind && Nested(t, p, q) ensures t.fc[q] == fc <==> t.fc[t.parent[q]] == fc {
        NestedCoveredTogether(t, p, fc, q);
        assert q in ObjectTarget(t, p, fc) <==> q in AttributesBelow(t, p, fc);
        assert t.parent[q] in ObjectTarget(t, p, fc) <==> t.parent[q] in AttributesBelow(t, p, fc);
      }
    }
  }

  /**
   A logical device, a logical node, a data object, an attribute in it, and in that one an attribute
   with another constraint.
   */
  const MIXED: Native := Native(
    map[1 := LOGICAL_DEVICE, 2 := LOGICAL_NODE, 3 := DATA_OBJECT, 4 := DATA_ATTRIBUTE, 5 := DATA_ATTRIBUTE],
    map[1 := NULL, 2 := 1, 3 := 2, 4 := 3, 5 := 4],
    map[1 := [2], 2 := [3], 3 := [4], 4 := [5], 5 := []],
    map[1 := 0, 2 := 0, 3 := 0, 4 := 6, 5 := 7],
    map[], map[],
    map[1 := 0, 2 := 1, 3 := 2, 4 := 3, 5 := 4])

  lemma MixedNodes(p: Ptr)
    requires p in MIXED.kind
    ensures p == 1 || p == 2 || p == 3 || p == 4 || p == 5
  {
  }

  lemma MixedParents(p: Ptr)
    requires p in MIXED.kind && p in MIXED.parent && MIXED.HasParent(p)
    ensures MIXED.parent[p] in MIXED.kind && MIXED.depth[MIXED.parent[p]] < MIXED.depth[p] && MIXED.Listed(p)
  {
    MixedNodes(p);
    assert MIXED.children[1][0] == 2 && MIXED.children[2][0] == 3 && MIXED.children[3][0] == 4 &&
             MIXED.children[4][0] == 5;
  }

  lemma MixedChildren(p: Ptr)
    requires p in MIXED.kind
    ensures MIXED.NoRepeats(p)
    ensures forall i | 0 <= i < |MIXED.children[p]| :: MIXED.IsChild(p, i)
  {
    MixedNodes(p);
  }

  lemma MixedIsForest()
    ensures MIXED.IsForest()
  {
    forall p | p in MIXED.kind
      ensures MIXED.NoRepeats(p) && forall i | 0 <= i < |MIXED.children[p]| :: MIXED.IsChild(p, i)
    {
      MixedChildren(p);
    }
    forall p {:trigger MIXED.HasParent(p)} | p in MIXED.kind && MIXED.HasParent(p)
      ensures MIXED.parent[p] in MIXED.kind && MIXED.depth[MIXED.parent[p]] < MIXED.depth[p] && MIXED.Listed(p)
    {
      MixedParents(p);
    }
  }

  /**
   Without inheritance the documented set is missed, for an object inside a logical device:
   the inner attribute is covered for a constraint it does not have and is not covered for its own.
   */
  lemma MixedConstraintsAreCoveredTogether()
    ensures MIXED.WellFormed() && MIXED.Rooted(3) && MIXED.kind[3] == DATA_OBJECT && Typed(MIXED, 3)
    ensures 5 in ObjectTarget(MIXED, 3, 6) && 5 !in AttributesBelow(MIXED, 3, 6)
    ensures 5 !in ObjectTarget(MIXED, 3, 7) && 5 in AttributesBelow(MIXED, 3, 7)
  {
    MixedIsForest();
    assert MIXED.HasParent(4) && MIXED.HasParent(5);
    assert MIXED.Below(3, 4) && MIXED.Below(3, 5);
    assert Covered(MIXED, 3, 6, 4) && Covered(MIXED, 3, 6, 5);
    assert !Covered(MIXED, 3, 7, 4);
  }
}
