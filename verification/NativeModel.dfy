/**
 The native data model behind the managed server API, as seen through the calls
 the managed code makes: node type, parent, ordered children, functional
 constraint, lookup by (possibly dotted) name and the owner of a report control
 block.  Nodes are pointers; 0 is the null pointer.
 */
module NativeModel {

  type Ptr = int
  const NULL: Ptr := 0

  // Values of ModelNode_getType; every other value is a plain model node.
  const LOGICAL_DEVICE := 0
  const LOGICAL_NODE := 1
  const DATA_OBJECT := 2
  const DATA_ATTRIBUTE := 3

  /** `depth` is a witness that following parents ends: it orders every node after its parent. */
  datatype Native = Native(
    kind: map<Ptr, int>,
    parent: map<Ptr, Ptr>,
    children: map<Ptr, seq<Ptr>>,
    fc: map<Ptr, int>,
    named: map<(Ptr, string), Ptr>,
    rcbOwner: map<Ptr, Ptr>,
    depth: map<Ptr, nat>)
  {
    /** The parent of a logical device is the model itself, so it is never followed. */
    predicate HasParent(p: Ptr)
      requires p in kind && p in parent
    {
      kind[p] != LOGICAL_DEVICE && parent[p] != NULL
    }

    ghost predicate Listed(p: Ptr) {
      p in parent && parent[p] in children && p in children[parent[p]]
    }

    ghost predicate IsForest() {
      && kind.Keys == parent.Keys == children.Keys == fc.Keys == depth.Keys
      && NULL !in kind
      && (forall p {:trigger HasParent(p)} | p in kind && HasParent(p) ::
           parent[p] in kind && depth[parent[p]] < depth[p])
      && (forall p {:trigger Listed(p)} | p in kind && HasParent(p) :: Listed(p))
      && (forall p, i {:trigger IsChild(p, i)} | p in kind && 0 <= i < |children[p]| :: IsChild(p, i))
      && (forall p {:trigger NoRepeats(p)} | p in kind :: NoRepeats(p))
    }

    ghost predicate IsChild(p: Ptr, i: nat)
      requires p in children && i < |children[p]|
    {
      var c := children[p][i];
      c in kind && c in parent && HasParent(c) && parent[c] == p
    }

    ghost predicate NoRepeats(p: Ptr)
      requires p in children
    {
      forall i, j | 0 <= i < j < |children[p]| :: children[p][i] != children[p][j]
    }

    /** `p` lies properly below `a`. */
    ghost predicate Below(a: Ptr, p: Ptr)
      requires IsForest() && p in kind
      ensures Below(a, p) ==> a in kind && depth[a] < depth[p] && HasParent(p)
      decreases depth[p]
    {
      HasParent(p) && (parent[p] == a || Below(a, parent[p]))
    }

    /** Following parents from `p` ends at a logical device. */
    ghost predicate Rooted(p: Ptr)
      requires IsForest() && p in kind
      decreases depth[p]
    {
      kind[p] == LOGICAL_DEVICE || (HasParent(p) && Rooted(parent[p]))
    }

    /**
     A name, dotted or not, leads to a node below the one it is asked of; a report control block
     belongs to a logical node.
     */
    ghost predicate WellFormed() {
      && IsForest()
      && (forall key | key in named && named[key] != NULL :: named[key] in kind && Below(key.0, named[key]))
      && (forall r | r in rcbOwner && rcbOwner[r] != NULL :: rcbOwner[r] in kind && kind[rcbOwner[r]] == LOGICAL_NODE)
    }

    function ChildNamed(p: Ptr, name: string): Ptr {
      if (p, name) in named then named[(p, name)] else NULL
    }

    lemma ChildIsBelow(p: Ptr, i: nat)
      requires IsForest() && p in kind && i < |children[p]|
      ensures children[p][i] in kind && HasParent(children[p][i]) && parent[children[p][i]] == p &&
                Below(p, children[p][i])
    {
      assert IsChild(p, i);
    }

    lemma {:induction false} BelowTransitive(a: Ptr, b: Ptr, p: Ptr)
      requires IsForest() && p in kind
      requires b in kind && Below(a, b) && Below(b, p)
      ensures Below(a, p)
      decreases depth[p]
    {
      if parent[p] != b {
        BelowTransitive(a, b, parent[p]);
      }
    }

    lemma {:induction false} RootedBelow(a: Ptr, p: Ptr)
      requires IsForest() && p in kind && Below(a, p)
      ensures Rooted(a) <==> Rooted(p)
      decreases depth[p]
    {
      if parent[p] != a {
        RootedBelow(a, parent[p]);
      }
    }

    /** Of two nodes above `p`, one is above the other. */
    lemma {:induction false} AncestorsAreLinear(a: Ptr, b: Ptr, p: Ptr)
      requires IsForest() && p in kind
      requires Below(a, p) && Below(b, p)
      ensures a == b || Below(a, b) || Below(b, a)
      decreases depth[p]
    {
      if parent[p] != a && parent[p] != b {
        AncestorsAreLinear(a, b, parent[p]);
      }
    }
  }
}
