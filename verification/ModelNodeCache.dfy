/**
 The managed wrappers of native model nodes and the cache of them that an IED
 model keeps.  The C# class hierarchy is one class with a `cls` tag.  A wrapper's
 `self`, `parent` and logical-device model are set when it is made and never
 again, hence `const`.
 */
module ModelNodeCache {
  import opened NativeModel
  import opened CacheSpec

  datatype NodeClass = LogicalDevice | LogicalNode | DataObject | DataAttribute | PlainNode

  /** The wrapper class of each native type, and of no other. */
  predicate Represents(cls: NodeClass, kind: int) {
    && (cls == LogicalDevice <==> kind == 0) && (cls == LogicalNode <==> kind == 1)
    && (cls == DataObject <==> kind == 2) && (cls == DataAttribute <==> kind == 3)
    && (cls == PlainNode <==> kind < 0 || kind > 3)
  }

  function ClassOf(kind: int): (cls: NodeClass)
    ensures Represents(cls, kind)
  {
    if kind == LOGICAL_DEVICE then LogicalDevice
    else if kind == LOGICAL_NODE then LogicalNode
    else if kind == DATA_OBJECT then DataObject
    else if kind == DATA_ATTRIBUTE then DataAttribute
    else PlainNode
  }

  class ReportControlBlock {
    const self: Ptr
    const parent: ModelNode

    constructor (self: Ptr, parent: ModelNode)
      ensures this.self == self && this.parent == parent
    {
      this.self, this.parent := self, parent;
    }
  }

  class ModelNode {
    const self: Ptr
    const cls: NodeClass
    const parent: ModelNode?
    const iedModel: IedModel?
    var rcbs: map<Ptr, ReportControlBlock>

    constructor Device(self: Ptr, iedModel: IedModel?)
      ensures this.self == self && cls == LogicalDevice && parent == null && this.iedModel == iedModel
      ensures rcbs == map[]
    {
      this.self, cls, parent, this.iedModel, rcbs := self, LogicalDevice, null, iedModel, map[];
    }

    constructor Inner(self: Ptr, cls: NodeClass, parent: ModelNode?)
      ensures this.self == self && this.cls == cls && this.parent == parent && iedModel == null
      ensures rcbs == map[]
    {
      this.self, this.cls, this.parent, iedModel, rcbs := self, cls, parent, null, map[];
    }

    /** The wrapper fits its native node and hangs, wrapper by wrapper, below wrappers of native ancestors. */
    ghost predicate Linked(t: Native)
      requires t.WellFormed()
      decreases if self in t.depth then t.depth[self] else 0
    {
      && self in t.kind && Represents(cls, t.kind[self])
      && (cls == LogicalDevice ==> parent == null)
      && (parent != null ==> t.Below(parent.self, self) && parent.Linked(t))
    }

    function GetIedModel(ghost t: Native): (m: IedModel?)
      requires t.WellFormed() && Linked(t)
      ensures m != null ==> t.Rooted(self)
      decreases t.depth[self]
    {
      if cls == LogicalDevice then iedModel
      else if parent != null then
        assert parent.GetIedModel(t) != null ==> t.Rooted(self) by {
          t.RootedBelow(parent.self, self);
        }
        parent.GetIedModel(t)
      else null
    }

    /** The wrapper this wrapper is given for the native node `p` below it. */
    static method CreateInstance(t: Native, p: Ptr, parent: ModelNode) returns (node: ModelNode)
      requires t.WellFormed() && p in t.kind && t.HasParent(p)
      ensures fresh(node) && node.self == p && Represents(node.cls, t.kind[p]) && node.parent == parent
      ensures node.rcbs == map[]
    {
      node := new ModelNode.Inner(p, ClassOf(t.kind[p]), parent);
    }

    /** What a lookup through this wrapper promises for a node it returns. */
    ghost predicate Answers(t: Native, p: Ptr, node: ModelNode)
      requires t.WellFormed() && Linked(t)
      reads GetIedModel(t)
    {
      Suits(t, p, node) && (GetIedModel(t) != null ==> GetIedModel(t).Holds(p, node))
    }

    ghost predicate Suits(t: Native, p: Ptr, node: ModelNode)
      requires t.WellFormed() && Linked(t)
    {
      node.self == p && node.Linked(t) && node.GetIedModel(t) == GetIedModel(t)
    }

    /**
     The common part of GetChild and GetChildren: the cached wrapper of `p` or else a new one below
     this, cached when there is a model.
     */
    method CachedOrNew(t: Native, p: Ptr) returns (node: ModelNode)
      requires t.WellFormed() && Linked(t) && p in t.kind && t.Below(self, p)
      requires GetIedModel(t) != null ==> GetIedModel(t).Valid(t)
      modifies GetIedModel(t)
      ensures Answers(t, p, node)
      ensures GetIedModel(t) == null ==> fresh(node)
      ensures GetIedModel(t) != null ==>
                Extends(t, GetIedModel(t), old(GetIedModel(t).modelNodes), self, [p]) && GetIedModel(t).AddsFresh()
    {
      var m := GetIedModel(t);
      assert allocated(m);
      if m != null && p in m.modelNodes {
        node := m.modelNodes[p];
        assert Fits(m, t, p, node);
      } else {
        node := CreateInstance(t, p, this);
        if m != null {
          InnerFits(m, t, p, node);
          LinksAfterAdd(m.modelNodes, p, node);
          m.Add(p, node);
        }
      }
    }

    method GetChild(t: Native, name: string) returns (child: ModelNode?)
      requires t.WellFormed() && Linked(t)
      requires GetIedModel(t) != null ==> GetIedModel(t).Valid(t)
      modifies GetIedModel(t)
      ensures child == null <==> t.ChildNamed(self, name) == NULL
      ensures child != null ==> Answers(t, t.ChildNamed(self, name), child)
      ensures child != null ==> Represents(child.cls, t.kind[child.self])
      ensures child != null && GetIedModel(t) == null ==> fresh(child)
      ensures GetIedModel(t) != null ==>
                && GetIedModel(t).Grows(t)
                && LinksOf(GetIedModel(t).modelNodes) ==
                     CacheSpec.Step(t, LinksOf(old(GetIedModel(t).modelNodes)), Child(self, name))
    {
      var childPtr := t.ChildNamed(self, name);
      if childPtr == NULL { return null; }
      assert t.Below(self, childPtr);
      child := CachedOrNew(t, childPtr);
    }

    method GetChildren(t: Native) returns (nodes: seq<ModelNode>)
      requires t.WellFormed() && Linked(t)
      requires GetIedModel(t) != null ==> GetIedModel(t).Valid(t)
      modifies GetIedModel(t)
      ensures |nodes| == |t.children[self]|
      ensures forall i | 0 <= i < |nodes| :: Answers(t, t.children[self][i], nodes[i])
      ensures GetIedModel(t) == null ==> forall i | 0 <= i < |nodes| :: fresh(nodes[i])
      ensures GetIedModel(t) != null ==>
                && GetIedModel(t).Grows(t)
                && LinksOf(GetIedModel(t).modelNodes) ==
                     CacheSpec.Step(t, LinksOf(old(GetIedModel(t).modelNodes)), Children(self))
    {
      nodes := [];
      var m := GetIedModel(t);
      assert allocated(m);
      ghost var before := if m == null then map[] else m.modelNodes;
      var list := t.children[self];
      for k := 0 to |list|
        invariant |nodes| == k
        invariant m != null ==> Extends(t, m, before, self, list[..k]) && m.AddsFresh()
        invariant forall i | 0 <= i < k :: Answers(t, list[i], nodes[i])
        invariant m == null ==> forall i | 0 <= i < k :: fresh(nodes[i])
      {
        var p := list[k];
        t.ChildIsBelow(self, k);
        var node := CachedOrNew(t, p);
        if m != null {
          ByParentNext(LinksOf(before), self, list, k);
        }
        nodes := nodes + [node];
      }
      assert list[..|list|] == list;
    }

    ghost predicate RcbsFit()
      reads this
    {
      forall r | r in rcbs :: rcbs[r].self == r && rcbs[r].parent == this
    }

    /** Dictionary.Add on `rcbs`. */
    method AddRcb(rcb: ReportControlBlock)
      requires rcb.self !in rcbs
      modifies this`rcbs
      ensures rcbs == old(rcbs)[rcb.self := rcb]
    {
      rcbs := rcbs[rcb.self := rcb];
    }

    /** The cached report control block for a native one, or else a new one. */
    method GetRcb(rcb: Ptr) returns (block: ReportControlBlock)
      requires RcbsFit() && cls == LogicalNode
      modifies this`rcbs
      ensures RcbsFit() && rcbs == old(rcbs)[rcb := block]
      ensures rcb in old(rcbs) ==> block == old(rcbs)[rcb]
      ensures block.self == rcb && block.parent == this
    {
      if rcb in rcbs {
        block := rcbs[rcb];
      } else {
        block := new ReportControlBlock(rcb, this);
        AddRcb(block);
      }
    }
  }

  /** Entries are never replaced or removed. */
  ghost predicate Keeps<V>(before: map<Ptr, V>, after: map<Ptr, V>) {
    forall p | p in before :: p in after && after[p] == before[p]
  }

  /** Each wrapper stands for its key, fits the native node, and its parents lead to the model `m`. */
  ghost predicate AllFit(m: IedModel, t: Native, nodes: map<Ptr, ModelNode>)
    requires t.WellFormed()
  {
    forall p {:trigger Fits(m, t, p, nodes[p])} | p in nodes :: Fits(m, t, p, nodes[p])
  }

  ghost predicate Fits(m: IedModel, t: Native, p: Ptr, node: ModelNode)
    requires t.WellFormed()
  {
    node.self == p && node.Linked(t) && node.GetIedModel(t) == m
  }

  /** In a valid cache every wrapper has the class of its node's native type. */
  lemma CachedClasses(m: IedModel, t: Native, nodes: map<Ptr, ModelNode>, p: Ptr)
    requires t.WellFormed() && AllFit(m, t, nodes) && p in nodes
    ensures p in t.kind && nodes[p].self == p
    ensures nodes[p].cls == LogicalDevice <==> t.kind[p] == LOGICAL_DEVICE
    ensures nodes[p].cls == LogicalNode <==> t.kind[p] == LOGICAL_NODE
    ensures nodes[p].cls == DataObject <==> t.kind[p] == DATA_OBJECT
    ensures nodes[p].cls == DataAttribute <==> t.kind[p] == DATA_ATTRIBUTE
    ensures nodes[p].cls == PlainNode <==>
            t.kind[p] !in {LOGICAL_DEVICE, LOGICAL_NODE, DATA_OBJECT, DATA_ATTRIBUTE}
  {
    assert Fits(m, t, p, nodes[p]);
  }

  /** Objects, not only pointers: a cached wrapper's parent is the cached wrapper of the native parent. */
  ghost predicate LinkedUp(t: Native, nodes: map<Ptr, ModelNode>)
    requires t.WellFormed()
  {
    forall p {:trigger LinkedUpAt(t, nodes, p)} | p in nodes && p in t.kind :: LinkedUpAt(t, nodes, p)
  }

  ghost predicate LinkedUpAt(t: Native, nodes: map<Ptr, ModelNode>, p: Ptr)
    requires t.WellFormed() && p in nodes && p in t.kind
  {
    t.HasParent(p) ==> t.parent[p] in nodes && nodes[p].parent == nodes[t.parent[p]]
  }

  ghost function ParentRef(node: ModelNode): Ptr {
    if node.parent == null then NULL else node.parent.self
  }

  ghost function LinksOf(nodes: map<Ptr, ModelNode>): Links {
    map p | p in nodes :: ParentRef(nodes[p])
  }

  lemma FittingIsCoherent(m: IedModel, t: Native, nodes: map<Ptr, ModelNode>)
    requires t.WellFormed() && AllFit(m, t, nodes)
    ensures Coherent(t, LinksOf(nodes))
  {
    forall p | p in nodes
      ensures p in t.kind && t.Rooted(p)
      ensures t.kind[p] == LOGICAL_DEVICE ==> LinksOf(nodes)[p] == NULL
      ensures t.kind[p] != LOGICAL_DEVICE ==> t.Below(LinksOf(nodes)[p], p)
    {
      assert Fits(m, t, p, nodes[p]);
    }
  }

  lemma LinksAfterAdd(nodes: map<Ptr, ModelNode>, p: Ptr, node: ModelNode)
    requires p !in nodes
    ensures LinksOf(nodes[p := node]) == LinksOf(nodes)[p := ParentRef(node)]
  {
  }

  /** The model's cache is valid and grew from `before` by the nodes of `children` not cached yet, below `w`. */
  ghost predicate Extends(t: Native, m: IedModel, before: map<Ptr, ModelNode>, w: Ptr, children: seq<Ptr>)
    requires t.WellFormed()
    reads m
  {
    && m.Valid(t) && Keeps(before, m.modelNodes)
    && LinksOf(m.modelNodes) == ByParent(LinksOf(before), w, children)
  }

  /** A wrapper made under a wrapper of this model fits it. */
  lemma InnerFits(m: IedModel, t: Native, p: Ptr, node: ModelNode)
    requires t.WellFormed() && p in t.kind
    requires node.self == p && Represents(node.cls, t.kind[p]) && node.parent != null
    requires t.Below(node.parent.self, p) && node.parent.Linked(t) && node.parent.GetIedModel(t) == m
    ensures Fits(m, t, p, node)
  {
  }

  /**
   Adding `p` to `nodes`, which already hold what the lookup of its parent added to `start`,
   completes the lookup of `p`.
   */
  lemma AddCompletesLookup(m: IedModel, t: Native, start: map<Ptr, ModelNode>, nodes: map<Ptr, ModelNode>, p: Ptr,
                           node: ModelNode)
    requires t.WellFormed() && AllFit(m, t, nodes) && Fits(m, t, p, node) && p !in start
    requires t.HasParent(p) ==>
               && LinksOf(nodes) == ByReference(t, LinksOf(start), t.parent[p])
               && t.parent[p] in nodes && node.parent == nodes[t.parent[p]]
    requires !t.HasParent(p) ==> nodes == start && node.parent == null
    ensures p !in nodes
    ensures AllFit(m, t, nodes[p := node])
    ensures LinksOf(nodes[p := node]) == ByReference(t, LinksOf(start), p)
    ensures LinkedUp(t, nodes) ==> LinkedUp(t, nodes[p := node])
  {
    NotYetAdded(t, LinksOf(start), p);
    assert p !in LinksOf(nodes);
    LinksAfterAdd(nodes, p, node);
    if t.HasParent(p) {
      assert Fits(m, t, t.parent[p], nodes[t.parent[p]]);
    }
    if LinkedUp(t, nodes) {
      forall q | q in nodes[p := node] && q in t.kind ensures LinkedUpAt(t, nodes[p := node], q) {
        if q != p { assert LinkedUpAt(t, nodes, q); }
      }
    }
  }

  class IedModel {
    var modelNodes: map<Ptr, ModelNode>

    constructor ()
      ensures modelNodes == map[]
    {
      modelNodes := map[];
    }

    ghost function Wrappers(): set<ModelNode>
      reads this
    {
      set p | p in modelNodes :: modelNodes[p]
    }

    ghost predicate Holds(p: Ptr, node: ModelNode)
      reads this
    {
      p in modelNodes && modelNodes[p] == node
    }

    ghost predicate Valid(t: Native)
      requires t.WellFormed()
      reads this
    {
      AllFit(this, t, modelNodes)
    }

    /** Wrappers added to the cache are new and have no report control blocks yet. */
    twostate predicate AddsFresh()
      reads this, Wrappers()
    {
      forall p | p in modelNodes && p !in old(modelNodes) :: fresh(modelNodes[p]) && modelNodes[p].rcbs == map[]
    }

    /** What every operation does with the cache: it stays valid, keeps what it holds and adds new wrappers only. */
    twostate predicate Grows(t: Native)
      requires t.WellFormed()
      reads this, Wrappers()
    {
      Valid(t) && Keeps(old(modelNodes), modelNodes) && AddsFresh()
    }

    /** Dictionary.Add: a key that is already there would be an exception. */
    method Add(p: Ptr, node: ModelNode)
      requires p !in modelNodes
      modifies this`modelNodes
      ensures modelNodes == old(modelNodes)[p := node]
    {
      modelNodes := modelNodes[p := node];
    }

    /**
     What GetParent and GetModelNodeFromNodeRef do for a node that is not cached: make its wrapper,
     after its parent's, and cache it.
     */
    method MakeAndAdd(t: Native, p: Ptr) returns (node: ModelNode?)
      requires t.WellFormed() && Valid(t) && p in t.kind && p !in modelNodes
      modifies this`modelNodes
      ensures Grows(t)
      ensures node != null <==> t.Rooted(p)
      ensures node != null ==> Holds(p, node)
      ensures LinksOf(modelNodes) == ByReference(t, LinksOf(old(modelNodes)), p)
      ensures LinkedUp(t, old(modelNodes)) ==> LinkedUp(t, modelNodes)
      decreases t.depth[p], 1
    {
      node := null;
      if t.kind[p] == LOGICAL_DEVICE {
        node := new ModelNode.Device(p, this);
      } else {
        var parent := GetParent(t, p);
        if parent != null {
          assert Fits(this, t, t.parent[p], modelNodes[t.parent[p]]);
          node := new ModelNode.Inner(p, ClassOf(t.kind[p]), parent);
          InnerFits(this, t, p, node);
        }
      }
      if node != null {
        AddCompletesLookup(this, t, old(modelNodes), modelNodes, p, node);
        Add(p, node);
      }
    }

    method GetParent(t: Native, nodeRef: Ptr) returns (parent: ModelNode?)
      requires t.WellFormed() && Valid(t) && nodeRef in t.kind && t.kind[nodeRef] != LOGICAL_DEVICE
      modifies this`modelNodes
      ensures Grows(t)
      ensures parent != null <==> t.Rooted(nodeRef)
      ensures parent != null ==> Holds(t.parent[nodeRef], parent)
      ensures LinksOf(modelNodes) == if t.HasParent(nodeRef)
                then ByReference(t, LinksOf(old(modelNodes)), t.parent[nodeRef]) else LinksOf(old(modelNodes))
      ensures LinkedUp(t, old(modelNodes)) ==> LinkedUp(t, modelNodes)
      decreases t.depth[nodeRef], 0
    {
      parent := null;
      var parentRef := t.parent[nodeRef];
      if parentRef != NULL {
        assert t.HasParent(nodeRef);
        if parentRef in modelNodes {
          parent := modelNodes[parentRef];
          assert Fits(this, t, parentRef, parent);
        } else {
          parent := MakeAndAdd(t, parentRef);
        }
      }
    }

    method GetModelNodeFromNodeRef(t: Native, nodeRef: Ptr) returns (node: ModelNode?)
      requires t.WellFormed() && Valid(t) && nodeRef in t.kind
      modifies this`modelNodes
      ensures Grows(t)
      ensures node != null <==> t.Rooted(nodeRef)
      ensures node != null ==> Holds(nodeRef, node) && Represents(node.cls, t.kind[nodeRef])
      ensures LinksOf(modelNodes) == ByReference(t, LinksOf(old(modelNodes)), nodeRef)
      ensures LinkedUp(t, old(modelNodes)) ==> LinkedUp(t, modelNodes)
    {
      if nodeRef in modelNodes {
        node := modelNodes[nodeRef];
        assert Fits(this, t, nodeRef, node);
      } else {
        node := MakeAndAdd(t, nodeRef);
        if node != null { assert Fits(this, t, nodeRef, modelNodes[nodeRef]); }
      }
    }
  }
}
