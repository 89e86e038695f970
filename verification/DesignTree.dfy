/** The linked tree of declared objects (`DesignNode` in `_node.py`, `_attach` in `_cursor.py`). */
module DesignTree {
  import opened Text
  import opened Dn
  import R = Resolver

  class DesignNode {
    const cls: string
    const rn: string
    const parent: DesignNode?
    ghost const depth: nat
    var attrs: map<string, string>
    var children: seq<DesignNode>

    /** The parent chain ends; a child records the node it hangs from. */
    ghost predicate Chained()
      decreases depth
    {
      if parent == null then depth == 0 else parent.depth + 1 == depth && parent.Chained()
    }

    /** Each child hangs from this node, and no two children share class and RN. */
    ghost predicate Valid()
      reads this
    {
      && Chained()
      && (forall c :: c in children ==> c.parent == this && c.depth == depth + 1)
      && forall i, j :: 0 <= i < j < |children| ==> children[i].cls != children[j].cls || children[i].rn != children[j].rn
    }

    constructor (cls: string, rn: string, attrs: map<string, string>, parent: DesignNode?)
      requires parent != null ==> parent.Chained()
      ensures Valid() && children == [] && this.attrs == attrs
      ensures this.cls == cls && this.rn == rn && this.parent == parent
      ensures depth == if parent == null then 0 else parent.depth + 1
    {
      this.cls, this.rn, this.attrs, this.parent := cls, rn, attrs, parent;
      this.depth := if parent == null then 0 else parent.depth + 1;
      children := [];
    }

    /** The RNs from the root down: the identity the rest of the model works on. */
    ghost function Path(): (p: R.Path)
      requires Chained()
      ensures |p| == depth + 1 && p[|p| - 1] == rn
      decreases depth
    {
      if parent == null then [rn] else parent.Path() + [rn]
    }

    ghost function Top(): DesignNode
      requires Chained()
      decreases depth
    {
      if parent == null then this else parent.Top()
    }

    /** The node, then each ancestor up to the root. */
    ghost function Chain(): (c: seq<DesignNode>)
      requires Chained()
      ensures |c| == depth + 1
      decreases depth
    {
      [this] + if parent == null then [] else parent.Chain()
    }

    /** The nodes of the chain sit at the ancestors of its path. */
    lemma {:induction false} ChainPaths()
      requires Chained()
      ensures |Chain()| == |R.AncestorsAndSelf(Path())|
      ensures forall i :: 0 <= i < |Chain()| ==> Chain()[i].Chained() && Chain()[i].Path() == R.AncestorsAndSelf(Path())[i]
      ensures Chain()[|Chain()| - 1] == Top()
      decreases depth
    {
      R.AncestorsAt(Path());
      if parent != null {
        parent.ChainPaths();
        assert Path()[..|Path()| - 1] == parent.Path();
      }
    }

    /** `ancestors_and_self`. */
    method AncestorsAndSelf() returns (chain: seq<DesignNode>)
      requires Chained()
      ensures chain == Chain()
    {
      chain := [];
      var node: DesignNode? := this;
      while node != null
        invariant node != null ==> node.Chained()
        invariant chain + (if node == null then [] else node.Chain()) == Chain()
        decreases if node == null then 0 else node.depth + 1
      {
        ghost var rest := if node.parent == null then [] else node.parent.Chain();
        assert node.Chain() == [node] + rest;
        assert (chain + [node]) + rest == chain + ([node] + rest);
        hide Chain;
        chain := chain + [node];
        node := node.parent;
      }
    }

    /** `root`. */
    method Root() returns (top: DesignNode)
      requires Chained()
      ensures top == Top() && top.parent == null
    {
      top := this;
      while top.parent != null
        invariant top.Chained() && top.Top() == Top()
        decreases top.depth
      {
        top := top.parent;
      }
    }

    /** The RN of the i-th node of the chain. */
    lemma ChainRn(i: nat)
      requires Chained() && i <= depth
      ensures Chain()[i].rn == Path()[depth - i]
    {
      ChainPaths();
      R.AncestorsAt(Path());
      hide Chain, Path;
      assert Chain()[i].Path() == Path()[..depth + 1 - i];
    }

    /** `dn`: the RNs of the chain, joined from the root down. */
    method Dn() returns (dn: string)
      requires Chained()
      ensures dn == JoinDn(Path())
    {
      var chain := AncestorsAndSelf();
      ghost var path := Path();
      var segments: seq<string> := [];
      for i := 0 to |chain|
        invariant segments == path[|path| - i..]
      {
        ChainRn(i);
        hide Chain, Path;
        segments := [chain[i].rn] + segments;
      }
      assert path[0..] == path;
      dn := Join(segments, "/");
    }

    /** `_attach`: a child is refused for its class, its attributes or a twin, in that order, or appended. */
    method Attach(models: Models, cls: string, rn: string, attrs: map<string, string>) returns (r: AttachResult)
      requires Valid()
      modifies this`children
      ensures Valid()
      ensures r == NotContained <==> !models.mayContain(this.cls, cls)
      ensures r == UnknownAttribute <==> models.mayContain(this.cls, cls) && !(attrs.Keys <= models.fields(cls))
      ensures r == Duplicate <==>
                models.mayContain(this.cls, cls) && attrs.Keys <= models.fields(cls) && exists c :: c in old(children) && c.cls == cls && c.rn == rn
      ensures !r.Attached? ==> children == old(children)
      ensures r.Attached? ==>
                fresh(r.child) && r.child.Valid() && children == old(children) + [r.child] && r.child.cls == cls && r.child.rn == rn &&
                r.child.attrs == attrs && r.child.children == [] && r.child.Path() == Path() + [rn]
    {
      if !models.mayContain(this.cls, cls) { return NotContained; }
      if !(attrs.Keys <= models.fields(cls)) { return UnknownAttribute; }
      for i := 0 to |children|
        invariant forall k :: 0 <= k < i ==> children[k].cls != cls || children[k].rn != rn
      {
        if children[i].cls == cls && children[i].rn == rn {
          assert children[i] in children;
          return Duplicate;
        }
      }
      var child := new DesignNode(cls, rn, attrs, this);
      children := children + [child];
      r := Attached(child);
    }
  }

  /** The containment the models allow, and the attribute names of a class. */
  datatype Models = Models(mayContain: (string, string) -> bool, fields: string -> set<string>)

  datatype AttachResult = NotContained | UnknownAttribute | Duplicate | Attached(child: DesignNode)

  /** The DN of a child is the DN of its parent, a slash and its RN. */
  lemma ChildDn(parent: DesignNode, child: DesignNode)
    requires child.Chained() && child.parent == parent && parent.Chained()
    ensures JoinDn(child.Path()) == Child(JoinDn(parent.Path()), child.rn)
  {
    JoinConcat(parent.Path(), [child.rn], "/");
  }
}
