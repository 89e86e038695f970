/** From a resolved design to push inputs: the strict envelope and the staged op list (`_compiler.py`). */
module Compiler {
  import opened Text
  import opened Dn
  import opened Store
  import opened Engine

  /** A declared object; `attrs` are the wire attributes its MO serialises, naming included. */
  datatype Node = Node(cls: string, rn: string, attrs: map<string, string>, children: seq<Node>)

  /** The relations of each node, keyed by the DN of the node. */
  type Extras = map<string, seq<Rs>>

  /** Curated classes: whole-subtree posts, and path-only classes that are never posted. */
  datatype Tables = Tables(atomic: set<string>, carrier: set<string>)

  function ExtrasOf(extras: Extras, dn: string): seq<Rs> {
    if dn in extras then extras[dn] else []
  }

  function RsEnv(rs: Rs): Env { Env(rs.cls, rs.rn, rs.attrs, []) }

  function RsEnvs(rs: seq<Rs>): seq<Env> {
    if rs == [] then [] else [RsEnv(rs[0])] + RsEnvs(rs[1..])
  }

  function CompileEnvelope(node: Node, dn: string, extras: Extras): Env
    decreases node, 0
  {
    Env(node.cls, node.rn, node.attrs, CompileChildren(node.children, dn, extras) + RsEnvs(ExtrasOf(extras, dn)))
  }

  function CompileChildren(nodes: seq<Node>, dn: string, extras: Extras): seq<Env>
    decreases nodes
  {
    if nodes == [] then []
    else [CompileEnvelope(nodes[0], Child(dn, nodes[0].rn), extras)] + CompileChildren(nodes[1..], dn, extras)
  }

  function NodeOp(node: Node, dn: string): Op {
    Op(dn, Post, Env(node.cls, node.rn, node.attrs, []))
  }

  function RsOps(rs: seq<Rs>, dn: string): seq<Op> {
    if rs == [] then [] else [Op(Child(dn, rs[0].rn), Post, RsEnv(rs[0]))] + RsOps(rs[1..], dn)
  }

  function NodeOps(t: Tables, node: Node, parentDn: string, extras: Extras): seq<Op>
    decreases node, 0
  {
    var dn := Child(parentDn, node.rn);
    if node.cls in t.atomic then [Op(dn, Post, CompileEnvelope(node, dn, extras))]
    else (if node.cls in t.carrier then [] else [NodeOp(node, dn)])
         + RsOps(ExtrasOf(extras, dn), dn)
         + NodesOps(t, node.children, dn, extras)
  }

  function NodesOps(t: Tables, nodes: seq<Node>, parentDn: string, extras: Extras): seq<Op>
    decreases nodes
  {
    if nodes == [] then [] else NodeOps(t, nodes[0], parentDn, extras) + NodesOps(t, nodes[1..], parentDn, extras)
  }

  function CompileOps(t: Tables, root: Node, extras: Extras): seq<Op> {
    NodesOps(t, root.children, "uni", extras)
  }

  lemma {:induction false} NodesOpsSnoc(t: Tables, nodes: seq<Node>, i: nat, dn: string, extras: Extras)
    requires i < |nodes|
    ensures NodesOps(t, nodes[..i + 1], dn, extras) == NodesOps(t, nodes[..i], dn, extras) + NodeOps(t, nodes[i], dn, extras)
  {
    if i == 0 {
      assert nodes[..1][1..] == [];
    } else {
      assert nodes[..i + 1][1..] == nodes[1..][..i] && nodes[..i][1..] == nodes[1..][..i - 1];
      NodesOpsSnoc(t, nodes[1..], i - 1, dn, extras);
    }
  }

  lemma {:induction false} RsOpsSnoc(rs: seq<Rs>, i: nat, dn: string)
    requires i < |rs|
    ensures RsOps(rs[..i + 1], dn) == RsOps(rs[..i], dn) + [Op(Child(dn, rs[i].rn), Post, RsEnv(rs[i]))]
  {
    if i == 0 {
      assert rs[..1][1..] == [];
    } else {
      assert rs[..i + 1][1..] == rs[1..][..i] && rs[..i][1..] == rs[1..][..i - 1];
      RsOpsSnoc(rs[1..], i - 1, dn);
    }
  }

  method AppendRs(rs: seq<Rs>, dn: string, before: seq<Op>) returns (ops: seq<Op>)
    ensures ops == before + RsOps(rs, dn)
  {
    ops := before;
    for i := 0 to |rs|
      invariant ops == before + RsOps(rs[..i], dn)
    {
      RsOpsSnoc(rs, i, dn);
      ops := ops + [Op(Child(dn, rs[i].rn), Post, RsEnv(rs[i]))];
    }
    assert rs[..|rs|] == rs;
  }

  /** The nested walk of `compile_ops`, appending to one list. */
  method WalkOps(t: Tables, node: Node, parentDn: string, extras: Extras, before: seq<Op>) returns (ops: seq<Op>)
    ensures ops == before + NodeOps(t, node, parentDn, extras)
    decreases node, 0
  {
    hide NodesOps, RsOps;
    ops := before;
    var dn := Child(parentDn, node.rn);
    if node.cls in t.atomic {
      return ops + [Op(dn, Post, CompileEnvelope(node, dn, extras))];
    }
    if node.cls !in t.carrier {
      ops := ops + [NodeOp(node, dn)];
    }
    ops := AppendRs(ExtrasOf(extras, dn), dn, ops);
    ops := WalkAll(t, node.children, dn, extras, ops);
  }

  method WalkAll(t: Tables, nodes: seq<Node>, dn: string, extras: Extras, before: seq<Op>) returns (ops: seq<Op>)
    ensures ops == before + NodesOps(t, nodes, dn, extras)
    decreases nodes
  {
    hide NodeOps;
    ops := before;
    for i := 0 to |nodes|
      invariant ops == before + NodesOps(t, nodes[..i], dn, extras)
    {
      NodesOpsSnoc(t, nodes, i, dn, extras);
      ops := WalkOps(t, nodes[i], dn, extras, ops);
    }
    assert nodes[..|nodes|] == nodes;
  }

  method ComputeOps(t: Tables, root: Node, extras: Extras) returns (ops: seq<Op>)
    ensures ops == CompileOps(t, root, extras)
  {
    ops := WalkAll(t, root.children, "uni", extras, []);
  }

  // ---- Well-formed designs

  /** A DN objects can be created under. */
  predicate GoodDn(dn: string) {
    Balanced(dn) && dn[|dn| - 1] != '/'
  }

  ghost predicate DistinctRns(es: seq<Env>) {
    forall i, j :: 0 <= i < j < |es| ==> es[i].rn != es[j].rn
  }

  /** Each RN is balanced with slashes only inside brackets; siblings have distinct RNs. */
  ghost predicate WfEnv(e: Env)
    decreases e
  {
    IsRn(e.rn) && DistinctRns(e.children) && forall c :: c in e.children ==> WfEnv(c)
  }

  lemma LastOfRn(rn: string)
    requires IsRn(rn)
    ensures rn[|rn| - 1] != '/'
  {
    var init := rn[..|rn| - 1];
    assert rn == init + [rn[|rn| - 1]];
    LevelConcat(init, [rn[|rn| - 1]]);
    AtomicConcat(init, [rn[|rn| - 1]], 0);
    assert Level([rn[|rn| - 1]]) == Delta(rn[|rn| - 1]);
  }

  lemma GoodChild(dn: string, rn: string)
    requires GoodDn(dn) && IsRn(rn)
    ensures GoodDn(Child(dn, rn)) && PostParent(Child(dn, rn), rn) == dn
    ensures ParentDn(Child(dn, rn)) == Some(dn) && RnOf(Child(dn, rn)) == rn
  {
    ChildParts(dn, rn);
    LastOfRn(rn);
    PostParentOfChild(dn, rn);
  }

  /** Nothing lies at or below two different children of one DN. */
  lemma SiblingsApart(dn: string, r: string, s: string, x: string)
    requires Balanced(dn) && IsRn(r) && IsRn(s) && r != s
    requires AtOrBelow(x, Child(dn, r))
    ensures !AtOrBelow(x, Child(dn, s))
  {
    ChildParts(dn, r);
    ChildParts(dn, s);
    BelowIsSegmentAncestry(Child(dn, r), x);
    BelowIsSegmentAncestry(Child(dn, s), x);
  }

  lemma {:induction false} WritesBelow(e: Env, parentDn: string)
    requires EnvDn(e, parentDn) != ""
    ensures forall w :: w in Writes(e, parentDn) ==> AtOrBelow(w.dn, EnvDn(e, parentDn))
    decreases e, 0
  {
    var dn := EnvDn(e, parentDn);
    AllWritesBelow(e.children, dn);
  }

  lemma {:induction false} AllWritesBelow(es: seq<Env>, dn: string)
    requires dn != ""
    ensures forall w :: w in WritesAll(es, dn) ==> Below(dn, w.dn)
    decreases es
  {
    if es != [] {
      WritesBelow(es[0], dn);
      AllWritesBelow(es[1..], dn);
      forall w | w in Writes(es[0], dn) ensures Below(dn, w.dn) {
        assert AtOrBelow(w.dn, Child(dn, es[0].rn));
      }
    }
  }

  lemma {:induction false} EnvWritesDistinct(e: Env, parentDn: string)
    requires WfEnv(e) && (parentDn == "" || GoodDn(parentDn))
    ensures DistinctDns(Writes(e, parentDn))
    decreases e, 0
  {
    var dn := EnvDn(e, parentDn);
    if parentDn == "" { LastOfRn(e.rn); } else { GoodChild(parentDn, e.rn); }
    AllWritesDistinct(e.children, dn);
    AllWritesBelow(e.children, dn);
    var rest := WritesAll(e.children, dn);
    forall j | 0 <= j < |rest| ensures rest[j].dn != dn { assert rest[j] in rest; }
  }

  lemma {:induction false} AllWritesDistinct(es: seq<Env>, dn: string)
    requires GoodDn(dn) && DistinctRns(es) && forall e :: e in es ==> WfEnv(e)
    ensures DistinctDns(WritesAll(es, dn))
    decreases es
  {
    if es != [] {
      var first, rest := Writes(es[0], dn), WritesAll(es[1..], dn);
      EnvWritesDistinct(es[0], dn);
      AllWritesDistinct(es[1..], dn);
      forall v, w | v in first && w in rest ensures v.dn != w.dn {
        var k := WriteBelongs(es[1..], dn, w);
        WritesBelow(es[0], dn);
        assert es[k + 1] in es && WfEnv(es[k + 1]);
        SiblingsApart(dn, es[0].rn, es[k + 1].rn, v.dn);
      }
      DistinctConcat(first, rest);
    }
  }

  lemma {:induction false} WriteBelongs(es: seq<Env>, dn: string, w: Write) returns (k: nat)
    requires dn != "" && w in WritesAll(es, dn)
    ensures k < |es| && AtOrBelow(w.dn, Child(dn, es[k].rn))
    decreases es
  {
    if w in Writes(es[0], dn) {
      WritesBelow(es[0], dn);
      k := 0;
    } else {
      k := WriteBelongs(es[1..], dn, w);
      k := k + 1;
    }
  }
}
