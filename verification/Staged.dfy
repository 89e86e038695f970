/** Staged pushes against the strict one: what a run of the pool leaves in the store. */
module Staged {
  import opened Text
  import opened Dn
  import opened Store
  import opened Engine
  import opened Agreement
  import opened WavePool
  import opened PoolTheorems
  import opened Compiler

  function OpWrites(op: Op): seq<Write> {
    Writes(op.payload, PostParent(op.dn, op.payload.rn))
  }

  function OpsWrites(ops: seq<Op>): seq<Write> {
    if ops == [] then [] else OpWrites(ops[0]) + OpsWrites(ops[1..])
  }

  lemma {:induction false} OpsWritesConcat(a: seq<Op>, b: seq<Op>)
    ensures OpsWrites(a + b) == OpsWrites(a) + OpsWrites(b)
  {
    if a == [] {
      assert a + b == b;
    } else {
      assert (a + b)[1..] == a[1..] + b;
      OpsWritesConcat(a[1..], b);
    }
  }

  /** The objects only the strict envelope writes: the path-only classes outside atomic subtrees. */
  function CarrierWrites(t: Tables, node: Node, parentDn: string): seq<Write>
    decreases node, 0
  {
    var dn := Child(parentDn, node.rn);
    if node.cls in t.atomic then []
    else (if node.cls in t.carrier then [Write(dn, node.cls, node.attrs)] else []) + CarriersWrites(t, node.children, dn)
  }

  function CarriersWrites(t: Tables, nodes: seq<Node>, parentDn: string): seq<Write>
    decreases nodes
  {
    if nodes == [] then [] else CarrierWrites(t, nodes[0], parentDn) + CarriersWrites(t, nodes[1..], parentDn)
  }

  // ---- One envelope writes what the ops and the carriers write

  lemma LeafOp(dn: string, e: Env)
    requires GoodDn(dn) && IsRn(e.rn)
    ensures OpWrites(Op(Child(dn, e.rn), Post, e)) == Writes(e, dn)
  {
    GoodChild(dn, e.rn);
  }

  lemma {:induction false} RsOpsWrites(rs: seq<Rs>, dn: string)
    requires GoodDn(dn) && forall r :: r in rs ==> IsRn(r.rn)
    ensures OpsWrites(RsOps(rs, dn)) == WritesAll(RsEnvs(rs), dn)
  {
    if rs != [] {
      LeafOp(dn, RsEnv(rs[0]));
      RsOpsWrites(rs[1..], dn);
    }
  }

  lemma EnvelopeRns(node: Node, dn: string, extras: Extras)
    requires WfEnv(CompileEnvelope(node, dn, extras))
    ensures IsRn(node.rn) && forall r :: r in ExtrasOf(extras, dn) ==> IsRn(r.rn)
    ensures forall e :: e in CompileChildren(node.children, dn, extras) ==> WfEnv(e)
  {
    var e := CompileEnvelope(node, dn, extras);
    var inner, rs := CompileChildren(node.children, dn, extras), ExtrasOf(extras, dn);
    forall r | r in rs ensures IsRn(r.rn) {
      RsEnvsMember(rs, r);
      assert RsEnv(r) in e.children;
    }
    forall c | c in inner ensures WfEnv(c) { assert c in e.children; }
  }

  lemma {:induction false} RsEnvsMember(rs: seq<Rs>, r: Rs)
    requires r in rs
    ensures RsEnv(r) in RsEnvs(rs)
  {
    if r != rs[0] { RsEnvsMember(rs[1..], r); }
  }

  ghost predicate SameWrites(all: seq<Write>, ops: seq<Write>, carriers: seq<Write>) {
    multiset(all) == multiset(ops) + multiset(carriers)
  }

  lemma SameWritesConcat(a: seq<Write>, b: seq<Write>, c: seq<Write>, x: seq<Write>, y: seq<Write>, z: seq<Write>)
    requires SameWrites(a, b, c) && SameWrites(x, y, z)
    ensures SameWrites(a + x, b + y, c + z)
  {
  }

  lemma {:induction false} NodeWrites(t: Tables, node: Node, parentDn: string, extras: Extras)
    requires GoodDn(parentDn) && WfEnv(CompileEnvelope(node, Child(parentDn, node.rn), extras))
    ensures SameWrites(Writes(CompileEnvelope(node, Child(parentDn, node.rn), extras), parentDn),
                       OpsWrites(NodeOps(t, node, parentDn, extras)), CarrierWrites(t, node, parentDn))
    decreases node, 0
  {
    var dn := Child(parentDn, node.rn);
    var e := CompileEnvelope(node, dn, extras);
    EnvelopeRns(node, dn, extras);
    GoodChild(parentDn, node.rn);
    if node.cls in t.atomic {
      LeafOp(parentDn, e);
      assert OpsWrites([Op(dn, Post, e)]) == OpWrites(Op(dn, Post, e)) + [];
    } else {
      NodesWrites(t, node.children, dn, extras);
      OpenNodeWrites(t, node, parentDn, extras);
    }
  }

  lemma OpenNodeWrites(t: Tables, node: Node, parentDn: string, extras: Extras)
    requires GoodDn(parentDn) && GoodDn(Child(parentDn, node.rn)) && node.cls !in t.atomic && IsRn(node.rn)
    requires forall r :: r in ExtrasOf(extras, Child(parentDn, node.rn)) ==> IsRn(r.rn)
    requires var dn := Child(parentDn, node.rn);
             SameWrites(WritesAll(CompileChildren(node.children, dn, extras), dn),
                        OpsWrites(NodesOps(t, node.children, dn, extras)), CarriersWrites(t, node.children, dn))
    ensures SameWrites(Writes(CompileEnvelope(node, Child(parentDn, node.rn), extras), parentDn),
                       OpsWrites(NodeOps(t, node, parentDn, extras)), CarrierWrites(t, node, parentDn))
  {
    var dn := Child(parentDn, node.rn);
    var own := Write(dn, node.cls, node.attrs);
    OpenNodeOps(t, node, parentDn, extras);
    RsOpsWrites(ExtrasOf(extras, dn), dn);
    WritesAllConcat(CompileChildren(node.children, dn, extras), RsEnvs(ExtrasOf(extras, dn)), dn);
    OwnWriteMoves(own, node.cls in t.carrier, WritesAll(CompileChildren(node.children, dn, extras), dn),
                  WritesAll(RsEnvs(ExtrasOf(extras, dn)), dn), OpsWrites(NodesOps(t, node.children, dn, extras)),
                  CarriersWrites(t, node.children, dn));
  }

  lemma OpenNodeOps(t: Tables, node: Node, parentDn: string, extras: Extras)
    requires GoodDn(parentDn) && node.cls !in t.atomic && IsRn(node.rn)
    ensures var dn := Child(parentDn, node.rn);
            OpsWrites(NodeOps(t, node, parentDn, extras)) ==
            (if node.cls in t.carrier then [] else [Write(dn, node.cls, node.attrs)])
            + OpsWrites(RsOps(ExtrasOf(extras, dn), dn)) + OpsWrites(NodesOps(t, node.children, dn, extras))
  {
    var dn := Child(parentDn, node.rn);
    var first := if node.cls in t.carrier then [] else [NodeOp(node, dn)];
    LeafOp(parentDn, Env(node.cls, node.rn, node.attrs, []));
    assert OpsWrites(first) == if node.cls in t.carrier then [] else [Write(dn, node.cls, node.attrs)];
    hide OpsWrites, RsOps, NodesOps;
    OpsWritesConcat(first + RsOps(ExtrasOf(extras, dn), dn), NodesOps(t, node.children, dn, extras));
    OpsWritesConcat(first, RsOps(ExtrasOf(extras, dn), dn));
  }

  lemma OwnWriteMoves(own: Write, carried: bool, inner: seq<Write>, rs: seq<Write>, ops: seq<Write>, carriers: seq<Write>)
    requires SameWrites(inner, ops, carriers)
    ensures SameWrites([own] + (inner + rs), (if carried then [] else [own]) + rs + ops, (if carried then [own] else []) + carriers)
  {
  }

  lemma {:induction false} NodesWrites(t: Tables, nodes: seq<Node>, dn: string, extras: Extras)
    requires GoodDn(dn) && forall e :: e in CompileChildren(nodes, dn, extras) ==> WfEnv(e)
    ensures SameWrites(WritesAll(CompileChildren(nodes, dn, extras), dn),
                       OpsWrites(NodesOps(t, nodes, dn, extras)), CarriersWrites(t, nodes, dn))
    decreases nodes
  {
    if nodes != [] {
      var e := CompileEnvelope(nodes[0], Child(dn, nodes[0].rn), extras);
      assert e in CompileChildren(nodes, dn, extras);
      assert CompileChildren(nodes, dn, extras)[1..] == CompileChildren(nodes[1..], dn, extras);
      NodeWrites(t, nodes[0], dn, extras);
      NodesWrites(t, nodes[1..], dn, extras);
      OpsWritesConcat(NodeOps(t, nodes[0], dn, extras), NodesOps(t, nodes[1..], dn, extras));
      SameWritesConcat(Writes(e, dn), OpsWrites(NodeOps(t, nodes[0], dn, extras)), CarrierWrites(t, nodes[0], dn),
                       WritesAll(CompileChildren(nodes[1..], dn, extras), dn),
                       OpsWrites(NodesOps(t, nodes[1..], dn, extras)), CarriersWrites(t, nodes[1..], dn));
    }
  }

  // ---- The strict post

  function StrictEnvelope(root: Node, extras: Extras): Env {
    CompileEnvelope(root, "uni", extras)
  }

  ghost predicate WfDesign(root: Node, extras: Extras) {
    root.rn == "uni" && WfEnv(StrictEnvelope(root, extras))
  }

  lemma UniIsGood()
    ensures IsRn("uni") && GoodDn("uni") && PostParent("uni", "uni") == ""
  {
    assert Level("uni") == Delta('u') + Level("ni") && Level("ni") == Delta('n') + Level("i");
    assert Atomic("i", 0) && Atomic("ni", 0);
    assert "uni"[0..] == "uni" && "uni"[..0] == "";
  }

  /** What strict writes and the staged ops do not: `uni`, the carriers, and the relations of the root. */
  function Unstaged(t: Tables, root: Node, extras: Extras): seq<Write> {
    [Write("uni", root.cls, root.attrs)] + CarriersWrites(t, root.children, "uni")
    + WritesAll(RsEnvs(ExtrasOf(extras, "uni")), "uni")
  }

  function StrictWrites(root: Node, extras: Extras): seq<Write> {
    OpWrites(Op("uni", Post, StrictEnvelope(root, extras)))
  }

  lemma StrictIsStagedAndRest(t: Tables, root: Node, extras: Extras)
    requires WfDesign(root, extras)
    ensures DistinctDns(StrictWrites(root, extras))
    ensures SameWrites(StrictWrites(root, extras), OpsWrites(CompileOps(t, root, extras)), Unstaged(t, root, extras))
  {
    UniIsGood();
    var e := StrictEnvelope(root, extras);
    EnvWritesDistinct(e, "");
    EnvelopeRns(root, "uni", extras);
    NodesWrites(t, root.children, "uni", extras);
    var inner, rs := CompileChildren(root.children, "uni", extras), RsEnvs(ExtrasOf(extras, "uni"));
    WritesAllConcat(inner, rs, "uni");
    assert StrictWrites(root, extras) == [Write("uni", root.cls, root.attrs)] + (WritesAll(inner, "uni") + WritesAll(rs, "uni"));
    hide Writes, WritesAll, OpsWrites, CompileChildren, NodesOps, CarriersWrites, RsEnvs;
  }

  // ---- A staged run in which nothing fails

  lemma {:induction false} AllComplete(exec: Exec, waves: seq<seq<Op>>)
    requires forall op :: op in Flat(waves) ==> exec(op).None?
    ensures AsyncWaves(exec, waves).outcome.succeeded == Flat(waves) && AsyncWaves(exec, waves).failedDns == {}
  {
    if waves != [] {
      var before, last := waves[..|waves| - 1], waves[|waves| - 1];
      AllComplete(exec, before);
      NothingSkipped(last);
      NothingRaised(exec, last);
    }
  }

  lemma {:induction false} NothingSkipped(wave: seq<Op>)
    ensures ToRun(wave, {}) == wave
  {
    if wave != [] { NothingSkipped(wave[..|wave| - 1]); }
  }

  lemma {:induction false} NothingRaised(exec: Exec, ops: seq<Op>)
    requires forall op :: op in ops ==> exec(op).None?
    ensures Completed(exec, ops) == ops && RaisedDns(exec, ops) == {}
  {
    if ops != [] { NothingRaised(exec, ops[..|ops| - 1]); }
  }

  lemma {:induction false} EffectsAreWrites(objects: Objects, ops: seq<Op>)
    requires forall op :: op in ops ==> op.verb.Post?
    ensures Effects(objects, ops) == Apply(objects, OpsWrites(ops))
  {
    if ops != [] {
      var init, last := ops[..|ops| - 1], ops[|ops| - 1];
      assert ops == init + [last];
      EffectsAreWrites(objects, init);
      OpsWritesConcat(init, [last]);
      assert OpsWrites([last]) == OpWrites(last) + [] == OpWrites(last);
      ApplyConcat(objects, OpsWrites(init), OpWrites(last));
    }
  }

  /** The writes of one op and those of the others. */
  lemma OpsWritesApart(b: seq<Op>, i: nat)
    requires i < |b|
    ensures multiset(OpsWrites(b)) == multiset(OpsWrites([b[i]])) + multiset(OpsWrites(b[..i] + b[i + 1..]))
  {
    hide OpsWrites;
    assert b == b[..i] + ([b[i]] + b[i + 1..]);
    OpsWritesConcat(b[..i], [b[i]] + b[i + 1..]);
    OpsWritesConcat([b[i]], b[i + 1..]);
    OpsWritesConcat(b[..i], b[i + 1..]);
  }

  lemma MultisetApart<T>(b: seq<T>, i: nat)
    requires i < |b|
    ensures multiset(b[..i] + b[i + 1..]) == multiset(b) - multiset{b[i]}
  {
    assert b == b[..i] + [b[i]] + b[i + 1..];
  }

  lemma {:induction false} OpsWritesAnyOrder(a: seq<Op>, b: seq<Op>)
    requires multiset(a) == multiset(b)
    ensures multiset(OpsWrites(a)) == multiset(OpsWrites(b))
  {
    if a == [] {
      assert |multiset(b)| == 0;
      assert b == [];
    } else {
      hide OpsWrites;
      assert a[0] in multiset(b);
      var i :| 0 <= i < |b| && b[i] == a[0];
      assert a[..0] + a[1..] == a[1..];
      MultisetApart(a, 0);
      MultisetApart(b, i);
      OpsWritesAnyOrder(a[1..], b[..i] + b[i + 1..]);
      OpsWritesApart(a, 0);
      OpsWritesApart(b, i);
    }
  }

  lemma {:induction false} CompiledOpsPost(t: Tables, nodes: seq<Node>, dn: string, extras: Extras)
    ensures forall op :: op in NodesOps(t, nodes, dn, extras) ==> op.verb.Post?
    decreases nodes
  {
    if nodes != [] {
      CompiledNodePosts(t, nodes[0], dn, extras);
      CompiledOpsPost(t, nodes[1..], dn, extras);
    }
  }

  lemma {:induction false} CompiledNodePosts(t: Tables, node: Node, parentDn: string, extras: Extras)
    ensures forall op :: op in NodeOps(t, node, parentDn, extras) ==> op.verb.Post?
    decreases node, 0
  {
    var dn := Child(parentDn, node.rn);
    CompiledOpsPost(t, node.children, dn, extras);
    RsOpsPost(ExtrasOf(extras, dn), dn);
  }

  lemma {:induction false} RsOpsPost(rs: seq<Rs>, dn: string)
    ensures forall op :: op in RsOps(rs, dn) ==> op.verb.Post?
  {
    if rs != [] { RsOpsPost(rs[1..], dn); }
  }

  predicate SameAt(a: Objects, b: Objects, dn: string) {
    (dn in a <==> dn in b) && (dn in a ==> a[dn] == b[dn])
  }

  /** A finished run with no failure has applied the staged writes, in whatever order. */
  lemma StagedStore(c: Config, steps: seq<Step>)
    requires Run(c, steps).Some? && Finished(c, Run(c, steps).value)
    requires forall op :: op in c.ops ==> c.exec(op).None? && op.verb.Post?
    requires DistinctDns(OpsWrites(c.ops))
    ensures Run(c, steps).value.store == Apply(c.store, OpsWrites(c.ops))
  {
    EveryScheduleBooksTheSame(c, steps);
    var landed := Run(c, steps).value.landed;
    hide Run, Toposort, OpsWrites, Apply, Effects;
    ToposortSound(c.ops);
    assert forall op :: op in c.ops <==> op in multiset(c.ops);
    assert forall op :: op in Flat(Waves(c)) ==> op in multiset(Flat(Waves(c)));
    AllComplete(c.exec, Waves(c));
    assert multiset(landed) == multiset(c.ops);
    assert forall op :: op in landed ==> op in multiset(landed);
    EffectsAreWrites(c.store, landed);
    OpsWritesAnyOrder(c.ops, landed);
    ApplyAnyOrder(c.store, OpsWrites(c.ops), OpsWrites(landed));
  }

  lemma PartOfDistinct(all: seq<Write>, part: seq<Write>, rest: seq<Write>)
    requires DistinctDns(all) && SameWrites(all, part, rest)
    ensures DistinctDns(part) && DistinctDns(rest)
    ensures forall dn :: !(Touches(part, dn) && Touches(rest, dn))
  {
    DistinctIsMultiset(all, part + rest);
    var both := part + rest;
    forall i, j | 0 <= i < j < |part| ensures part[i].dn != part[j].dn { assert both[i].dn != both[j].dn; }
    forall i, j | 0 <= i < j < |rest| ensures rest[i].dn != rest[j].dn {
      assert both[|part| + i].dn != both[|part| + j].dn;
    }
    forall v, w | v in part && w in rest ensures v.dn != w.dn {
      var i :| 0 <= i < |part| && part[i] == v;
      var j :| 0 <= j < |rest| && rest[j] == w;
      assert both[i].dn != both[|part| + j].dn;
    }
  }

  /**
   * Staged refines strict: whatever order the waves allow, a run in which no op fails leaves the store
   * the one strict POST leaves, at every DN but `uni`, the carriers and the relations of the root; at
   * those it leaves what was there.
   */
  lemma StagedRefinesStrict(t: Tables, root: Node, extras: Extras, c: Config, steps: seq<Step>, dn: string)
    requires WfDesign(root, extras) && c.ops == CompileOps(t, root, extras)
    requires forall op :: op in c.ops ==> c.exec(op).None?
    requires Run(c, steps).Some? && Finished(c, Run(c, steps).value)
    ensures var staged := Run(c, steps).value.store;
            if Touches(Unstaged(t, root, extras), dn)
            then SameAt(staged, c.store, dn)
            else SameAt(staged, Apply(c.store, StrictWrites(root, extras)), dn)
  {
    CompiledOpsPost(t, root.children, "uni", extras);
    StrictIsStagedAndRest(t, root, extras);
    hide Run, CompileOps, StrictWrites, OpsWrites, Unstaged, Apply;
    PartOfDistinct(StrictWrites(root, extras), OpsWrites(c.ops), Unstaged(t, root, extras));
    StagedStore(c, steps);
    PartialApply(c.store, StrictWrites(root, extras), OpsWrites(c.ops), Unstaged(t, root, extras), dn);
  }

  lemma SameWritesMembers(all: seq<Write>, part: seq<Write>, rest: seq<Write>)
    requires SameWrites(all, part, rest)
    ensures forall w :: w in all <==> w in part || w in rest
  {
    forall w ensures w in all <==> w in part || w in rest {
      assert w in all <==> w in multiset(all);
      assert w in part || w in rest <==> w in multiset(part) + multiset(rest);
    }
  }

  /** Applying part of a list of writes to distinct DNs: the rest is left as it was. */
  lemma PartialApply(objects: Objects, all: seq<Write>, part: seq<Write>, rest: seq<Write>, dn: string)
    requires DistinctDns(all) && SameWrites(all, part, rest)
    ensures if Touches(rest, dn) then SameAt(Apply(objects, part), objects, dn)
            else SameAt(Apply(objects, part), Apply(objects, all), dn)
  {
    hide Apply;
    PartOfDistinct(all, part, rest);
    ApplyLookup(objects, all);
    ApplyLookup(objects, part);
    SameWritesMembers(all, part, rest);
    hide SameWrites, DistinctDns;
    if Touches(part, dn) {
      var w :| w in part && w.dn == dn;
      assert w in all;
    } else if Touches(all, dn) {
      var w :| w in all && w.dn == dn;
      assert w in rest;
    }
  }

  lemma {:induction false} RsWrite(rs: seq<Rs>, dn: string, r: Rs)
    requires dn != "" && r in rs
    ensures Write(Child(dn, r.rn), r.cls, r.attrs) in WritesAll(RsEnvs(rs), dn)
  {
    if r == rs[0] {
      assert Writes(RsEnv(r), dn)[0] == Write(Child(dn, r.rn), r.cls, r.attrs);
    } else {
      RsWrite(rs[1..], dn, r);
    }
  }
}
