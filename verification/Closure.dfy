/** At every moment of a staged run the store is closed under parents, the exempt DNs aside. */
module Closure {
  import opened Text
  import opened Dn
  import opened Store
  import opened Engine
  import opened Agreement
  import opened WavePool
  import opened PoolTheorems
  import opened Compiler
  import opened Staged

  ghost predicate Present(objects: Objects, exempt: set<string>, dn: string) {
    dn in exempt || dn in objects
  }

  ghost predicate Closed(objects: Objects, exempt: set<string>) {
    forall dn :: dn in objects && ParentDn(dn).Some? ==> Present(objects, exempt, ParentDn(dn).value)
  }

  /** The op writes its own DN, and the parent of anything else it writes. */
  ghost predicate OpClosed(op: Op) {
    && Touches(OpWrites(op), op.dn)
    && forall w :: w in OpWrites(op) && w.dn != op.dn ==>
         ParentDn(w.dn).Some? && Touches(OpWrites(op), ParentDn(w.dn).value)
  }

  ghost predicate IsOpDn(ops: seq<Op>, dn: string) {
    exists op :: op in ops && op.dn == dn
  }

  /** Every op is a POST whose parent is exempt or the DN of an op. */
  ghost predicate WellParented(ops: seq<Op>, exempt: set<string>) {
    forall op :: op in ops ==>
      op.verb.Post? && OpClosed(op) &&
      (ParentDn(op.dn).Some? ==> ParentDn(op.dn).value in exempt || IsOpDn(ops, ParentDn(op.dn).value))
  }

  lemma {:induction false} ApplyKeys(objects: Objects, ws: seq<Write>)
    ensures forall dn :: dn in Apply(objects, ws) <==> dn in objects || Touches(ws, dn)
    decreases |ws|
  {
    if ws != [] {
      ApplyKeys(Upsert(objects, ws[0]), ws[1..]);
      forall dn ensures Touches(ws, dn) <==> dn == ws[0].dn || Touches(ws[1..], dn) {
        if dn == ws[0].dn { assert ws[0] in ws; }
        if Touches(ws[1..], dn) {
          var w :| w in ws[1..] && w.dn == dn;
          assert w in ws;
        }
      }
    }
  }

  lemma LandingKeepsClosed(objects: Objects, exempt: set<string>, op: Op)
    requires Closed(objects, exempt) && op.verb.Post? && OpClosed(op)
    requires ParentDn(op.dn).Some? ==> Present(objects, exempt, ParentDn(op.dn).value)
    ensures Closed(Effect(objects, op), exempt)
    ensures forall dn :: dn in objects || dn == op.dn ==> dn in Effect(objects, op)
  {
    ApplyKeys(objects, OpWrites(op));
    hide Apply, Writes, ParentDn;
    var after := Effect(objects, op);
    forall dn | dn in after && ParentDn(dn).Some? ensures Present(after, exempt, ParentDn(dn).value) {
      if dn !in objects && dn != op.dn {
        var w :| w in OpWrites(op) && w.dn == dn;
      }
    }
  }

  // ---- The parent of an op about to land

  lemma {:induction false} SkippedHasBlame(exec: Exec, waves: seq<seq<Op>>, op: Op)
    requires op in AsyncWaves(exec, waves).outcome.notRun
    ensures DescendsFromFailed(op.dn, AsyncWaves(exec, waves).failedDns)
  {
    var before := waves[..|waves| - 1];
    var p := AsyncWaves(exec, before);
    ToRunMember(waves[|waves| - 1], p.failedDns);
    if op in p.outcome.notRun { SkippedHasBlame(exec, before, op); }
  }

  /** The DNs of landed ops are in the store. */
  ghost predicate LandedStored(s: State) {
    forall op :: op in s.landed ==> op.dn in s.store
  }

  lemma ConcludedParentLanded(c: Config, n: nat, parent: Op, op: Op)
    requires n <= |Waves(c)| && Concluded(parent, AsyncWaves(c.exec, Waves(c)[..n]).outcome)
    requires Below(parent.dn, op.dn)
    requires !DescendsFromFailed(op.dn, AsyncWaves(c.exec, Waves(c)[..n]).failedDns)
    ensures parent in AsyncWaves(c.exec, Waves(c)[..n]).outcome.succeeded
  {
    hide Toposort;
    var waves := Waves(c)[..n];
    FailedDnsAreFailedOps(c.exec, waves);
    assert AtOrBelow(op.dn, parent.dn);
    if parent in AsyncWaves(c.exec, waves).outcome.notRun {
      SkippedHasBlame(c.exec, waves, parent);
      hide AsyncWaves;
      var f :| f in AsyncWaves(c.exec, waves).failedDns && AtOrBelow(parent.dn, f);
      BelowTransitive(f, parent.dn, op.dn);
    }
  }

  /** An op the pool may pull: of the open wave, below nothing that failed before it. */
  lemma PoolOp(c: Config, s: State, i: nat)
    requires Inv(c, s) && s.pool.Some? && i < |s.pool.value.toRun|
    ensures s.done < |Waves(c)|
    ensures var op := s.pool.value.toRun[i];
            op in Waves(c)[s.done] && !DescendsFromFailed(op.dn, AsyncWaves(c.exec, Waves(c)[..s.done]).failedDns)
  {
    hide Toposort, AsyncWaves, Effects, SlotOk;
    ToRunMember(Waves(c)[s.done], AsyncWaves(c.exec, Waves(c)[..s.done]).failedDns);
    assert s.pool.value.toRun[i] in s.pool.value.toRun;
  }

  /** What earlier waves sent has landed. */
  lemma EarlierLanded(c: Config, s: State, op: Op)
    requires Inv(c, s) && s.done <= |Waves(c)| && op in AsyncWaves(c.exec, Waves(c)[..s.done]).outcome.succeeded
    ensures op in s.landed
  {
    hide Toposort, AsyncWaves, Effects, SlotOk;
    var before := AsyncWaves(c.exec, Waves(c)[..s.done]);
    assert s.progress.outcome.succeeded == before.outcome.succeeded;
    assert multiset(before.outcome.succeeded) <= multiset(s.landed);
    assert op in multiset(before.outcome.succeeded);
    assert op in multiset(s.landed);
  }

  /** The op above one the pool may pull was sent in an earlier wave and has landed. */
  lemma ParentLanded(c: Config, s: State, parent: Op, op: Op)
    requires Inv(c, s) && s.done < |Waves(c)| && op in Waves(c)[s.done]
    requires !DescendsFromFailed(op.dn, AsyncWaves(c.exec, Waves(c)[..s.done]).failedDns)
    requires parent in c.ops && Below(parent.dn, op.dn) && Depth(parent.dn) < Depth(op.dn)
    ensures parent in s.landed
  {
    var waves := Waves(c)[..s.done];
    assert Waves(c) == Toposort(c.ops);
    hide *;
    var k := ShallowerWave(c.ops, parent, op, s.done);
    assert waves[k] == Waves(c)[k];
    WavesConclude(c.exec, waves, k, parent);
    ConcludedParentLanded(c, s.done, parent, op);
    EarlierLanded(c, s, parent);
  }

  lemma ParentStored(c: Config, s: State, i: nat, exempt: set<string>)
    requires Inv(c, s) && LandedStored(s) && s.pool.Some? && i < |s.pool.value.toRun|
    requires WellParented(c.ops, exempt)
    ensures var op := s.pool.value.toRun[i];
            op in c.ops && (ParentDn(op.dn).Some? ==> Present(s.store, exempt, ParentDn(op.dn).value))
  {
    var op := s.pool.value.toRun[i];
    hide *;
    PoolOp(c, s, i);
    WaveOpKnown(c, s.done, op);
    if ParentDn(op.dn).Some? {
      if ParentDn(op.dn).value !in exempt {
        ParentAbove(op.dn);
        var parent := ParentOp(c.ops, op, exempt);
        ParentLanded(c, s, parent, op);
        LandedIsStored(s, parent);
      }
      PresentIs(s.store, exempt, ParentDn(op.dn).value);
    }
  }

  lemma WaveOpKnown(c: Config, k: nat, op: Op)
    requires k < |Waves(c)| && op in Waves(c)[k]
    ensures op in c.ops
  {
    hide Toposort;
    LayersHaveOneDepth(c.ops);
  }

  lemma ParentAbove(dn: string)
    requires ParentDn(dn).Some?
    ensures Below(ParentDn(dn).value, dn) && Depth(ParentDn(dn).value) < Depth(dn)
  {
    ParentAndRn(dn);
    hide ParentDn, Depth;
  }

  lemma PresentIs(objects: Objects, exempt: set<string>, dn: string)
    ensures Present(objects, exempt, dn) <==> dn in exempt || dn in objects
  {
  }

  lemma ParentOp(ops: seq<Op>, op: Op, exempt: set<string>) returns (parent: Op)
    requires WellParented(ops, exempt) && op in ops && ParentDn(op.dn).Some? && ParentDn(op.dn).value !in exempt
    ensures parent in ops && parent.dn == ParentDn(op.dn).value
  {
    hide ParentDn, OpClosed;
    parent :| parent in ops && parent.dn == ParentDn(op.dn).value;
  }

  lemma LandedIsStored(s: State, op: Op)
    requires LandedStored(s) && op in s.landed
    ensures op.dn in s.store
  {
  }

  /** Only a request that lands changes the store. */
  lemma OthersKeepStore(c: Config, s: State, step: Step)
    requires !step.Land? && Next(c, s, step).Some?
    ensures Next(c, s, step).value.store == s.store && Next(c, s, step).value.landed == s.landed
  {
    hide Toposort, AsyncWaves, Effects, ToRun, Skipped, SlotOk, SlotFailed;
  }

  lemma StepKeepsClosed(c: Config, s: State, step: Step, exempt: set<string>)
    requires Inv(c, s) && Next(c, s, step).Some?
    requires WellParented(c.ops, exempt) && Closed(s.store, exempt) && LandedStored(s)
    ensures Closed(Next(c, s, step).value.store, exempt) && LandedStored(Next(c, s, step).value)
  {
    hide *;
    if step.Land? {
      LandParts(c, s, step);
      var i := s.pool.value.workers[step.worker].index;
      ParentStored(c, s, i, exempt);
      OpFits(c.ops, s.pool.value.toRun[i], exempt);
      LandingKeepsClosed(s.store, exempt, s.pool.value.toRun[i]);
      LandedMore(c, s, step, s.pool.value.toRun[i]);
    } else {
      OthersKeepStore(c, s, step);
      SameLanded(s, Next(c, s, step).value);
    }
  }

  lemma LandParts(c: Config, s: State, step: Step)
    requires step.Land? && Next(c, s, step).Some?
    ensures s.pool.Some? && step.worker < |s.pool.value.workers| && s.pool.value.workers[step.worker].Busy?
    ensures s.pool.value.workers[step.worker].index < |s.pool.value.toRun|
    ensures var op, after := s.pool.value.toRun[s.pool.value.workers[step.worker].index], Next(c, s, step).value;
            if c.exec(op).None? then after.store == Effect(s.store, op) && after.landed == s.landed + [op]
            else after.store == s.store && after.landed == s.landed
  {
    hide Effect;
  }

  lemma OpFits(ops: seq<Op>, op: Op, exempt: set<string>)
    requires WellParented(ops, exempt) && op in ops
    ensures op.verb.Post? && OpClosed(op)
  {
  }

  lemma SameLanded(a: State, b: State)
    requires LandedStored(a) && a.store == b.store && a.landed == b.landed
    ensures LandedStored(b)
  {
  }

  lemma LandedMore(c: Config, s: State, step: Step, op: Op)
    requires LandedStored(s) && Next(c, s, step).Some?
    requires forall dn :: dn in s.store ==> dn in Effect(s.store, op)
    requires op.dn in Effect(s.store, op)
    requires var after := Next(c, s, step).value;
             (after.store == s.store && after.landed == s.landed) || (after.store == Effect(s.store, op) && after.landed == s.landed + [op])
    ensures LandedStored(Next(c, s, step).value)
  {
    hide Effect, Next;
  }

  /** In every reachable state, with any ops failing and any interleaving, no object lacks its parent. */
  lemma {:induction false} StoreStaysClosed(c: Config, steps: seq<Step>, exempt: set<string>)
    requires WellParented(c.ops, exempt) && Closed(c.store, exempt)
    requires Run(c, steps).Some?
    ensures Closed(Run(c, steps).value.store, exempt) && LandedStored(Run(c, steps).value)
  {
    if steps != [] {
      var init, last := steps[..|steps| - 1], steps[|steps| - 1];
      StoreStaysClosed(c, init, exempt);
      Reachable(c, init);
      hide Closed, LandedStored, Next, Inv;
      StepKeepsClosed(c, Run(c, init).value, last, exempt);
    }
  }

  // ---- Compiled designs are well parented

  lemma {:induction false} EnvParents(e: Env, parentDn: string, w: Write)
    requires WfEnv(e) && GoodDn(parentDn) && w in Writes(e, parentDn)
    ensures Touches(Writes(e, parentDn), Child(parentDn, e.rn))
    ensures w.dn != Child(parentDn, e.rn) ==>
              ParentDn(w.dn).Some? && Touches(Writes(e, parentDn), ParentDn(w.dn).value)
    ensures GoodDn(w.dn)
    decreases e, 0
  {
    var dn := Child(parentDn, e.rn);
    var own := Write(dn, e.cls, e.attrs);
    GoodChild(parentDn, e.rn);
    assert own in Writes(e, parentDn) by { assert Writes(e, parentDn)[0] == own; }
    if w != own {
      hide ParentDn;
      AllParents(e.children, dn, w);
      if Touches(WritesAll(e.children, dn), ParentDn(w.dn).value) {
        var v :| v in WritesAll(e.children, dn) && v.dn == ParentDn(w.dn).value;
        assert v in Writes(e, parentDn);
      }
    }
  }

  lemma {:induction false} AllParents(es: seq<Env>, dn: string, w: Write)
    requires GoodDn(dn) && (forall e :: e in es ==> WfEnv(e)) && w in WritesAll(es, dn)
    ensures ParentDn(w.dn).Some? && (ParentDn(w.dn).value == dn || Touches(WritesAll(es, dn), ParentDn(w.dn).value))
    ensures GoodDn(w.dn)
    decreases es
  {
    var here := w in Writes(es[0], dn);
    assert es[0] in es;
    if here {
      GoodChild(dn, es[0].rn);
      hide ParentDn;
      EnvParents(es[0], dn, w);
    } else {
      hide ParentDn;
      AllParents(es[1..], dn, w);
    }
    var part := if here then Writes(es[0], dn) else WritesAll(es[1..], dn);
    if Touches(part, ParentDn(w.dn).value) {
      var v :| v in part && v.dn == ParentDn(w.dn).value;
      assert v in WritesAll(es, dn);
    }
  }

  lemma EnvOpClosed(e: Env, dn: string)
    requires WfEnv(e) && GoodDn(dn)
    ensures OpClosed(Op(Child(dn, e.rn), Post, e)) && ParentDn(Child(dn, e.rn)) == Some(dn)
    ensures Balanced(Child(dn, e.rn))
  {
    GoodChild(dn, e.rn);
    hide ParentDn, WfEnv;
    var op := Op(Child(dn, e.rn), Post, e);
    LeafOp(dn, e) by { hide *; }
    forall w | w in OpWrites(op) ensures w.dn != op.dn ==> ParentDn(w.dn).Some? && Touches(OpWrites(op), ParentDn(w.dn).value) {
      EnvParents(e, dn, w);
    }
    assert Writes(e, dn)[0] in Writes(e, dn);
    EnvParents(e, dn, Writes(e, dn)[0]);
  }

  /** The DNs a staged run never writes but may write below. */
  function Exempt(t: Tables, nodes: seq<Node>, dn: string): set<string> {
    {dn} + set w | w in CarriersWrites(t, nodes, dn) :: w.dn
  }

  /** The op writes closed subtrees, and its parent is `dn`, a carrier of the list, or an op of the list. */
  ghost predicate ParentedIn(op: Op, ops: seq<Op>, carriers: seq<Write>, dn: string) {
    && op.verb.Post? && OpClosed(op) && Balanced(op.dn) && ParentDn(op.dn).Some?
    && var p := ParentDn(op.dn).value;
       p == dn || Touches(carriers, p) || IsOpDn(ops, p)
  }

  lemma ParentedMore(op: Op, ops: seq<Op>, carriers: seq<Write>, dn: string, moreOps: seq<Op>, moreCarriers: seq<Write>, up: string)
    requires ParentedIn(op, ops, carriers, dn)
    requires forall o :: o in ops ==> o in moreOps
    requires forall w :: w in carriers ==> w in moreCarriers
    requires dn == up || Touches(moreCarriers, dn) || IsOpDn(moreOps, dn)
    ensures ParentedIn(op, moreOps, moreCarriers, up)
  {
    hide ParentDn, OpClosed;
    var p := ParentDn(op.dn).value;
    if Touches(carriers, p) {
      var w :| w in carriers && w.dn == p;
      assert w in moreCarriers;
    }
    if IsOpDn(ops, p) {
      var o :| o in ops && o.dn == p;
      assert o in moreOps;
    }
  }

  lemma {:induction false} NodesParented(t: Tables, nodes: seq<Node>, dn: string, extras: Extras, op: Op)
    requires GoodDn(dn) && forall e :: e in CompileChildren(nodes, dn, extras) ==> WfEnv(e)
    requires op in NodesOps(t, nodes, dn, extras)
    ensures ParentedIn(op, NodesOps(t, nodes, dn, extras), CarriersWrites(t, nodes, dn), dn)
    decreases nodes
  {
    var e := CompileEnvelope(nodes[0], Child(dn, nodes[0].rn), extras);
    var all := CompileChildren(nodes, dn, extras);
    assert e in all && all[1..] == CompileChildren(nodes[1..], dn, extras);
    assert WfEnv(e) && forall x :: x in all[1..] ==> x in all;
    var ops, carriers := NodesOps(t, nodes, dn, extras), CarriersWrites(t, nodes, dn);
    if op in NodeOps(t, nodes[0], dn, extras) {
      NodeParented(t, nodes[0], dn, extras, op);
      hide ParentedIn;
      ParentedMore(op, NodeOps(t, nodes[0], dn, extras), CarrierWrites(t, nodes[0], dn), dn, ops, carriers, dn);
    } else {
      NodesParented(t, nodes[1..], dn, extras, op);
      hide ParentedIn;
      ParentedMore(op, NodesOps(t, nodes[1..], dn, extras), CarriersWrites(t, nodes[1..], dn), dn, ops, carriers, dn);
    }
  }

  lemma {:induction false} RsOpMember(rs: seq<Rs>, dn: string, op: Op)
    requires op in RsOps(rs, dn)
    ensures exists r :: r in rs && op == Op(Child(dn, r.rn), Post, RsEnv(r))
  {
    if op != RsOps(rs, dn)[0] { RsOpMember(rs[1..], dn, op); }
  }

  /** What the own op of a node, or the carrier it is, provides to the ops below it. */
  lemma NodeProvides(t: Tables, node: Node, parentDn: string, extras: Extras)
    requires node.cls !in t.atomic
    ensures var dn := Child(parentDn, node.rn);
            Touches(CarrierWrites(t, node, parentDn), dn) || IsOpDn(NodeOps(t, node, parentDn, extras), dn)
  {
    var dn := Child(parentDn, node.rn);
    if node.cls in t.carrier {
      assert CarrierWrites(t, node, parentDn)[0] == Write(dn, node.cls, node.attrs);
      assert Write(dn, node.cls, node.attrs) in CarrierWrites(t, node, parentDn);
    } else {
      assert NodeOps(t, node, parentDn, extras)[0] == NodeOp(node, dn);
      assert NodeOp(node, dn) in NodeOps(t, node, parentDn, extras);
    }
  }

  lemma {:induction false} NodeParented(t: Tables, node: Node, parentDn: string, extras: Extras, op: Op)
    requires GoodDn(parentDn) && WfEnv(CompileEnvelope(node, Child(parentDn, node.rn), extras))
    requires op in NodeOps(t, node, parentDn, extras)
    ensures ParentedIn(op, NodeOps(t, node, parentDn, extras), CarrierWrites(t, node, parentDn), parentDn)
    decreases node, 0
  {
    var dn := Child(parentDn, node.rn);
    EnvelopeRns(node, dn, extras);
    GoodChild(parentDn, node.rn);
    if node.cls in t.atomic {
      hide WfEnv, ParentDn, OpClosed;
      EnvOpClosed(CompileEnvelope(node, dn, extras), parentDn);
    } else if op == NodeOp(node, dn) {
      EnvOpClosed(Env(node.cls, node.rn, node.attrs, []), parentDn);
    } else {
      NodeProvides(t, node, parentDn, extras);
      var ops, carriers := NodeOps(t, node, parentDn, extras), CarrierWrites(t, node, parentDn);
      if op in RsOps(ExtrasOf(extras, dn), dn) {
        RsOpMember(ExtrasOf(extras, dn), dn, op);
        var r :| r in ExtrasOf(extras, dn) && op == Op(Child(dn, r.rn), Post, RsEnv(r));
        hide ParentDn, OpClosed;
        EnvOpClosed(RsEnv(r), dn);
      } else {
        NodesParented(t, node.children, dn, extras, op);
        hide ParentedIn;
        ParentedMore(op, NodesOps(t, node.children, dn, extras), CarriersWrites(t, node.children, dn), dn, ops, carriers, parentDn);
      }
    }
  }

  /** The ops of a well-formed design keep the store closed under parents, `uni` and the carriers aside. */
  lemma CompiledWellParented(t: Tables, root: Node, extras: Extras)
    requires WfDesign(root, extras)
    ensures WellParented(CompileOps(t, root, extras), Exempt(t, root.children, "uni"))
  {
    UniIsGood();
    EnvelopeRns(root, "uni", extras);
    var ops, exempt := CompileOps(t, root, extras), Exempt(t, root.children, "uni");
    forall op | op in ops
      ensures op.verb.Post? && OpClosed(op) &&
              (ParentDn(op.dn).Some? ==> ParentDn(op.dn).value in exempt || IsOpDn(ops, ParentDn(op.dn).value))
    {
      NodesParented(t, root.children, "uni", extras, op);
      hide ParentDn, OpClosed;
    }
  }

  lemma {:induction false} DistinctWritesDistinctOps(ops: seq<Op>)
    requires DistinctDns(OpsWrites(ops)) && forall op :: op in ops ==> Touches(OpWrites(op), op.dn)
    ensures forall i, j :: 0 <= i < j < |ops| ==> ops[i].dn != ops[j].dn
  {
    if ops != [] {
      var first, rest := OpWrites(ops[0]), OpsWrites(ops[1..]);
      PartOfDistinct(first + rest, first, rest);
      hide OpsWrites, OpWrites;
      DistinctWritesDistinctOps(ops[1..]);
      forall j | 0 < j < |ops| ensures ops[0].dn != ops[j].dn {
        assert ops[j] in ops && ops[j] == ops[1..][j - 1];
        OpTouches(ops[1..], ops[j]);
        assert ops[0] in ops;
      }
    }
  }

  lemma {:induction false} OpTouches(ops: seq<Op>, op: Op)
    requires op in ops && Touches(OpWrites(op), op.dn)
    ensures Touches(OpsWrites(ops), op.dn)
  {
    var part := if op == ops[0] then OpWrites(ops[0]) else OpsWrites(ops[1..]);
    if op != ops[0] { OpTouches(ops[1..], op); }
    var w :| w in part && w.dn == op.dn;
    assert w in OpsWrites(ops);
  }

  /** The ops of a well-formed design have distinct balanced DNs: the two engines report alike on them. */
  lemma CompiledWellNamed(t: Tables, root: Node, extras: Extras)
    requires WfDesign(root, extras)
    ensures WellNamed(CompileOps(t, root, extras))
  {
    UniIsGood();
    EnvelopeRns(root, "uni", extras);
    StrictIsStagedAndRest(t, root, extras);
    var ops := CompileOps(t, root, extras);
    forall op | op in ops ensures Balanced(op.dn) && Touches(OpWrites(op), op.dn) {
      NodesParented(t, root.children, "uni", extras, op);
    }
    hide CompileOps, OpsWrites, StrictWrites, Unstaged;
    PartOfDistinct(StrictWrites(root, extras), OpsWrites(ops), Unstaged(t, root, extras));
    DistinctWritesDistinctOps(ops);
  }

  /** A staged push of a design reports the same lists through either engine, under any schedule. */
  lemma StagedReportsAgree(t: Tables, root: Node, extras: Extras, c: Config, steps: seq<Step>)
    requires WfDesign(root, extras) && c.ops == CompileOps(t, root, extras)
    requires Run(c, steps).Some? && Finished(c, Run(c, steps).value)
    ensures Run(c, steps).value.progress.outcome == SyncWaves(c.exec, Toposort(c.ops)).outcome
  {
    CompiledWellNamed(t, root, extras);
    AsyncMatchesSync(c, steps);
  }

  /** A staged run of a design: the store is closed under parents in every state it passes through. */
  lemma StagedRunStaysClosed(t: Tables, root: Node, extras: Extras, c: Config, steps: seq<Step>)
    requires WfDesign(root, extras) && c.ops == CompileOps(t, root, extras)
    requires Closed(c.store, Exempt(t, root.children, "uni")) && Run(c, steps).Some?
    ensures Closed(Run(c, steps).value.store, Exempt(t, root.children, "uni"))
  {
    CompiledWellParented(t, root, extras);
    StoreStaysClosed(c, steps, Exempt(t, root.children, "uni"));
  }
}
