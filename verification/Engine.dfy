/** The wave engine: DN-depth waves, and the sync and async ways of running one (`_engine.py`). */
module Engine {
  import opened Text
  import opened Dn
  import opened Store

  datatype Verb = Post | Delete

  datatype Op = Op(dn: string, verb: Verb, payload: Env)

  /** The fixed answer of the controller to each op: `None` when it completes, else the error. */
  type Exec = Op -> Option<string>

  datatype Outcome = Outcome(succeeded: seq<Op>, failed: seq<(Op, string)>, notRun: seq<Op>)

  datatype Progress = Progress(outcome: Outcome, failedDns: set<string>)

  const NOTHING := Progress(Outcome([], [], []), {})

  predicate DescendsFromFailed(dn: string, failedDns: set<string>) {
    exists f | f in failedDns :: AtOrBelow(dn, f)
  }

  // ---- Waves

  function OpsAt(ops: seq<Op>, depth: nat): seq<Op> {
    if ops == [] then []
    else OpsAt(ops[..|ops| - 1], depth) + if Depth(ops[|ops| - 1].dn) == depth then [ops[|ops| - 1]] else []
  }

  function MaxDepth(ops: seq<Op>): (m: nat)
    ensures forall op :: op in ops ==> Depth(op.dn) <= m
  {
    if ops == [] then 0
    else
      var m := MaxDepth(ops[..|ops| - 1]);
      var d := Depth(ops[|ops| - 1].dn);
      assert ops == ops[..|ops| - 1] + [ops[|ops| - 1]];
      if d > m then d else m
  }

  function WavesUpTo(ops: seq<Op>, bound: nat): seq<seq<Op>> {
    if bound == 0 then []
    else WavesUpTo(ops, bound - 1) + if OpsAt(ops, bound - 1) == [] then [] else [OpsAt(ops, bound - 1)]
  }

  /** Ops grouped by ascending DN depth, each group in the order given. */
  function Toposort(ops: seq<Op>): seq<seq<Op>> {
    WavesUpTo(ops, MaxDepth(ops) + 1)
  }

  function Group(byDepth: map<nat, seq<Op>>, depth: nat): seq<Op> {
    if depth in byDepth then byDepth[depth] else []
  }

  ghost predicate Groups(byDepth: map<nat, seq<Op>>, ops: seq<Op>) {
    && (forall d: nat :: OpsAt(ops, d) == Group(byDepth, d))
    && (forall d :: d in byDepth ==> byDepth[d] != [])
  }

  lemma OpsAtSnoc(ops: seq<Op>, op: Op, depth: nat)
    ensures OpsAt(ops + [op], depth) == OpsAt(ops, depth) + if Depth(op.dn) == depth then [op] else []
  {
    assert (ops + [op])[..|ops + [op]| - 1] == ops;
  }

  lemma GroupsSnoc(byDepth: map<nat, seq<Op>>, ops: seq<Op>, op: Op)
    requires Groups(byDepth, ops)
    ensures var d := Depth(op.dn); Groups(byDepth[d := Group(byDepth, d) + [op]], ops + [op])
  {
    forall d: nat ensures OpsAt(ops + [op], d) == OpsAt(ops, d) + if Depth(op.dn) == d then [op] else [] {
      OpsAtSnoc(ops, op, d);
    }
  }

  lemma GroupIs(byDepth: map<nat, seq<Op>>, ops: seq<Op>, d: nat)
    requires Groups(byDepth, ops)
    ensures OpsAt(ops, d) == Group(byDepth, d) && (d in byDepth ==> byDepth[d] != [])
  {
  }

  method GroupByDepth(ops: seq<Op>) returns (byDepth: map<nat, seq<Op>>)
    ensures Groups(byDepth, ops)
  {
    byDepth := map[];
    for i := 0 to |ops|
      invariant Groups(byDepth, ops[..i])
    {
      hide Groups, OpsAt, Depth;
      var d := ComputeDepth(ops[i].dn);
      GroupsSnoc(byDepth, ops[..i], ops[i]);
      assert ops[..i + 1] == ops[..i] + [ops[i]];
      byDepth := byDepth[d := Group(byDepth, d) + [ops[i]]];
    }
    assert ops[..|ops|] == ops;
  }

  method ComputeWaves(ops: seq<Op>) returns (waves: seq<seq<Op>>)
    ensures waves == Toposort(ops)
  {
    hide Groups, OpsAt, Depth, MaxDepth;
    var byDepth := GroupByDepth(ops);
    waves := [];
    for d: nat := 0 to MaxDepth(ops) + 1
      invariant waves == WavesUpTo(ops, d)
    {
      GroupIs(byDepth, ops, d);
      if d in byDepth { waves := waves + [byDepth[d]]; }
    }
  }

  function Flat(waves: seq<seq<Op>>): seq<Op> {
    if waves == [] then [] else Flat(waves[..|waves| - 1]) + waves[|waves| - 1]
  }

  lemma FlatSnoc(waves: seq<seq<Op>>, wave: seq<Op>)
    ensures Flat(waves + [wave]) == Flat(waves) + wave
  {
    assert (waves + [wave])[..|waves|] == waves;
  }

  lemma {:induction false} OpsAtMember(ops: seq<Op>, depth: nat)
    ensures forall op :: op in OpsAt(ops, depth) <==> op in ops && Depth(op.dn) == depth
  {
    if ops != [] {
      OpsAtMember(ops[..|ops| - 1], depth);
      assert ops == ops[..|ops| - 1] + [ops[|ops| - 1]];
    }
  }

  /** The depth shared by the ops of a wave. */
  function WaveDepth(wave: seq<Op>): nat
    requires wave != []
  {
    Depth(wave[0].dn)
  }

  ghost predicate Layered(ops: seq<Op>, waves: seq<seq<Op>>) {
    && (forall k :: 0 <= k < |waves| ==> waves[k] != [] && waves[k] == OpsAt(ops, WaveDepth(waves[k])))
    && (forall k, l :: 0 <= k < l < |waves| ==> WaveDepth(waves[k]) < WaveDepth(waves[l]))
  }

  ghost predicate InSomeWave(op: Op, waves: seq<seq<Op>>) {
    exists k :: 0 <= k < |waves| && op in waves[k]
  }

  lemma LayeredSnoc(ops: seq<Op>, waves: seq<seq<Op>>, depth: nat)
    requires Layered(ops, waves) && OpsAt(ops, depth) != []
    requires forall k :: 0 <= k < |waves| ==> WaveDepth(waves[k]) < depth
    ensures Layered(ops, waves + [OpsAt(ops, depth)]) && WaveDepth(OpsAt(ops, depth)) == depth
  {
    OpsAtMember(ops, depth);
    assert OpsAt(ops, depth)[0] in OpsAt(ops, depth);
  }

  lemma {:induction false} WavesLayered(ops: seq<Op>, bound: nat)
    ensures Layered(ops, WavesUpTo(ops, bound))
    ensures forall k :: 0 <= k < |WavesUpTo(ops, bound)| ==> WaveDepth(WavesUpTo(ops, bound)[k]) < bound
  {
    if bound > 0 {
      WavesLayered(ops, bound - 1);
      if OpsAt(ops, bound - 1) != [] { LayeredSnoc(ops, WavesUpTo(ops, bound - 1), bound - 1); }
    }
  }

  lemma {:induction false} WavesCover(ops: seq<Op>, bound: nat, op: Op)
    requires op in ops && Depth(op.dn) < bound
    ensures InSomeWave(op, WavesUpTo(ops, bound))
  {
    var before, wave := WavesUpTo(ops, bound - 1), OpsAt(ops, bound - 1);
    if Depth(op.dn) == bound - 1 {
      OpsAtMember(ops, bound - 1);
      assert (before + [wave])[|before|] == wave;
    } else {
      WavesCover(ops, bound - 1, op);
      var k :| 0 <= k < |before| && op in before[k];
      assert WavesUpTo(ops, bound)[k] == before[k];
    }
  }

  lemma {:induction false} DepthSplit(ops: seq<Op>, bound: nat)
    ensures multiset(Shallow(ops, bound + 1)) == multiset(Shallow(ops, bound)) + multiset(OpsAt(ops, bound))
  {
    if ops != [] { DepthSplit(ops[..|ops| - 1], bound); }
  }

  function Shallow(ops: seq<Op>, bound: nat): seq<Op> {
    if ops == [] then []
    else Shallow(ops[..|ops| - 1], bound) + if Depth(ops[|ops| - 1].dn) < bound then [ops[|ops| - 1]] else []
  }

  lemma {:induction false} ShallowAll(ops: seq<Op>, bound: nat)
    requires forall op :: op in ops ==> Depth(op.dn) < bound
    ensures Shallow(ops, bound) == ops
  {
    if ops != [] {
      assert ops == ops[..|ops| - 1] + [ops[|ops| - 1]];
      ShallowAll(ops[..|ops| - 1], bound);
    }
  }

  lemma {:induction false} ShallowNone(ops: seq<Op>)
    ensures Shallow(ops, 0) == []
  {
    if ops != [] { ShallowNone(ops[..|ops| - 1]); }
  }

  lemma {:induction false} WavesConserve(ops: seq<Op>, bound: nat)
    ensures multiset(Flat(WavesUpTo(ops, bound))) == multiset(Shallow(ops, bound))
  {
    hide *;
    if bound == 0 {
      ShallowNone(ops);
      assert Flat(WavesUpTo(ops, bound)) == [] by { NoWaves(ops); }
    } else {
      WavesConserve(ops, bound - 1);
      DepthSplit(ops, bound - 1);
      FlatWave(ops, bound - 1);
    }
  }

  lemma NoWaves(ops: seq<Op>)
    ensures Flat(WavesUpTo(ops, 0)) == []
  {
  }

  lemma FlatWave(ops: seq<Op>, bound: nat)
    ensures multiset(Flat(WavesUpTo(ops, bound + 1))) == multiset(Flat(WavesUpTo(ops, bound))) + multiset(OpsAt(ops, bound))
  {
    var waves, wave := WavesUpTo(ops, bound), OpsAt(ops, bound);
    if wave == [] {
      assert WavesUpTo(ops, bound + 1) == waves;
    } else {
      assert WavesUpTo(ops, bound + 1) == waves + [wave];
      FlatSnoc(waves, wave);
    }
  }

  /** The waves hold every op once, by strictly ascending depth. */
  lemma ToposortSound(ops: seq<Op>)
    ensures Layered(ops, Toposort(ops))
    ensures multiset(Flat(Toposort(ops))) == multiset(ops)
    ensures forall op :: op in ops ==> InSomeWave(op, Toposort(ops))
  {
    var bound := MaxDepth(ops) + 1;
    assert Toposort(ops) == WavesUpTo(ops, bound);
    hide *;
    WavesLayered(ops, bound);
    WavesConserve(ops, bound);
    ShallowAll(ops, bound);
    forall op | op in ops ensures InSomeWave(op, Toposort(ops)) {
      WavesCover(ops, bound, op);
    }
  }

  // ---- The sync engine

  function SyncStep(exec: Exec, p: Progress, op: Op): Progress {
    var Progress(Outcome(succeeded, failed, notRun), failedDns) := p;
    if DescendsFromFailed(op.dn, failedDns)
    then Progress(Outcome(succeeded, failed, notRun + [op]), failedDns)
    else match exec(op)
      case None => Progress(Outcome(succeeded + [op], failed, notRun), failedDns)
      case Some(error) => Progress(Outcome(succeeded, failed + [(op, error)], notRun), failedDns + {op.dn})
  }

  function SyncRun(exec: Exec, p: Progress, ops: seq<Op>): Progress {
    if ops == [] then p else SyncStep(exec, SyncRun(exec, p, ops[..|ops| - 1]), ops[|ops| - 1])
  }

  function SyncWaves(exec: Exec, waves: seq<seq<Op>>): Progress {
    if waves == [] then NOTHING
    else SyncRun(exec, SyncWaves(exec, waves[..|waves| - 1]), waves[|waves| - 1])
  }

  method RunWavesSync(exec: Exec, ops: seq<Op>) returns (outcome: Outcome)
    ensures outcome == SyncWaves(exec, Toposort(ops)).outcome
  {
    var succeeded: seq<Op>, failed: seq<(Op, string)>, notRun: seq<Op> := [], [], [];
    var failedDns: set<string> := {};
    var waves := ComputeWaves(ops);
    for k := 0 to |waves|
      invariant Progress(Outcome(succeeded, failed, notRun), failedDns) == SyncWaves(exec, waves[..k])
    {
      var wave := waves[k];
      ghost var p := SyncWaves(exec, waves[..k]);
      for i := 0 to |wave|
        invariant Progress(Outcome(succeeded, failed, notRun), failedDns) == SyncRun(exec, p, wave[..i])
      {
        var op := wave[i];
        assert wave[..i + 1][..i] == wave[..i];
        if DescendsFromFailed(op.dn, failedDns) {
          notRun := notRun + [op];
        } else {
          var answer := exec(op);
          if answer.None? {
            succeeded := succeeded + [op];
          } else {
            failed := failed + [(op, answer.value)];
            failedDns := failedDns + {op.dn};
          }
        }
      }
      assert wave[..|wave|] == wave;
      assert waves[..k + 1][..k] == waves[..k];
    }
    assert waves[..|waves|] == waves;
    outcome := Outcome(succeeded, failed, notRun);
  }

  // ---- The async engine, as what one wave adds

  function Skipped(wave: seq<Op>, failedDns: set<string>): seq<Op> {
    if wave == [] then []
    else Skipped(wave[..|wave| - 1], failedDns) +
         if DescendsFromFailed(wave[|wave| - 1].dn, failedDns) then [wave[|wave| - 1]] else []
  }

  function ToRun(wave: seq<Op>, failedDns: set<string>): seq<Op> {
    if wave == [] then []
    else ToRun(wave[..|wave| - 1], failedDns) +
         if DescendsFromFailed(wave[|wave| - 1].dn, failedDns) then [] else [wave[|wave| - 1]]
  }

  function Completed(exec: Exec, ops: seq<Op>): seq<Op> {
    if ops == [] then []
    else Completed(exec, ops[..|ops| - 1]) + if exec(ops[|ops| - 1]).None? then [ops[|ops| - 1]] else []
  }

  function Raised(exec: Exec, ops: seq<Op>): seq<(Op, string)> {
    if ops == [] then []
    else
      var last := ops[|ops| - 1];
      Raised(exec, ops[..|ops| - 1]) + if exec(last).Some? then [(last, exec(last).value)] else []
  }

  function RaisedDns(exec: Exec, ops: seq<Op>): set<string> {
    set op | op in ops && exec(op).Some? :: op.dn
  }

  function AsyncWave(exec: Exec, p: Progress, wave: seq<Op>): Progress {
    var run := ToRun(wave, p.failedDns);
    Progress(Outcome(p.outcome.succeeded + Completed(exec, run),
                     p.outcome.failed + Raised(exec, run),
                     p.outcome.notRun + Skipped(wave, p.failedDns)),
             p.failedDns + RaisedDns(exec, run))
  }

  function AsyncWaves(exec: Exec, waves: seq<seq<Op>>): Progress {
    if waves == [] then NOTHING
    else AsyncWave(exec, AsyncWaves(exec, waves[..|waves| - 1]), waves[|waves| - 1])
  }

  lemma {:induction false} ToRunMember(wave: seq<Op>, failedDns: set<string>)
    ensures forall op :: op in ToRun(wave, failedDns) <==> op in wave && !DescendsFromFailed(op.dn, failedDns)
    ensures forall op :: op in Skipped(wave, failedDns) <==> op in wave && DescendsFromFailed(op.dn, failedDns)
    ensures |ToRun(wave, failedDns)| <= |wave|
    ensures multiset(wave) == multiset(ToRun(wave, failedDns)) + multiset(Skipped(wave, failedDns))
  {
    if wave != [] {
      ToRunMember(wave[..|wave| - 1], failedDns);
      assert wave == wave[..|wave| - 1] + [wave[|wave| - 1]];
    }
  }

  function FailedOps(failed: seq<(Op, string)>): seq<Op> {
    if failed == [] then [] else FailedOps(failed[..|failed| - 1]) + [failed[|failed| - 1].0]
  }

  lemma FailedOpsSnoc(failed: seq<(Op, string)>, last: (Op, string))
    ensures FailedOps(failed + [last]) == FailedOps(failed) + [last.0]
  {
    assert (failed + [last])[..|failed|] == failed;
  }

  /** What one more executed op adds to the two result lists. */
  lemma ResultsSnoc(exec: Exec, ops: seq<Op>, last: Op)
    ensures exec(last).None? ==>
              Completed(exec, ops + [last]) == Completed(exec, ops) + [last] &&
              Raised(exec, ops + [last]) == Raised(exec, ops)
    ensures exec(last).Some? ==>
              Completed(exec, ops + [last]) == Completed(exec, ops) &&
              Raised(exec, ops + [last]) == Raised(exec, ops) + [(last, exec(last).value)] &&
              FailedOps(Raised(exec, ops + [last])) == FailedOps(Raised(exec, ops)) + [last]
  {
    assert (ops + [last])[..|ops|] == ops;
    if exec(last).Some? { FailedOpsSnoc(Raised(exec, ops), (last, exec(last).value)); }
  }

  lemma {:induction false} ResultsConserve(exec: Exec, ops: seq<Op>)
    ensures multiset(ops) == multiset(Completed(exec, ops)) + multiset(FailedOps(Raised(exec, ops)))
  {
    if ops != [] {
      hide *;
      var init, last := ops[..|ops| - 1], ops[|ops| - 1];
      assert ops == init + [last];
      ResultsConserve(exec, init);
      ResultsSnoc(exec, init, last);
    }
  }

  lemma {:induction false} ResultsMember(exec: Exec, ops: seq<Op>)
    ensures forall op :: op in Completed(exec, ops) <==> op in ops && exec(op).None?
    ensures forall op :: op in FailedOps(Raised(exec, ops)) <==> op in ops && exec(op).Some?
  {
    if ops != [] {
      hide *;
      var init, last := ops[..|ops| - 1], ops[|ops| - 1];
      assert ops == init + [last];
      ResultsMember(exec, init);
      ResultsSnoc(exec, init, last);
    }
  }

  lemma {:induction false} FailedOpsConcat(a: seq<(Op, string)>, b: seq<(Op, string)>)
    ensures FailedOps(a + b) == FailedOps(a) + FailedOps(b)
  {
    if b == [] {
      assert a + b == a;
    } else {
      assert (a + b)[..|a + b| - 1] == a + b[..|b| - 1];
      FailedOpsConcat(a, b[..|b| - 1]);
    }
  }

  // ---- The two engines agree

  /** No op of the wave lies at or below an earlier op of it. */
  ghost predicate Independent(wave: seq<Op>) {
    forall i, j :: 0 <= i < j < |wave| ==> !AtOrBelow(wave[j].dn, wave[i].dn)
  }

  /** One more op at the end of a wave, on the async side. */
  lemma AsyncSnoc(exec: Exec, p: Progress, wave: seq<Op>, last: Op)
    ensures var q := AsyncWave(exec, p, wave);
            AsyncWave(exec, p, wave + [last]) ==
            if DescendsFromFailed(last.dn, p.failedDns) then q.(outcome := q.outcome.(notRun := q.outcome.notRun + [last]))
            else match exec(last)
                 case None => q.(outcome := q.outcome.(succeeded := q.outcome.succeeded + [last]))
                 case Some(e) => Progress(q.outcome.(failed := q.outcome.failed + [(last, e)]), q.failedDns + {last.dn})
  {
    hide Completed, Raised, ToRun, Skipped, RaisedDns;
    var run := ToRun(wave, p.failedDns);
    WaveSnoc(wave, last, p.failedDns);
    var Outcome(succeeded, failed, notRun) := p.outcome;
    var skipped := Skipped(wave, p.failedDns);
    if DescendsFromFailed(last.dn, p.failedDns) {
      assert run + [] == run;
      assert notRun + (skipped + [last]) == (notRun + skipped) + [last];
    } else {
      ResultsSnoc(exec, run, last);
      RaisedDnsSnoc(exec, run, last);
      assert skipped + [] == skipped;
      if exec(last).Some? {
        var entry := (last, exec(last).value);
        assert failed + (Raised(exec, run) + [entry]) == (failed + Raised(exec, run)) + [entry];
        assert p.failedDns + (RaisedDns(exec, run) + {last.dn}) == (p.failedDns + RaisedDns(exec, run)) + {last.dn};
      } else {
        assert succeeded + (Completed(exec, run) + [last]) == (succeeded + Completed(exec, run)) + [last];
        assert RaisedDns(exec, run) + {} == RaisedDns(exec, run);
      }
    }
  }

  lemma WaveSnoc(wave: seq<Op>, last: Op, failedDns: set<string>)
    ensures ToRun(wave + [last], failedDns) ==
            ToRun(wave, failedDns) + if DescendsFromFailed(last.dn, failedDns) then [] else [last]
    ensures Skipped(wave + [last], failedDns) ==
            Skipped(wave, failedDns) + if DescendsFromFailed(last.dn, failedDns) then [last] else []
  {
    assert (wave + [last])[..|wave|] == wave;
  }

  lemma RaisedDnsSnoc(exec: Exec, ops: seq<Op>, last: Op)
    ensures RaisedDns(exec, ops + [last]) == RaisedDns(exec, ops) + if exec(last).Some? then {last.dn} else {}
  {
  }

  lemma {:induction false} WaveAgrees(exec: Exec, p: Progress, wave: seq<Op>)
    requires Independent(wave)
    ensures SyncRun(exec, p, wave) == AsyncWave(exec, p, wave)
  {
    if wave != [] {
      var init, last := wave[..|wave| - 1], wave[|wave| - 1];
      assert SyncRun(exec, p, wave) == SyncStep(exec, SyncRun(exec, p, init), last);
      assert wave == init + [last];
      WaveAgrees(exec, p, init);
      AsyncSnoc(exec, p, init, last);
      NoNewBlame(exec, p.failedDns, init, last);
    }
  }

  /** Failures of earlier ops of an independent wave do not concern a later one. */
  lemma NoNewBlame(exec: Exec, failedDns: set<string>, init: seq<Op>, last: Op)
    requires Independent(init + [last])
    ensures DescendsFromFailed(last.dn, failedDns + RaisedDns(exec, ToRun(init, failedDns))) <==>
            DescendsFromFailed(last.dn, failedDns)
  {
    ToRunMember(init, failedDns);
    forall f | f in RaisedDns(exec, ToRun(init, failedDns)) ensures !AtOrBelow(last.dn, f) {
      var op :| op in init && op.dn == f;
      var i :| 0 <= i < |init| && init[i] == op;
      assert (init + [last])[i] == op && (init + [last])[|init|] == last;
    }
  }

  lemma {:induction false} WavesAgree(exec: Exec, waves: seq<seq<Op>>)
    requires forall k :: 0 <= k < |waves| ==> Independent(waves[k])
    ensures SyncWaves(exec, waves) == AsyncWaves(exec, waves)
  {
    if waves != [] {
      WavesAgree(exec, waves[..|waves| - 1]);
      WaveAgrees(exec, AsyncWaves(exec, waves[..|waves| - 1]), waves[|waves| - 1]);
    }
  }

  /** Distinct DNs with balanced brackets: what makes the ops of one depth independent. */
  ghost predicate WellNamed(ops: seq<Op>) {
    && (forall i, j :: 0 <= i < j < |ops| ==> ops[i].dn != ops[j].dn)
    && (forall op :: op in ops ==> Balanced(op.dn))
  }

  lemma {:induction false} OpsAtDistinct(ops: seq<Op>, depth: nat)
    requires forall i, j :: 0 <= i < j < |ops| ==> ops[i].dn != ops[j].dn
    ensures forall i, j :: 0 <= i < j < |OpsAt(ops, depth)| ==> OpsAt(ops, depth)[i].dn != OpsAt(ops, depth)[j].dn
  {
    if ops != [] {
      var init, last := ops[..|ops| - 1], ops[|ops| - 1];
      OpsAtDistinct(init, depth);
      OpsAtMember(init, depth);
      forall op | op in OpsAt(init, depth) ensures op.dn != last.dn {
        var i :| 0 <= i < |init| && init[i] == op;
        assert ops[i] == op;
      }
    }
  }

  lemma WaveIndependent(ops: seq<Op>, depth: nat)
    requires WellNamed(ops)
    ensures Independent(OpsAt(ops, depth))
  {
    var wave := OpsAt(ops, depth);
    OpsAtMember(ops, depth);
    OpsAtDistinct(ops, depth);
    forall i, j | 0 <= i < j < |wave| ensures !AtOrBelow(wave[j].dn, wave[i].dn) {
      assert wave[i] in wave && wave[j] in wave;
      if Below(wave[i].dn, wave[j].dn) { BelowIsDeeper(wave[i].dn, wave[j].dn); }
    }
  }

  lemma WellNamedIndependent(ops: seq<Op>)
    requires WellNamed(ops)
    ensures forall k :: 0 <= k < |Toposort(ops)| ==> Independent(Toposort(ops)[k])
  {
    ToposortSound(ops);
    forall k | 0 <= k < |Toposort(ops)| ensures Independent(Toposort(ops)[k]) {
      WaveIndependent(ops, WaveDepth(Toposort(ops)[k]));
    }
  }
}
