/** When the sync and async engines report the same outcome, and what that outcome says. */
module Agreement {
  import opened Text
  import opened Dn
  import opened Store
  import opened Engine

  // ---- Conservation: every op ends in exactly one list

  function Settled(o: Outcome): multiset<Op> {
    multiset(o.succeeded) + multiset(FailedOps(o.failed)) + multiset(o.notRun)
  }

  lemma SettledStep(exec: Exec, p: Progress, op: Op)
    ensures Settled(SyncStep(exec, p, op).outcome) == Settled(p.outcome) + multiset{op}
  {
    if !DescendsFromFailed(op.dn, p.failedDns) && exec(op).Some? {
      FailedOpsSnoc(p.outcome.failed, (op, exec(op).value));
    }
  }

  lemma {:induction false} SettledRun(exec: Exec, p: Progress, ops: seq<Op>)
    ensures Settled(SyncRun(exec, p, ops).outcome) == Settled(p.outcome) + multiset(ops)
  {
    if ops != [] {
      var init, last := ops[..|ops| - 1], ops[|ops| - 1];
      SettledRun(exec, p, init);
      assert ops == init + [last];
      SettledStep(exec, SyncRun(exec, p, init), last);
    }
  }

  lemma {:induction false} SettledWaves(exec: Exec, waves: seq<seq<Op>>)
    ensures Settled(SyncWaves(exec, waves).outcome) == multiset(Flat(waves))
  {
    if waves != [] {
      SettledWaves(exec, waves[..|waves| - 1]);
      SettledRun(exec, SyncWaves(exec, waves[..|waves| - 1]), waves[|waves| - 1]);
    }
  }

  lemma AsyncSettledWave(exec: Exec, p: Progress, wave: seq<Op>)
    ensures Settled(AsyncWave(exec, p, wave).outcome) == Settled(p.outcome) + multiset(wave)
  {
    var run := ToRun(wave, p.failedDns);
    ToRunMember(wave, p.failedDns);
    ResultsConserve(exec, run);
    FailedOpsConcat(p.outcome.failed, Raised(exec, run));
  }

  lemma {:induction false} AsyncSettledWaves(exec: Exec, waves: seq<seq<Op>>)
    ensures Settled(AsyncWaves(exec, waves).outcome) == multiset(Flat(waves))
  {
    if waves != [] {
      AsyncSettledWaves(exec, waves[..|waves| - 1]);
      AsyncSettledWave(exec, AsyncWaves(exec, waves[..|waves| - 1]), waves[|waves| - 1]);
    }
  }

  /** `succeeded`, `failed` and `not_run` partition the ops in either engine, whatever fails. */
  lemma OutcomePartitions(exec: Exec, ops: seq<Op>)
    ensures Settled(SyncWaves(exec, Toposort(ops)).outcome) == multiset(ops)
    ensures Settled(AsyncWaves(exec, Toposort(ops)).outcome) == multiset(ops)
  {
    SettledWaves(exec, Toposort(ops));
    AsyncSettledWaves(exec, Toposort(ops));
    ToposortSound(ops);
  }

  /** What a run says of its ops is what their requests answered. */
  ghost predicate Truthful(exec: Exec, o: Outcome) {
    && (forall op :: op in o.succeeded ==> exec(op).None?)
    && (forall f :: f in o.failed ==> exec(f.0) == Some(f.1))
  }

  lemma {:induction false} TruthfulRun(exec: Exec, p: Progress, ops: seq<Op>)
    requires Truthful(exec, p.outcome)
    ensures Truthful(exec, SyncRun(exec, p, ops).outcome)
  {
    if ops != [] { TruthfulRun(exec, p, ops[..|ops| - 1]); }
  }

  lemma {:induction false} TruthfulWaves(exec: Exec, waves: seq<seq<Op>>)
    ensures Truthful(exec, SyncWaves(exec, waves).outcome)
  {
    if waves != [] {
      TruthfulWaves(exec, waves[..|waves| - 1]);
      TruthfulRun(exec, SyncWaves(exec, waves[..|waves| - 1]), waves[|waves| - 1]);
    }
  }

  lemma {:induction false} FailedOpIn(failed: seq<(Op, string)>, op: Op)
    ensures op in FailedOps(failed) <==> exists e :: (op, e) in failed
  {
    if failed != [] {
      var init, last := failed[..|failed| - 1], failed[|failed| - 1];
      assert failed == init + [last];
      FailedOpIn(init, op);
      if op == last.0 { assert (op, last.1) in failed; }
    }
  }

  lemma OnceIn(a: multiset<Op>, b: multiset<Op>, c: multiset<Op>, op: Op)
    requires (a + b + c)[op] == 1
    ensures (op in a && op !in b && op !in c) || (op !in a && op in b && op !in c) || (op !in a && op !in b && op in c)
  {
  }

  lemma OnlyOnce(ops: seq<Op>, op: Op)
    requires op in ops && forall i, j :: 0 <= i < j < |ops| ==> ops[i] != ops[j]
    ensures multiset(ops)[op] == 1
  {
    var i :| 0 <= i < |ops| && ops[i] == op;
    assert ops == ops[..i] + [op] + ops[i + 1..];
    assert op !in multiset(ops[..i]) && op !in multiset(ops[i + 1..]);
  }

  /** An op that is not skipped is reported as its request answered: succeeded, or failed with that error. */
  lemma ReportedAsAnswered(exec: Exec, ops: seq<Op>, op: Op)
    requires WellNamed(ops) && op in ops
    ensures var out := SyncWaves(exec, Toposort(ops)).outcome;
            && (op in out.succeeded <==> op !in out.notRun && exec(op).None?)
            && forall e :: (op, e) in out.failed <==> op !in out.notRun && exec(op) == Some(e)
  {
    var out := SyncWaves(exec, Toposort(ops)).outcome;
    OutcomePartitions(exec, ops);
    TruthfulWaves(exec, Toposort(ops));
    OnlyOnce(ops, op);
    OnceIn(multiset(out.succeeded), multiset(FailedOps(out.failed)), multiset(out.notRun), op);
    FailedOpIn(out.failed, op);
  }

  // ---- Exactly when the engines agree

  ghost predicate IndependentWaves(waves: seq<seq<Op>>) {
    forall k :: 0 <= k < |waves| ==> Independent(waves[k])
  }

  ghost predicate SameOutcomes(waves: seq<seq<Op>>) {
    forall exec: Exec :: SyncWaves(exec, waves).outcome == AsyncWaves(exec, waves).outcome
  }

  /** Only `culprit` fails. */
  ghost predicate FailsOnly(exec: Exec, culprit: Op) {
    forall op: Op :: exec(op).Some? <==> op == culprit
  }

  lemma {:induction false} SyncBlame(exec: Exec, culprit: Op, p: Progress, ops: seq<Op>)
    requires FailsOnly(exec, culprit) && p.failedDns <= {culprit.dn}
    ensures p.failedDns <= SyncRun(exec, p, ops).failedDns <= {culprit.dn}
    ensures culprit in ops ==> culprit.dn in SyncRun(exec, p, ops).failedDns
    ensures forall op :: op in p.outcome.notRun ==> op in SyncRun(exec, p, ops).outcome.notRun
  {
    if ops != [] {
      var init, last := ops[..|ops| - 1], ops[|ops| - 1];
      SyncBlame(exec, culprit, p, init);
      assert ops == init + [last];
      assert AtOrBelow(culprit.dn, culprit.dn);
    }
  }

  lemma {:induction false} SyncSkips(exec: Exec, culprit: Op, p: Progress, wave: seq<Op>, i: nat, j: nat)
    requires FailsOnly(exec, culprit) && p.failedDns <= {culprit.dn}
    requires i < j < |wave| && wave[i] == culprit && AtOrBelow(wave[j].dn, culprit.dn)
    ensures wave[j] in SyncRun(exec, p, wave).outcome.notRun
  {
    var init := wave[..|wave| - 1];
    SyncBlame(exec, culprit, p, init);
    if j < |wave| - 1 {
      SyncSkips(exec, culprit, p, init, i, j);
    } else {
      assert init[i] == culprit;
    }
  }

  lemma {:induction false} SyncWavesBlame(exec: Exec, culprit: Op, waves: seq<seq<Op>>)
    requires FailsOnly(exec, culprit)
    ensures SyncWaves(exec, waves).failedDns <= {culprit.dn}
  {
    if waves != [] {
      SyncWavesBlame(exec, culprit, waves[..|waves| - 1]);
      SyncBlame(exec, culprit, SyncWaves(exec, waves[..|waves| - 1]), waves[|waves| - 1]);
    }
  }

  lemma {:induction false} SyncWavesSkip(exec: Exec, culprit: Op, waves: seq<seq<Op>>, k: nat, i: nat, j: nat)
    requires FailsOnly(exec, culprit) && k < |waves|
    requires i < j < |waves[k]| && waves[k][i] == culprit && AtOrBelow(waves[k][j].dn, culprit.dn)
    ensures waves[k][j] in SyncWaves(exec, waves).outcome.notRun
  {
    var before: seq<seq<Op>>, last: seq<Op> := waves[..|waves| - 1], waves[|waves| - 1];
    SyncWavesBlame(exec, culprit, before);
    if k < |waves| - 1 {
      SyncWavesSkip(exec, culprit, before, k, i, j);
      SyncBlame(exec, culprit, SyncWaves(exec, before), last);
    } else {
      SyncSkips(exec, culprit, SyncWaves(exec, before), last, i, j);
    }
  }

  /** The async engine only blames ops of earlier waves: none of the culprit's own wave is skipped. */
  lemma {:induction false} AsyncSparesTheWave(exec: Exec, culprit: Op, waves: seq<seq<Op>>, depth: nat)
    requires FailsOnly(exec, culprit) && Depth(culprit.dn) == depth
    requires forall k :: 0 <= k < |waves| ==> waves[k] != [] && forall op :: op in waves[k] ==> Depth(op.dn) == WaveDepth(waves[k])
    requires forall k, l :: 0 <= k < l < |waves| ==> WaveDepth(waves[k]) < WaveDepth(waves[l])
    ensures forall op :: op in AsyncWaves(exec, waves).outcome.notRun ==> Depth(op.dn) > depth
    ensures AsyncWaves(exec, waves).failedDns != {} ==> waves != [] && depth <= WaveDepth(waves[|waves| - 1])
  {
    if waves != [] {
      var before: seq<seq<Op>>, last: seq<Op> := waves[..|waves| - 1], waves[|waves| - 1];
      AsyncSparesTheWave(exec, culprit, before, depth);
      var p := AsyncWaves(exec, before);
      ToRunMember(last, p.failedDns);
      forall op | op in Skipped(last, p.failedDns) ensures Depth(op.dn) > depth {
        assert p.failedDns != {};
      }
      forall dn | dn in RaisedDns(exec, ToRun(last, p.failedDns)) ensures depth <= WaveDepth(last) {
        assert culprit in last;
      }
    }
  }

  lemma LayersHaveOneDepth(ops: seq<Op>)
    ensures forall k :: 0 <= k < |Toposort(ops)| ==>
              Toposort(ops)[k] != [] &&
              forall op :: op in Toposort(ops)[k] ==> op in ops && Depth(op.dn) == WaveDepth(Toposort(ops)[k])
    ensures forall k, l :: 0 <= k < l < |Toposort(ops)| ==> WaveDepth(Toposort(ops)[k]) < WaveDepth(Toposort(ops)[l])
  {
    ToposortSound(ops);
    forall k | 0 <= k < |Toposort(ops)|
      ensures forall op :: op in Toposort(ops)[k] ==> op in ops && Depth(op.dn) == WaveDepth(Toposort(ops)[k])
    {
      OpsAtMember(ops, WaveDepth(Toposort(ops)[k]));
    }
  }

  lemma DependentWaveDisagrees(ops: seq<Op>, k: nat)
    requires k < |Toposort(ops)| && !Independent(Toposort(ops)[k])
    ensures exists exec: Exec :: SyncWaves(exec, Toposort(ops)).outcome != AsyncWaves(exec, Toposort(ops)).outcome
  {
    hide SyncWaves, AsyncWaves, Toposort, Depth;
    var waves: seq<seq<Op>> := Toposort(ops);
    var i, j :| 0 <= i < j < |waves[k]| && AtOrBelow(waves[k][j].dn, waves[k][i].dn);
    var culprit := waves[k][i];
    var exec: Exec := (op: Op) => if op == culprit then Some("") else None;
    LayersHaveOneDepth(ops);
    assert culprit in waves[k] && waves[k][j] in waves[k];
    SyncWavesSkip(exec, culprit, waves, k, i, j);
    AsyncSparesTheWave(exec, culprit, waves, Depth(culprit.dn));
    assert SyncWaves(exec, waves).outcome != AsyncWaves(exec, waves).outcome;
  }

  /** The engines agree on every outcome exactly when no wave holds an op at or below an earlier one. */
  lemma EnginesAgreeExactly(ops: seq<Op>)
    ensures SameOutcomes(Toposort(ops)) <==> IndependentWaves(Toposort(ops))
  {
    if IndependentWaves(Toposort(ops)) {
      forall exec: Exec ensures SyncWaves(exec, Toposort(ops)).outcome == AsyncWaves(exec, Toposort(ops)).outcome {
        WavesAgree(exec, Toposort(ops));
      }
    } else {
      var k :| 0 <= k < |Toposort(ops)| && !Independent(Toposort(ops)[k]);
      DependentWaveDisagrees(ops, k);
    }
  }

  /** Declaring one DN twice is enough to tell the engines apart. */
  lemma RepeatedDnDisagrees(op: Op)
    ensures !SameOutcomes(Toposort([op, op]))
  {
    var d := Depth(op.dn);
    OpsAtSnoc([], op, d);
    OpsAtSnoc([op], op, d);
    assert [] + [op] == [op] && [op] + [op] == [op, op];
    hide OpsAt, Toposort, Depth, SyncWaves, AsyncWaves;
    ToposortSound([op, op]);
    LayersHaveOneDepth([op, op]);
    assert op in [op, op];
    var k :| 0 <= k < |Toposort([op, op])| && op in Toposort([op, op])[k];
    assert Toposort([op, op])[k] == [op, op];
    assert AtOrBelow([op, op][1].dn, [op, op][0].dn);
    EnginesAgreeExactly([op, op]);
  }

  // ---- What the outcome means

  lemma {:induction false} FailedDnsAreFailedOps(exec: Exec, waves: seq<seq<Op>>)
    ensures forall dn :: dn in AsyncWaves(exec, waves).failedDns <==>
                         exists f :: f in FailedOps(AsyncWaves(exec, waves).outcome.failed) && f.dn == dn
  {
    if waves != [] {
      var p := AsyncWaves(exec, waves[..|waves| - 1]);
      FailedDnsAreFailedOps(exec, waves[..|waves| - 1]);
      var run := ToRun(waves[|waves| - 1], p.failedDns);
      ResultsMember(exec, run);
      FailedOpsConcat(p.outcome.failed, Raised(exec, run));
    }
  }

  ghost predicate NamedFrom(dn: string, waves: seq<seq<Op>>, n: nat) {
    exists k, op: Op :: n <= k < |waves| && op in waves[k] && op.dn == dn
  }

  lemma WaveFailures(exec: Exec, waves: seq<seq<Op>>, last: seq<Op>, dn: string)
    ensures dn in AsyncWaves(exec, waves + [last]).failedDns ==>
              dn in AsyncWaves(exec, waves).failedDns || NamedFrom(dn, waves + [last], |waves|)
    ensures dn in AsyncWaves(exec, waves).failedDns ==> dn in AsyncWaves(exec, waves + [last]).failedDns
  {
    assert (waves + [last])[..|waves|] == waves;
    var p := AsyncWaves(exec, waves);
    ToRunMember(last, p.failedDns);
    assert (waves + [last])[|waves|] == last;
  }

  lemma {:induction false} FailuresComeFromWaves(exec: Exec, waves: seq<seq<Op>>, n: nat, dn: string)
    requires n <= |waves|
    ensures dn in AsyncWaves(exec, waves[..n]).failedDns ==> dn in AsyncWaves(exec, waves).failedDns
    ensures dn in AsyncWaves(exec, waves).failedDns ==> dn in AsyncWaves(exec, waves[..n]).failedDns || NamedFrom(dn, waves, n)
  {
    if n == |waves| {
      assert waves[..n] == waves;
    } else {
      var before, last := waves[..|waves| - 1], waves[|waves| - 1];
      assert waves == before + [last] && before[..n] == waves[..n];
      hide AsyncWaves;
      FailuresComeFromWaves(exec, before, n, dn);
      WaveFailures(exec, before, last, dn);
      if NamedFrom(dn, before, n) {
        var k: int, op: Op :| n <= k < |before| && op in before[k] && op.dn == dn;
        assert op in waves[k];
      }
    }
  }

  lemma {:induction false} SkippedComesFromWave(exec: Exec, waves: seq<seq<Op>>, op: Op)
    ensures op in AsyncWaves(exec, waves).outcome.notRun <==>
            exists k :: 0 <= k < |waves| && op in waves[k] && DescendsFromFailed(op.dn, AsyncWaves(exec, waves[..k]).failedDns)
  {
    if waves != [] {
      var before: seq<seq<Op>>, last: seq<Op> := waves[..|waves| - 1], waves[|waves| - 1];
      SkippedComesFromWave(exec, before, op);
      var p := AsyncWaves(exec, before);
      ToRunMember(last, p.failedDns);
      forall k | 0 <= k < |before| ensures before[..k] == waves[..k] && before[k] == waves[k] {}
      if op in Skipped(last, p.failedDns) { assert waves[..|waves| - 1] == before; }
      if k :| 0 <= k < |before| && op in before[k] && DescendsFromFailed(op.dn, AsyncWaves(exec, before[..k]).failedDns) {
        assert op in waves[k] && DescendsFromFailed(op.dn, AsyncWaves(exec, waves[..k]).failedDns);
      }
      if k :| 0 <= k < |waves| && op in waves[k] && DescendsFromFailed(op.dn, AsyncWaves(exec, waves[..k]).failedDns) {
        if k < |before| {
          assert op in before[k] && DescendsFromFailed(op.dn, AsyncWaves(exec, before[..k]).failedDns);
        }
      }
    }
  }

  /** On distinct balanced DNs an op is skipped exactly when one of its proper ancestors failed. */
  lemma NotRunIffAncestorFailed(exec: Exec, ops: seq<Op>, op: Op)
    requires WellNamed(ops) && op in ops
    ensures var out := SyncWaves(exec, Toposort(ops)).outcome;
            op in out.notRun <==> exists f :: f in FailedOps(out.failed) && Below(f.dn, op.dn)
  {
    var waves: seq<seq<Op>> := Toposort(ops);
    WellNamedIndependent(ops);
    WavesAgree(exec, waves);
    ToposortSound(ops);
    LayersHaveOneDepth(ops);
    var out := AsyncWaves(exec, waves).outcome;
    FailedDnsAreFailedOps(exec, waves);
    SkippedComesFromWave(exec, waves, op);
    if op in out.notRun {
      var k :| 0 <= k < |waves| && op in waves[k] && DescendsFromFailed(op.dn, AsyncWaves(exec, waves[..k]).failedDns);
      EarlierFailureIsAncestor(exec, ops, op, k);
    }
    if f :| f in FailedOps(out.failed) && Below(f.dn, op.dn) {
      var k :| 0 <= k < |waves| && op in waves[k];
      FailedAncestorSkips(exec, ops, op, k, f.dn);
    }
  }

  lemma EarlierFailureIsAncestor(exec: Exec, ops: seq<Op>, op: Op, k: nat)
    requires k < |Toposort(ops)| && op in Toposort(ops)[k]
    requires DescendsFromFailed(op.dn, AsyncWaves(exec, Toposort(ops)[..k]).failedDns)
    ensures exists dn :: dn in AsyncWaves(exec, Toposort(ops)).failedDns && Below(dn, op.dn)
  {
    LayersHaveOneDepth(ops);
    var waves: seq<seq<Op>> := Toposort(ops);
    assert AsyncWaves(exec, []).failedDns == {};
    hide AsyncWaves, Toposort, Depth;
    var dn :| dn in AsyncWaves(exec, waves[..k]).failedDns && AtOrBelow(op.dn, dn);
    FailuresComeFromWaves(exec, waves, k, dn);
    FailuresComeFromWaves(exec, waves[..k], 0, dn);
    assert waves[..k][..0] == [];
    var l: int, f: Op :| 0 <= l < k && f in waves[..k][l] && f.dn == dn;
    assert waves[l] == waves[..k][l] && Depth(dn) < Depth(op.dn);
  }

  lemma NamedFromIsDeep(ops: seq<Op>, dn: string, n: nat)
    requires n < |Toposort(ops)| && Toposort(ops)[n] != [] && NamedFrom(dn, Toposort(ops), n)
    ensures Depth(dn) >= WaveDepth(Toposort(ops)[n])
  {
    hide Toposort, Depth;
    LayersHaveOneDepth(ops);
    var k: int, op: Op :| n <= k < |Toposort(ops)| && op in Toposort(ops)[k] && op.dn == dn;
  }

  lemma FailedAncestorSkips(exec: Exec, ops: seq<Op>, op: Op, k: nat, dn: string)
    requires WellNamed(ops) && k < |Toposort(ops)| && op in Toposort(ops)[k]
    requires dn in AsyncWaves(exec, Toposort(ops)).failedDns && Below(dn, op.dn)
    ensures DescendsFromFailed(op.dn, AsyncWaves(exec, Toposort(ops)[..k]).failedDns)
  {
    hide AsyncWaves, Toposort, Depth;
    LayersHaveOneDepth(ops);
    FailuresComeFromWaves(exec, Toposort(ops), k, dn);
    assert Balanced(dn) by { FailedDnIsAnOp(exec, ops, dn); }
    BelowIsDeeper(dn, op.dn);
    if NamedFrom(dn, Toposort(ops), k) { NamedFromIsDeep(ops, dn, k); }
    assert AtOrBelow(op.dn, dn);
  }

  lemma FailedDnIsAnOp(exec: Exec, ops: seq<Op>, dn: string)
    requires dn in AsyncWaves(exec, Toposort(ops)).failedDns
    ensures exists op :: op in ops && op.dn == dn
  {
    assert AsyncWaves(exec, []).failedDns == {};
    hide AsyncWaves, Toposort, Depth;
    LayersHaveOneDepth(ops);
    FailuresComeFromWaves(exec, Toposort(ops), 0, dn);
    assert Toposort(ops)[..0] == [];
    var k: int, op: Op :| 0 <= k < |Toposort(ops)| && op in Toposort(ops)[k] && op.dn == dn;
  }
}
