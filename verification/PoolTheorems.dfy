/** What every interleaving of the worker pool guarantees, and the pool written as a program. */
module PoolTheorems {
  import opened Text
  import opened Dn
  import opened Store
  import opened Engine
  import opened Agreement
  import opened WavePool

  // ---- Confluence

  /** However the workers interleave, a finished run has booked what the waves alone determine. */
  lemma EveryScheduleBooksTheSame(c: Config, steps: seq<Step>)
    requires Run(c, steps).Some? && Finished(c, Run(c, steps).value)
    ensures var s := Run(c, steps).value;
            && s.progress == AsyncWaves(c.exec, Waves(c))
            && s.store == Effects(c.store, s.landed)
            && multiset(s.landed) == multiset(s.progress.outcome.succeeded)
  {
    Reachable(c, steps);
    assert Waves(c)[..|Waves(c)|] == Waves(c);
  }

  /** On distinct balanced DNs every schedule reports, list by list, what the sync loop reports. */
  lemma AsyncMatchesSync(c: Config, steps: seq<Step>)
    requires WellNamed(c.ops)
    requires Run(c, steps).Some? && Finished(c, Run(c, steps).value)
    ensures Run(c, steps).value.progress.outcome == SyncWaves(c.exec, Toposort(c.ops)).outcome
  {
    EveryScheduleBooksTheSame(c, steps);
    WellNamedIndependent(c.ops);
    WavesAgree(c.exec, Waves(c));
  }

  // ---- Safety of each request

  function InFlight(workers: seq<Worker>): nat {
    if workers == [] then 0
    else InFlight(workers[..|workers| - 1]) + if workers[|workers| - 1].Busy? then 1 else 0
  }

  lemma {:induction false} InFlightAtMost(workers: seq<Worker>)
    ensures InFlight(workers) <= |workers|
  {
    if workers != [] { InFlightAtMost(workers[..|workers| - 1]); }
  }

  /** Never more requests in flight than the bound the caller passed. */
  lemma BoundedInFlight(c: Config, steps: seq<Step>)
    requires Run(c, steps).Some? && Run(c, steps).value.pool.Some?
    ensures InFlight(Run(c, steps).value.pool.value.workers) <= c.maxConcurrent
  {
    Reachable(c, steps);
    InFlightAtMost(Run(c, steps).value.pool.value.workers);
  }

  predicate Concluded(op: Op, o: Outcome) {
    op in o.succeeded || op in FailedOps(o.failed) || op in o.notRun
  }

  lemma WaveConcludes(exec: Exec, p: Progress, wave: seq<Op>, op: Op)
    requires op in wave || Concluded(op, p.outcome)
    ensures Concluded(op, AsyncWave(exec, p, wave).outcome)
  {
    var run := ToRun(wave, p.failedDns);
    FailedOpsConcat(p.outcome.failed, Raised(exec, run));
    ToRunMember(wave, p.failedDns);
    ResultsMember(exec, run);
    hide ToRun, Skipped, Completed, Raised, RaisedDns, FailedOps;
  }

  lemma {:induction false} WavesConclude(exec: Exec, waves: seq<seq<Op>>, k: nat, op: Op)
    requires k < |waves| && op in waves[k]
    ensures Concluded(op, AsyncWaves(exec, waves).outcome)
  {
    var before, last := waves[..|waves| - 1], waves[|waves| - 1];
    hide AsyncWave, Concluded;
    if k < |before| { WavesConclude(exec, before, k, op); }
    WaveConcludes(exec, AsyncWaves(exec, before), last, op);
  }

  lemma ShallowerWave(ops: seq<Op>, op: Op, pulled: Op, n: nat) returns (k: nat)
    requires n < |Toposort(ops)| && pulled in Toposort(ops)[n]
    requires op in ops && Depth(op.dn) < Depth(pulled.dn)
    ensures k < n && op in Toposort(ops)[k]
  {
    hide Toposort, Depth;
    ToposortSound(ops);
    LayersHaveOneDepth(ops);
    k :| 0 <= k < |Toposort(ops)| && op in Toposort(ops)[k];
  }

  lemma PullableInWave(c: Config, s: State)
    requires Inv(c, s) && s.pool.Some? && s.pool.value.next < |s.pool.value.toRun|
    ensures s.pool.value.toRun[s.pool.value.next] in Waves(c)[s.done]
    ensures s.progress.outcome.succeeded == AsyncWaves(c.exec, Waves(c)[..s.done]).outcome.succeeded
    ensures s.progress.outcome.failed == AsyncWaves(c.exec, Waves(c)[..s.done]).outcome.failed
    ensures AsyncWaves(c.exec, Waves(c)[..s.done]).outcome.notRun <= s.progress.outcome.notRun
  {
    hide Toposort, AsyncWaves, Effects, SlotOk, Skipped;
    ToRunMember(Waves(c)[s.done], AsyncWaves(c.exec, Waves(c)[..s.done]).failedDns);
  }

  /** When a request leaves, every shallower op has already concluded. */
  lemma SentAfterShallower(c: Config, steps: seq<Step>, w: nat, op: Op)
    requires Run(c, steps + [Pull(w)]).Some?
    requires op in c.ops
    ensures var s := Run(c, steps).value;
            var pulled := s.pool.value.toRun[s.pool.value.next];
            Depth(op.dn) < Depth(pulled.dn) ==> Concluded(op, s.progress.outcome)
  {
    assert (steps + [Pull(w)])[..|steps|] == steps;
    Reachable(c, steps);
    var s := Run(c, steps).value;
    if Depth(op.dn) < Depth(s.pool.value.toRun[s.pool.value.next].dn) {
      PullableInWave(c, s);
      hide Toposort, AsyncWaves, Depth, Run, Inv;
      var k := ShallowerWave(c.ops, op, s.pool.value.toRun[s.pool.value.next], s.done);
      assert Waves(c)[..s.done][k] == Waves(c)[k];
      WavesConclude(c.exec, Waves(c)[..s.done], k, op);
    }
  }

  /** The ops a report says were asked of the controller. */
  function Asked(o: Outcome): multiset<Op> {
    multiset(o.succeeded) + multiset(FailedOps(o.failed))
  }

  /** What has left: the ops booked as asked, and those of the wave that are pulled. */
  ghost predicate SentSoFar(s: State) {
    multiset(s.sent) == Asked(s.progress.outcome) +
      if s.pool.Some? && s.pool.value.next <= |s.pool.value.toRun| then multiset(s.pool.value.toRun[..s.pool.value.next]) else multiset{}
  }

  lemma PullSends(s: State, w: nat)
    requires SentSoFar(s) && PullStep(s, w).Some?
    ensures SentSoFar(PullStep(s, w).value)
  {
    var p := s.pool.value;
    assert p.toRun[..p.next + 1] == p.toRun[..p.next] + [p.toRun[p.next]];
    hide Asked;
  }

  lemma ClosedSlots(exec: Exec, p: Pool)
    requires PoolOk(exec, p) && Drained(p)
    ensures |p.toRun| == |p.slots|
    ensures multiset(p.toRun) == multiset(SlotOk(p.toRun, p.slots)) + multiset(FailedOps(SlotFailed(p.toRun, p.slots)))
  {
    DrainedIsFull(exec, p);
    assert |p.toRun| == |p.slots|;
    hide *;
    FullSlots(exec, p.toRun, p.slots);
    ResultsConserve(exec, p.toRun);
  }

  lemma ClosingPool(c: Config, s: State)
    requires Inv(c, s) && CloseStep(s).Some?
    ensures s.pool.Some? && PoolOk(c.exec, s.pool.value) && Drained(s.pool.value)
  {
    hide PoolOk, Drained, Booked, Effects, SlotOk, SlotFailed;
  }

  lemma CloseSends(c: Config, s: State)
    requires Inv(c, s) && SentSoFar(s) && CloseStep(s).Some?
    ensures SentSoFar(CloseStep(s).value)
  {
    hide *;
    ClosingPool(c, s);
    CloseParts(s);
    var p := s.pool.value;
    ClosedSlots(c.exec, p);
    AskedMore(s.progress.outcome, SlotOk(p.toRun, p.slots), SlotFailed(p.toRun, p.slots));
    SentIs(s);
    SentIs(CloseStep(s).value);
  }

  lemma AskedMore(o: Outcome, ok: seq<Op>, failed: seq<(Op, string)>)
    ensures Asked(o.(succeeded := o.succeeded + ok, failed := o.failed + failed)) == Asked(o) + multiset(ok) + multiset(FailedOps(failed))
  {
    FailedOpsConcat(o.failed, failed);
    hide FailedOps;
  }

  lemma CloseParts(s: State)
    requires CloseStep(s).Some?
    ensures s.pool.Some? && s.pool.value.next == |s.pool.value.toRun| == |s.pool.value.slots|
    ensures var p, out, after := s.pool.value, s.progress.outcome, CloseStep(s).value;
            after.sent == s.sent && after.pool == None &&
            after.progress.outcome == out.(succeeded := out.succeeded + SlotOk(p.toRun, p.slots), failed := out.failed + SlotFailed(p.toRun, p.slots))
  {
    hide SlotOk, SlotFailed;
  }

  lemma SentIs(s: State)
    ensures s.pool.None? ==> (SentSoFar(s) <==> multiset(s.sent) == Asked(s.progress.outcome))
    ensures s.pool.Some? && s.pool.value.next == |s.pool.value.toRun| ==>
              (SentSoFar(s) <==> multiset(s.sent) == Asked(s.progress.outcome) + multiset(s.pool.value.toRun))
  {
    if s.pool.Some? && s.pool.value.next == |s.pool.value.toRun| { assert s.pool.value.toRun[..s.pool.value.next] == s.pool.value.toRun; }
    hide Asked;
  }

  lemma OthersSend(c: Config, s: State, step: Step)
    requires SentSoFar(s) && (step.Open? || step.Land?) && Next(c, s, step).Some?
    ensures SentSoFar(Next(c, s, step).value)
  {
    hide Toposort, ToRun, Skipped, Effect, FailedOps;
  }

  lemma {:induction false} SendsSoFar(c: Config, steps: seq<Step>)
    requires Run(c, steps).Some?
    ensures SentSoFar(Run(c, steps).value)
  {
    if steps != [] {
      var init, last := steps[..|steps| - 1], steps[|steps| - 1];
      SendsSoFar(c, init);
      Reachable(c, init);
      var s := Run(c, init).value;
      hide Inv, SentSoFar, OpenStep, PullStep, LandStep, CloseStep;
      match last
      case Pull(w) => PullSends(s, w);
      case Close => CloseSends(c, s);
      case _ => OthersSend(c, s, last);
    }
  }

  /** A finished schedule has sent each op it reports as succeeded or failed, once, and no other. */
  lemma SentExactly(c: Config, steps: seq<Step>)
    requires Run(c, steps).Some? && Finished(c, Run(c, steps).value)
    ensures multiset(Run(c, steps).value.sent) == Asked(Run(c, steps).value.progress.outcome)
  {
    SendsSoFar(c, steps);
  }

  /** The wave a sent op was let through in. */
  ghost predicate LetThrough(c: Config, op: Op, k: nat) {
    k < |Waves(c)| && op in ToRun(Waves(c)[k], AsyncWaves(c.exec, Waves(c)[..k]).failedDns)
  }

  lemma PulledIsLetThrough(c: Config, s: State, w: nat)
    requires Inv(c, s) && PullStep(s, w).Some?
    ensures LetThrough(c, s.pool.value.toRun[s.pool.value.next], s.done)
  {
  }

  lemma SentByPulling(c: Config, s: State, step: Step, op: Op)
    requires Next(c, s, step).Some? && op in Next(c, s, step).value.sent && op !in s.sent
    ensures step.Pull? && PullStep(s, step.worker).Some? && op == s.pool.value.toRun[s.pool.value.next]
  {
    hide Toposort, ToRun, Skipped, SlotOk, SlotFailed, Effect;
  }

  lemma {:induction false} SentIsLetThrough(c: Config, steps: seq<Step>, op: Op)
    requires Run(c, steps).Some? && op in Run(c, steps).value.sent
    ensures exists k :: LetThrough(c, op, k)
  {
    var init, last := steps[..|steps| - 1], steps[|steps| - 1];
    var s := Run(c, init).value;
    if op in s.sent {
      SentIsLetThrough(c, init, op);
    } else {
      Reachable(c, init);
      assert Next(c, s, last).Some? && op in Next(c, s, last).value.sent;
      hide Run, Next, Inv, PullStep, LetThrough;
      SentByPulling(c, s, last, op);
      PulledIsLetThrough(c, s, last.worker);
    }
  }

  /** No request is ever sent below the DN of a request that failed. */
  lemma NothingSentBelowAFailure(c: Config, steps: seq<Step>, failed: Op, op: Op)
    requires Run(c, steps).Some?
    requires failed in Run(c, steps).value.sent && op in Run(c, steps).value.sent
    requires c.exec(failed).Some? && Balanced(failed.dn)
    ensures !Below(failed.dn, op.dn)
  {
    SentIsLetThrough(c, steps, failed);
    SentIsLetThrough(c, steps, op);
    var l :| LetThrough(c, failed, l);
    var k :| LetThrough(c, op, k);
    if Below(failed.dn, op.dn) {
      BelowIsDeeper(failed.dn, op.dn);
      FailureReachesLaterWaves(c, failed, l, op, k);
    }
  }

  lemma LetThroughWave(c: Config, op: Op, k: nat)
    requires LetThrough(c, op, k)
    ensures op in Waves(c)[k] && !DescendsFromFailed(op.dn, AsyncWaves(c.exec, Waves(c)[..k]).failedDns)
    ensures c.exec(op).Some? ==> op.dn in AsyncWaves(c.exec, Waves(c)[..k + 1]).failedDns
  {
    hide Toposort;
    var p := AsyncWaves(c.exec, Waves(c)[..k]);
    ToRunMember(Waves(c)[k], p.failedDns);
    assert Waves(c)[..k + 1][..k] == Waves(c)[..k];
    assert AsyncWaves(c.exec, Waves(c)[..k + 1]) == AsyncWave(c.exec, p, Waves(c)[k]);
  }

  lemma EarlierWave(c: Config, a: Op, l: nat, b: Op, k: nat)
    requires l < |Waves(c)| && k < |Waves(c)| && a in Waves(c)[l] && b in Waves(c)[k] && Depth(a.dn) < Depth(b.dn)
    ensures l < k
  {
    hide Toposort, Depth;
    LayersHaveOneDepth(c.ops);
  }

  lemma StillDescends(dn: string, failed: string, dns: set<string>)
    requires failed in dns && !DescendsFromFailed(dn, dns)
    ensures !AtOrBelow(dn, failed)
  {
  }

  lemma FailureReachesLaterWaves(c: Config, failed: Op, l: nat, op: Op, k: nat)
    requires LetThrough(c, failed, l) && LetThrough(c, op, k)
    requires c.exec(failed).Some? && Depth(failed.dn) < Depth(op.dn)
    ensures !AtOrBelow(op.dn, failed.dn)
  {
    assert l < |Waves(c)| && k < |Waves(c)|;
    hide *;
    LetThroughWave(c, failed, l);
    LetThroughWave(c, op, k);
    EarlierWave(c, failed, l, op, k);
    FailuresComeFromWaves(c.exec, Waves(c)[..k], l + 1, failed.dn);
    assert Waves(c)[..k][..l + 1] == Waves(c)[..l + 1];
    StillDescends(op.dn, failed.dn, AsyncWaves(c.exec, Waves(c)[..k]).failedDns);
  }

  // ---- Every schedule ends, and none gets stuck

  function WavesCost(waves: seq<seq<Op>>): nat {
    if waves == [] then 0 else 2 * |waves[0]| + 2 + WavesCost(waves[1..])
  }

  function Cost(c: Config, s: State): int
    requires s.done <= |Waves(c)| && (s.pool.Some? ==> s.done < |Waves(c)|)
  {
    match s.pool
    case None => WavesCost(Waves(c)[s.done..])
    case Some(p) => WavesCost(Waves(c)[s.done + 1..]) + 2 * (|p.toRun| - p.next) + InFlight(p.workers) + 1
  }

  lemma {:induction false} InFlightUpdate(workers: seq<Worker>, w: nat, v: Worker)
    requires w < |workers| && workers[w].Busy? != v.Busy?
    ensures InFlight(workers[w := v]) == InFlight(workers) + if v.Busy? then 1 else -1
  {
    var init := workers[..|workers| - 1];
    if w < |init| {
      assert workers[w := v][..|init|] == init[w := v];
      InFlightUpdate(init, w, v);
    } else {
      assert workers[w := v][..|init|] == init;
    }
  }

  lemma {:induction false} NoneInFlight(n: nat)
    ensures InFlight(seq(n, _ => Idle)) == 0
  {
    if n > 0 {
      assert seq(n, _ => Idle)[..n - 1] == seq(n - 1, _ => Idle);
      NoneInFlight(n - 1);
    }
  }

  lemma OpenCosts(c: Config, s: State)
    requires Inv(c, s) && OpenStep(c, s).Some? && Inv(c, OpenStep(c, s).value)
    ensures 0 <= Cost(c, OpenStep(c, s).value) < Cost(c, s)
  {
    hide Toposort, AsyncWaves, SlotOk, SlotFailed, Effects, Effect, ToRun, Skipped, InFlight;
    var wave := Waves(c)[s.done];
    ToRunMember(wave, s.progress.failedDns);
    assert Waves(c)[s.done..][1..] == Waves(c)[s.done + 1..];
    NoneInFlight(Min(c.maxConcurrent, |ToRun(wave, s.progress.failedDns)|));
  }

  lemma WorkerCosts(c: Config, s: State, w: nat)
    requires Inv(c, s)
    ensures PullStep(s, w).Some? ==> 0 <= Cost(c, PullStep(s, w).value) < Cost(c, s)
    ensures LandStep(c, s, w).Some? ==> 0 <= Cost(c, LandStep(c, s, w).value) < Cost(c, s)
  {
    hide Toposort, AsyncWaves, SlotOk, SlotFailed, Effects, Effect, ToRun, Skipped, InFlight, WavesCost;
    if PullStep(s, w).Some? { InFlightUpdate(s.pool.value.workers, w, Busy(s.pool.value.next)); }
    if LandStep(c, s, w).Some? { InFlightUpdate(s.pool.value.workers, w, Idle); }
  }

  lemma CloseCosts(c: Config, s: State)
    requires Inv(c, s) && CloseStep(s).Some? && Inv(c, CloseStep(s).value)
    ensures 0 <= Cost(c, CloseStep(s).value) < Cost(c, s)
  {
    hide Toposort, AsyncWaves, SlotOk, SlotFailed, Effects, Effect, ToRun, Skipped, InFlight, WavesCost;
  }

  lemma StepCosts(c: Config, s: State, step: Step)
    requires Inv(c, s) && Next(c, s, step).Some?
    ensures Inv(c, Next(c, s, step).value)
    ensures 0 <= Cost(c, Next(c, s, step).value) < Cost(c, s)
  {
    StepKeepsInv(c, s, step);
    assert s.done <= |Waves(c)| && (s.pool.Some? ==> s.done < |Waves(c)|) by { hide Toposort, AsyncWaves; }
    hide Cost, OpenStep, PullStep, LandStep, CloseStep, Waves;
    match step
    case Open => OpenCosts(c, s);
    case Pull(w) => WorkerCosts(c, s, w);
    case Land(w) => WorkerCosts(c, s, w);
    case Close => CloseCosts(c, s);
  }

  /** Every schedule is finite: its length is bounded before the run starts. */
  lemma {:induction false} SchedulesEnd(c: Config, steps: seq<Step>)
    requires Run(c, steps).Some?
    ensures Inv(c, Run(c, steps).value)
    ensures 0 <= Cost(c, Run(c, steps).value)
    ensures |steps| + Cost(c, Run(c, steps).value) <= WavesCost(Waves(c))
  {
    Reachable(c, steps);
    if steps == [] {
      assert Waves(c)[0..] == Waves(c);
    } else {
      SchedulesEnd(c, steps[..|steps| - 1]);
      StepCosts(c, Run(c, steps[..|steps| - 1]).value, steps[|steps| - 1]);
    }
  }

  /** With at least one worker, a run that is not finished can always move. */
  lemma NeverStuck(c: Config, steps: seq<Step>)
    requires Run(c, steps).Some? && !Finished(c, Run(c, steps).value)
    requires c.maxConcurrent >= 1
    ensures exists step :: Run(c, steps + [step]).Some?
  {
    Reachable(c, steps);
    var s := Run(c, steps).value;
    forall step ensures (steps + [step])[..|steps|] == steps {}
    var step := EnabledStep(c, s);
    assert Run(c, steps + [step]).Some?;
  }

  lemma EnabledStep(c: Config, s: State) returns (step: Step)
    requires Inv(c, s) && !Finished(c, s) && c.maxConcurrent >= 1
    ensures Next(c, s, step).Some?
  {
    hide Toposort, AsyncWaves, SlotOk, SlotFailed, Effects, Effect, ToRun, Skipped;
    if s.pool.None? {
      step := Open;
    } else {
      var p := s.pool.value;
      if w :| 0 <= w < |p.workers| && p.workers[w].Busy? {
        step := Land(w);
      } else if p.next < |p.toRun| {
        step := Pull(0);
      } else {
        step := Close;
      }
    }
  }

  // ---- The pool as a program

  lemma FreshPool(exec: Exec, toRun: seq<Op>, size: nat)
    ensures PoolOk(exec, Pool(toRun, 0, seq(|toRun|, _ => None), seq(size, _ => Idle)))
  {
  }

  lemma PoolShape(exec: Exec, p: Pool, w: nat)
    requires PoolOk(exec, p)
    ensures |p.slots| == |p.toRun| && p.next <= |p.toRun|
    ensures w < |p.workers| && p.workers[w].Busy? ==> p.workers[w].index < |p.toRun|
  {
  }

  method RunWave(exec: Exec, toRun: seq<Op>, maxConcurrent: nat) returns (slots: array<Slot>)
    requires maxConcurrent >= 1
    ensures fresh(slots) && slots.Length == |toRun|
    ensures forall i :: 0 <= i < |toRun| ==> slots[i] == Some(exec(toRun[i]))
  {
    hide PoolOk, InFlight;
    slots := new Slot[|toRun|](_ => None);
    var workers := new Worker[Min(maxConcurrent, |toRun|)](_ => Idle);
    var pending := 0;
    assert slots[..] == seq(|toRun|, _ => None) && workers[..] == seq(workers.Length, _ => Idle);
    FreshPool(exec, toRun, workers.Length);
    ghost var p := Pool(toRun, 0, slots[..], workers[..]);
    while pending < |toRun| || exists w :: 0 <= w < workers.Length && workers[w].Busy?
      invariant p == Pool(toRun, pending, slots[..], workers[..]) && PoolOk(exec, p)
      invariant 0 <= pending <= |toRun|
      decreases 2 * (|toRun| - pending) + InFlight(workers[..])
    {
      // Any worker that can move may be the next one to: the schedule is arbitrary.
      var w :| 0 <= w < workers.Length && (workers[w].Busy? || pending < |toRun|);
      PoolShape(exec, p, w);
      if workers[w].Busy? {
        var index := workers[w].index;
        LandKeepsPool(exec, p, w);
        InFlightUpdate(workers[..], w, Idle);
        slots[index] := Some(exec(toRun[index]));
        workers[w] := Idle;
      } else {
        PullKeepsPool(exec, p, w);
        InFlightUpdate(workers[..], w, Busy(pending));
        workers[w] := Busy(pending);
        pending := pending + 1;
      }
      p := Pool(toRun, pending, slots[..], workers[..]);
    }
    DrainedIsFull(exec, p);
    forall i | 0 <= i < |toRun| ensures slots[i] == Some(exec(toRun[i])) { assert p.slots[i] == slots[i]; }
  }

  lemma PullKeepsPool(exec: Exec, p: Pool, w: nat)
    requires PoolOk(exec, p) && w < |p.workers| && p.workers[w].Idle? && p.next < |p.toRun|
    ensures PoolOk(exec, p.(workers := p.workers[w := Busy(p.next)], next := p.next + 1))
  {
    var q := p.(workers := p.workers[w := Busy(p.next)], next := p.next + 1);
    assert q.workers[w] == Busy(p.next) && Held(q, p.next);
    forall i | 0 <= i < p.next && q.slots[i].None? ensures Held(q, i) {
      var v :| 0 <= v < |p.workers| && p.workers[v] == Busy(i);
      assert q.workers[v] == Busy(i);
    }
  }

  /** `None` is the ValueError of a pool without workers. */
  method RunWavesAsync(exec: Exec, ops: seq<Op>, maxConcurrent: nat) returns (outcome: Option<Outcome>)
    ensures outcome == if maxConcurrent == 0 then None else Some(AsyncWaves(exec, Toposort(ops)).outcome)
  {
    if maxConcurrent < 1 { return None; }
    var succeeded: seq<Op>, failed: seq<(Op, string)>, notRun: seq<Op> := [], [], [];
    var failedDns: set<string> := {};
    var waves := ComputeWaves(ops);
    for k := 0 to |waves|
      invariant Progress(Outcome(succeeded, failed, notRun), failedDns) == AsyncWaves(exec, waves[..k])
    {
      ghost var p := AsyncWaves(exec, waves[..k]);
      var toRun, skipped := Partition(waves[k], failedDns);
      var slots := RunWave(exec, toRun, maxConcurrent);
      var ok, raised, dns := Collect(exec, toRun, slots);
      assert waves[..k + 1][..k] == waves[..k];
      assert AsyncWaves(exec, waves[..k + 1]) == AsyncWave(exec, p, waves[k]);
      succeeded, failed, notRun, failedDns := succeeded + ok, failed + raised, notRun + skipped, failedDns + dns;
    }
    assert waves[..|waves|] == waves;
    return Some(Outcome(succeeded, failed, notRun));
  }

  method Partition(wave: seq<Op>, failedDns: set<string>) returns (toRun: seq<Op>, skipped: seq<Op>)
    ensures toRun == ToRun(wave, failedDns) && skipped == Skipped(wave, failedDns)
  {
    toRun, skipped := [], [];
    for i := 0 to |wave|
      invariant toRun == ToRun(wave[..i], failedDns) && skipped == Skipped(wave[..i], failedDns)
    {
      assert wave[..i + 1] == wave[..i] + [wave[i]];
      WaveSnoc(wave[..i], wave[i], failedDns);
      if DescendsFromFailed(wave[i].dn, failedDns) {
        skipped := skipped + [wave[i]];
      } else {
        toRun := toRun + [wave[i]];
      }
    }
    assert wave[..|wave|] == wave;
  }

  method Collect(exec: Exec, toRun: seq<Op>, slots: array<Slot>) returns (ok: seq<Op>, raised: seq<(Op, string)>, dns: set<string>)
    requires slots.Length == |toRun| && forall i :: 0 <= i < |toRun| ==> slots[i] == Some(exec(toRun[i]))
    ensures ok == Completed(exec, toRun) && raised == Raised(exec, toRun) && dns == RaisedDns(exec, toRun)
  {
    ok, raised, dns := [], [], {};
    for i := 0 to |toRun|
      invariant ok == Completed(exec, toRun[..i]) && raised == Raised(exec, toRun[..i]) && dns == RaisedDns(exec, toRun[..i])
    {
      assert toRun[..i + 1] == toRun[..i] + [toRun[i]];
      ResultsSnoc(exec, toRun[..i], toRun[i]);
      RaisedDnsSnoc(exec, toRun[..i], toRun[i]);
      var answer := slots[i].value;
      if answer.None? {
        ok := ok + [toRun[i]];
      } else {
        raised := raised + [(toRun[i], answer.value)];
        dns := dns + {toRun[i].dn};
      }
    }
    assert toRun[..|toRun|] == toRun;
  }
}
