/**
 * The async engine as a transition system: a bounded pool of workers pulls from one shared iterator and
 * fills slots by index, with a barrier after each wave. A run is any list of enabled steps.
 */
module WavePool {
  import opened Text
  import opened Dn
  import opened Store
  import opened Engine

  datatype Config = Config(ops: seq<Op>, exec: Exec, maxConcurrent: nat, store: Objects)

  datatype Worker = Idle | Busy(index: nat)

  type Slot = Option<Option<string>>

  datatype Pool = Pool(toRun: seq<Op>, next: nat, slots: seq<Slot>, workers: seq<Worker>)

  /** `sent` and `landed` record the ops in the order their requests left and their writes took effect. */
  datatype State = State(done: nat, pool: Option<Pool>, progress: Progress, store: Objects, sent: seq<Op>, landed: seq<Op>)

  datatype Step = Open | Pull(worker: nat) | Land(worker: nat) | Close

  function Effect(objects: Objects, op: Op): Objects {
    match op.verb
    case Post => Apply(objects, Writes(op.payload, PostParent(op.dn, op.payload.rn)))
    case Delete => Remove(objects, op.dn)
  }

  /** A delete that lands takes the object and all below it from the store, and leaves the rest as it was. */
  lemma LandedDelete(objects: Objects, op: Op, dn: string)
    requires op.verb.Delete?
    ensures dn in Effect(objects, op) <==> dn in objects && dn != op.dn && !(op.dn + "/" <= dn)
    ensures dn in Effect(objects, op) ==> Effect(objects, op)[dn] == objects[dn]
  {
  }

  function Effects(objects: Objects, ops: seq<Op>): Objects {
    if ops == [] then objects else Effect(Effects(objects, ops[..|ops| - 1]), ops[|ops| - 1])
  }

  function Min(a: nat, b: nat): (r: nat)
    ensures r <= a && r <= b && (r == a || r == b)
  { if a < b then a else b }

  function Waves(c: Config): seq<seq<Op>> { Toposort(c.ops) }

  function Initial(c: Config): State { State(0, None, NOTHING, c.store, [], []) }

  // ---- The four steps

  /** A wave starts: descendants of failures are skipped, the pool is sized. */
  function OpenStep(c: Config, s: State): Option<State> {
    if s.pool.Some? || s.done >= |Waves(c)| then None
    else
      var wave := Waves(c)[s.done];
      var toRun := ToRun(wave, s.progress.failedDns);
      var out := s.progress.outcome;
      Some(s.(pool := Some(Pool(toRun, 0, seq(|toRun|, _ => None), seq(Min(c.maxConcurrent, |toRun|), _ => Idle))),
              progress := s.progress.(outcome := out.(notRun := out.notRun + Skipped(wave, s.progress.failedDns)))))
  }

  /** An idle worker takes the next op and sends its request. */
  function PullStep(s: State, w: nat): Option<State> {
    if s.pool.None? then None
    else
      var p := s.pool.value;
      if w < |p.workers| && p.workers[w].Idle? && p.next < |p.toRun|
      then Some(s.(pool := Some(p.(workers := p.workers[w := Busy(p.next)], next := p.next + 1)),
                   sent := s.sent + [p.toRun[p.next]]))
      else None
  }

  /** The answer of a request arrives: the slot is filled and, on success, the write has taken effect. */
  function LandStep(c: Config, s: State, w: nat): Option<State> {
    if s.pool.None? then None
    else
      var p := s.pool.value;
      if w < |p.workers| && p.workers[w].Busy? && p.workers[w].index < |p.toRun| && p.workers[w].index < |p.slots|
      then
        var i := p.workers[w].index;
        var op := p.toRun[i];
        var landedPool := Some(p.(workers := p.workers[w := Idle], slots := p.slots[i := Some(c.exec(op))]));
        if c.exec(op).None?
        then Some(s.(pool := landedPool, store := Effect(s.store, op), landed := s.landed + [op]))
        else Some(s.(pool := landedPool))
      else None
  }

  predicate Drained(p: Pool) {
    p.next == |p.toRun| && forall w :: 0 <= w < |p.workers| ==> p.workers[w].Idle?
  }

  /** What the filled slots say, in submission order. */
  function SlotOk(toRun: seq<Op>, slots: seq<Slot>): seq<Op>
    requires |toRun| == |slots|
  {
    if toRun == [] then []
    else SlotOk(toRun[..|toRun| - 1], slots[..|slots| - 1]) +
         if slots[|slots| - 1] == Some(None) then [toRun[|toRun| - 1]] else []
  }

  function SlotFailed(toRun: seq<Op>, slots: seq<Slot>): seq<(Op, string)>
    requires |toRun| == |slots|
  {
    if toRun == [] then []
    else SlotFailed(toRun[..|toRun| - 1], slots[..|slots| - 1]) +
         var last := slots[|slots| - 1];
         if last.Some? && last.value.Some? then [(toRun[|toRun| - 1], last.value.value)] else []
  }

  /** Every worker has run out of work: the wave is booked. */
  function CloseStep(s: State): Option<State> {
    if s.pool.None? || !Drained(s.pool.value) || |s.pool.value.toRun| != |s.pool.value.slots| then None
    else
      var p := s.pool.value;
      var failures := SlotFailed(p.toRun, p.slots);
      var out := s.progress.outcome;
      Some(s.(done := s.done + 1, pool := None,
              progress := Progress(out.(succeeded := out.succeeded + SlotOk(p.toRun, p.slots), failed := out.failed + failures),
                                   s.progress.failedDns + set f | f in failures :: f.0.dn)))
  }

  function Next(c: Config, s: State, step: Step): Option<State> {
    match step
    case Open => OpenStep(c, s)
    case Pull(w) => PullStep(s, w)
    case Land(w) => LandStep(c, s, w)
    case Close => CloseStep(s)
  }

  /** The state a schedule reaches, or `None` when one of its steps is not enabled. */
  function Run(c: Config, steps: seq<Step>): Option<State> {
    if steps == [] then Some(Initial(c))
    else match Run(c, steps[..|steps| - 1])
         case None => None
         case Some(s) => Next(c, s, steps[|steps| - 1])
  }

  predicate Finished(c: Config, s: State) {
    s.done == |Waves(c)| && s.pool.None?
  }

  // ---- The invariant

  /** Slots hold answers; a pulled slot is filled or held by exactly one worker. */
  ghost predicate PoolOk(exec: Exec, p: Pool) {
    && |p.slots| == |p.toRun| && p.next <= |p.toRun|
    && (forall i :: 0 <= i < |p.slots| && p.slots[i].Some? ==> i < p.next && p.slots[i].value == exec(p.toRun[i]))
    && (forall w :: 0 <= w < |p.workers| && p.workers[w].Busy? ==>
          p.workers[w].index < p.next && p.slots[p.workers[w].index].None?)
    && (forall v, w :: 0 <= v < w < |p.workers| && p.workers[v].Busy? && p.workers[w].Busy? ==>
          p.workers[v].index != p.workers[w].index)
    && (forall i :: 0 <= i < p.next && p.slots[i].None? ==> Held(p, i))
  }

  ghost predicate Held(p: Pool, i: nat) {
    exists w :: 0 <= w < |p.workers| && p.workers[w] == Busy(i)
  }

  /** What the finished waves have booked. */
  ghost predicate Booked(c: Config, s: State) {
    var before := AsyncWaves(c.exec, Waves(c)[..Min(s.done, |Waves(c)|)]);
    match s.pool
    case None => s.progress == before
    case Some(p) =>
      && s.done < |Waves(c)|
      && p.toRun == ToRun(Waves(c)[s.done], before.failedDns)
      && s.progress == before.(outcome := before.outcome.(notRun := before.outcome.notRun + Skipped(Waves(c)[s.done], before.failedDns)))
  }

  ghost predicate Inv(c: Config, s: State) {
    && s.done <= |Waves(c)|
    && Booked(c, s)
    && (s.pool.Some? ==> PoolOk(c.exec, s.pool.value) && |s.pool.value.workers| == Min(c.maxConcurrent, |s.pool.value.toRun|))
    && s.store == Effects(c.store, s.landed)
    && multiset(s.landed) == multiset(s.progress.outcome.succeeded) + multiset(PoolLanded(s.pool))
  }

  function PoolLanded(pool: Option<Pool>): seq<Op> {
    if pool.Some? && |pool.value.toRun| == |pool.value.slots| then SlotOk(pool.value.toRun, pool.value.slots) else []
  }

  lemma {:induction false} EmptySlots(toRun: seq<Op>)
    ensures SlotOk(toRun, seq(|toRun|, _ => None)) == []
  {
    if toRun != [] {
      var slots: seq<Slot> := seq(|toRun|, _ => None);
      assert slots[..|slots| - 1] == seq(|toRun[..|toRun| - 1]|, _ => None);
      EmptySlots(toRun[..|toRun| - 1]);
    }
  }

  lemma SlotOkSplit(toRun: seq<Op>, slots: seq<Slot>)
    requires |toRun| == |slots| && slots != []
    ensures multiset(SlotOk(toRun, slots)) ==
            multiset(SlotOk(toRun[..|toRun| - 1], slots[..|slots| - 1])) +
            if slots[|slots| - 1] == Some(None) then multiset{toRun[|toRun| - 1]} else multiset{}
  {
  }

  lemma {:induction false} FillSlot(toRun: seq<Op>, slots: seq<Slot>, i: nat, answer: Option<string>)
    requires |toRun| == |slots| && i < |slots| && slots[i].None?
    ensures multiset(SlotOk(toRun, slots[i := Some(answer)])) ==
            multiset(SlotOk(toRun, slots)) + if answer.None? then multiset{toRun[i]} else multiset{}
  {
    hide SlotOk;
    var filled := slots[i := Some(answer)];
    var init := slots[..|slots| - 1];
    SlotOkSplit(toRun, slots);
    SlotOkSplit(toRun, filled);
    if i < |slots| - 1 {
      assert filled[..|slots| - 1] == init[i := Some(answer)];
      FillSlot(toRun[..|toRun| - 1], init, i, answer);
    } else {
      assert filled[..|slots| - 1] == init;
    }
  }

  lemma {:induction false} FullSlots(exec: Exec, toRun: seq<Op>, slots: seq<Slot>)
    requires |toRun| == |slots| && forall i :: 0 <= i < |slots| ==> slots[i] == Some(exec(toRun[i]))
    ensures SlotOk(toRun, slots) == Completed(exec, toRun) && SlotFailed(toRun, slots) == Raised(exec, toRun)
  {
    if toRun != [] { FullSlots(exec, toRun[..|toRun| - 1], slots[..|slots| - 1]); }
  }

  lemma {:induction false} RaisedAsSet(exec: Exec, ops: seq<Op>)
    ensures (set f | f in Raised(exec, ops) :: f.0.dn) == RaisedDns(exec, ops)
  {
    if ops != [] {
      var init, last := ops[..|ops| - 1], ops[|ops| - 1];
      RaisedAsSet(exec, init);
      assert ops == init + [last];
      assert RaisedDns(exec, ops) == RaisedDns(exec, init) + if exec(last).Some? then {last.dn} else {};
      var all := Raised(exec, ops);
      if exec(last).Some? {
        assert all == Raised(exec, init) + [(last, exec(last).value)];
        assert (set f | f in all :: f.0.dn) == (set f | f in Raised(exec, init) :: f.0.dn) + {last.dn};
      }
    }
  }

  lemma OpenKeepsInv(c: Config, s: State)
    requires Inv(c, s) && OpenStep(c, s).Some?
    ensures Inv(c, OpenStep(c, s).value)
  {
    hide ToRun, Skipped, AsyncWaves, Toposort;
    var toRun := ToRun(Waves(c)[s.done], s.progress.failedDns);
    EmptySlots(toRun);
    var p := OpenStep(c, s).value.pool.value;
    assert PoolLanded(Some(p)) == [];
  }

  lemma PullKeepsInv(c: Config, s: State, w: nat)
    requires Inv(c, s) && PullStep(s, w).Some?
    ensures Inv(c, PullStep(s, w).value)
  {
    hide ToRun, Skipped, AsyncWaves, Toposort, SlotOk;
    var p := s.pool.value;
    var q := PullStep(s, w).value.pool.value;
    assert q.workers[w] == Busy(p.next) && Held(q, p.next);
    forall i | 0 <= i < p.next && q.slots[i].None? ensures Held(q, i) {
      var v :| 0 <= v < |p.workers| && p.workers[v] == Busy(i);
      assert q.workers[v] == Busy(i);
    }
    assert PoolLanded(Some(p)) == PoolLanded(Some(q));
  }

  lemma LandKeepsPool(exec: Exec, p: Pool, w: nat)
    requires PoolOk(exec, p) && w < |p.workers| && p.workers[w].Busy?
    ensures var i := p.workers[w].index;
            i < |p.toRun| && PoolOk(exec, p.(workers := p.workers[w := Idle], slots := p.slots[i := Some(exec(p.toRun[i]))]))
  {
    var i := p.workers[w].index;
    var q := p.(workers := p.workers[w := Idle], slots := p.slots[i := Some(exec(p.toRun[i]))]);
    forall j | 0 <= j < q.next && q.slots[j].None? ensures Held(q, j) {
      var v :| 0 <= v < |p.workers| && p.workers[v] == Busy(j);
      assert q.workers[v] == Busy(j);
    }
  }

  lemma EffectsSnoc(objects: Objects, ops: seq<Op>, op: Op)
    ensures Effects(objects, ops + [op]) == Effect(Effects(objects, ops), op)
  {
    assert (ops + [op])[..|ops|] == ops;
  }

  lemma LandKeepsInv(c: Config, s: State, w: nat)
    requires Inv(c, s) && LandStep(c, s, w).Some?
    ensures Inv(c, LandStep(c, s, w).value)
  {
    hide ToRun, Skipped, AsyncWaves, Toposort, SlotOk, Effects, Effect;
    var p := s.pool.value;
    var i := p.workers[w].index;
    LandKeepsPool(c.exec, p, w);
    FillSlot(p.toRun, p.slots, i, c.exec(p.toRun[i]));
    EffectsSnoc(c.store, s.landed, p.toRun[i]);
  }

  lemma DrainedIsFull(exec: Exec, p: Pool)
    requires PoolOk(exec, p) && Drained(p)
    ensures forall i :: 0 <= i < |p.slots| ==> p.slots[i] == Some(exec(p.toRun[i]))
  {
    forall i | 0 <= i < |p.slots| ensures p.slots[i] == Some(exec(p.toRun[i])) {
      assert !Held(p, i);
    }
  }

  /** The barrier books exactly what the wave adds, whatever the order its ops answered in. */
  lemma CloseBooksWave(c: Config, s: State)
    requires Inv(c, s) && CloseStep(s).Some?
    ensures CloseStep(s).value.progress == AsyncWaves(c.exec, Waves(c)[..s.done + 1])
    ensures CloseStep(s).value.progress.outcome.succeeded == s.progress.outcome.succeeded + PoolLanded(s.pool)
  {
    var p := s.pool.value;
    DrainedIsFull(c.exec, p);
    FullSlots(c.exec, p.toRun, p.slots);
    RaisedAsSet(c.exec, p.toRun);
    var waves := Waves(c);
    assert waves[..s.done + 1][..s.done] == waves[..s.done];
    hide ToRun, Skipped, Toposort, SlotOk, SlotFailed, Completed, Raised, RaisedDns;
    assert AsyncWaves(c.exec, waves[..s.done + 1]) == AsyncWave(c.exec, AsyncWaves(c.exec, waves[..s.done]), waves[s.done]);
  }

  lemma CloseKeepsInv(c: Config, s: State)
    requires Inv(c, s) && CloseStep(s).Some?
    ensures Inv(c, CloseStep(s).value)
  {
    CloseBooksWave(c, s);
    hide ToRun, Skipped, AsyncWaves, Toposort, SlotOk, SlotFailed, Effects;
  }

  lemma {:induction false} Reachable(c: Config, steps: seq<Step>)
    requires Run(c, steps).Some?
    ensures Inv(c, Run(c, steps).value)
  {
    if steps == [] {
      assert Waves(c)[..0] == [];
    } else {
      Reachable(c, steps[..|steps| - 1]);
      StepKeepsInv(c, Run(c, steps[..|steps| - 1]).value, steps[|steps| - 1]);
    }
  }

  lemma StepKeepsInv(c: Config, s: State, step: Step)
    requires Inv(c, s) && Next(c, s, step).Some?
    ensures Inv(c, Next(c, s, step).value)
  {
    hide Inv, OpenStep, PullStep, LandStep, CloseStep;
    match step
    case Open => OpenKeepsInv(c, s);
    case Pull(w) => PullKeepsInv(c, s, w);
    case Land(w) => LandKeepsInv(c, s, w);
    case Close => CloseKeepsInv(c, s);
  }
}
