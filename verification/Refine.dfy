/** Boundary refinement: the creates of a plan verified by bare reads (`_refine_part_sync` in `_push.py`). */
module Refine {
  import opened Text
  import opened Dn
  import opened Store
  import opened Merge
  import opened Plan

  /** The desired objects by DN, and what a bare read of a DN answers. */
  datatype Probe = Probe(m: Models, index: map<string, Write>, fetch: string -> Option<Obj>)

  /** The object is there, with the wanted class. */
  predicate Present(p: Probe, dn: string) {
    dn in p.index && p.fetch(dn).Some? && p.fetch(dn).value.cls == p.index[dn].cls
  }

  function ParentOr(dn: string): string {
    match ParentDn(dn) case Some(up) => up case None => ""
  }

  /** A create whose parent is not itself one. */
  predicate OnBoundary(creates: set<string>, dn: string) {
    dn in creates && ParentOr(dn) !in creates
  }

  /** `_boundary`, taken over a list that holds every create. */
  function Boundary(order: seq<string>, creates: set<string>): seq<string> {
    if order == [] then []
    else Boundary(order[..|order| - 1], creates) + if OnBoundary(creates, order[|order| - 1]) then [order[|order| - 1]] else []
  }

  lemma {:induction false} BoundaryHas(order: seq<string>, creates: set<string>, dn: string)
    ensures dn in Boundary(order, creates) <==> dn in order && OnBoundary(creates, dn)
  {
    if order != [] {
      BoundaryHas(order[..|order| - 1], creates, dn);
      assert order == order[..|order| - 1] + [order[|order| - 1]];
    }
  }

  function SetOf(dns: seq<string>): set<string> { set dn | dn in dns }

  // ---- What stays a create

  /** Absent, or below a create that stays one with every object between them a create. */
  ghost predicate Stays(p: Probe, creates: set<string>, dn: string)
    decreases |dn|
  {
    dn in creates && (!Present(p, dn) ||
      (ParentDn(dn).Some? && (ParentAndRn(dn); Stays(p, creates, ParentDn(dn).value))))
  }

  datatype State = State(creates: set<string>, settled: set<string>, result: PlanResult, probed: seq<string>)

  /** One DN of the frontier: settled when absent or foreign, else booked as an update or as unchanged. */
  function Examine(p: Probe, s: State, dn: string): State {
    var probed := if dn in p.index then s.probed + [dn] else s.probed;
    if !Present(p, dn) then s.(settled := s.settled + {dn}, probed := probed)
    else
      var e := Entry(p.index[dn], Judge(p.m, p.index[dn], p.fetch(dn).value));
      s.(creates := s.creates - {dn}, result := AddEntry(s.result, e), probed := probed)
  }

  ghost predicate BookedUpdates(p: Probe, before: map<string, Changes>, found: set<string>, after: map<string, Changes>) {
    && (forall dn :: dn in after <==> dn in before || (dn in found && Finding(p, dn).Update?))
    && (forall dn :: dn in before && dn !in found ==> after[dn] == before[dn])
    && (forall dn :: dn in found && Finding(p, dn).Update? ==> dn in after && after[dn] == Finding(p, dn).changes)
  }

  ghost predicate BookedSame(p: Probe, before: seq<string>, found: set<string>, after: seq<string>) {
    && |before| <= |after| && after[..|before|] == before
    && NoRepeat(after[|before|..])
    && (forall dn :: dn in after[|before|..] <==> dn in found && Finding(p, dn).Same?)
  }

  /** What was found present so far: booked once each, where the comparison says. */
  ghost predicate Booked(p: Probe, part: PlanResult, found: set<string>, r: PlanResult) {
    && r.creates == part.creates
    && BookedUpdates(p, part.updates, found, r.updates)
    && BookedSame(p, part.same, found, r.same)
  }

  function Finding(p: Probe, dn: string): Verdict {
    if Present(p, dn) then Judge(p.m, p.index[dn], p.fetch(dn).value) else Create
  }

  /** Each desired object is indexed under its own DN. */
  ghost predicate Indexed(p: Probe) {
    forall dn :: dn in p.index ==> p.index[dn].dn == dn
  }

  ghost predicate Settling(p: Probe, part: PlanResult, s: State) {
    var all := SetOf(part.creates);
    && s.creates <= all && s.settled <= s.creates
    && (forall dn :: dn in s.settled ==> !Present(p, dn))
    && (forall dn :: dn in all - s.creates ==> Present(p, dn) && ParentOr(dn) !in s.creates)
    && Booked(p, part, all - s.creates, s.result)
    && NoRepeat(s.probed)
    && (forall dn :: dn in s.probed <==> dn in p.index && (dn in s.settled || dn in all - s.creates))
    && (forall dn :: dn in s.settled ==> ParentOr(dn) !in s.creates)
  }

  lemma SameStep(p: Probe, before: seq<string>, found: set<string>, after: seq<string>, dn: string)
    requires BookedSame(p, before, found, after) && dn !in found
    ensures Finding(p, dn).Same? ==> BookedSame(p, before, found + {dn}, after + [dn])
    ensures !Finding(p, dn).Same? ==> BookedSame(p, before, found + {dn}, after)
  {
    hide Finding;
    assert (after + [dn])[|before|..] == after[|before|..] + [dn];
    assert (after + [dn])[..|before|] == after[..|before|];
  }

  lemma UpdatesStep(p: Probe, before: map<string, Changes>, found: set<string>, after: map<string, Changes>, dn: string)
    requires BookedUpdates(p, before, found, after) && dn !in found
    ensures Finding(p, dn).Update? ==> BookedUpdates(p, before, found + {dn}, after[dn := Finding(p, dn).changes])
    ensures !Finding(p, dn).Update? ==> BookedUpdates(p, before, found + {dn}, after)
  {
    hide Finding;
  }

  lemma BookedStep(p: Probe, part: PlanResult, found: set<string>, r: PlanResult, dn: string)
    requires Booked(p, part, found, r) && dn !in found && Present(p, dn) && p.index[dn].dn == dn
    ensures Booked(p, part, found + {dn}, AddEntry(r, Entry(p.index[dn], Finding(p, dn))))
  {
    hide Judge, BookedSame, BookedUpdates;
    SameStep(p, part.same, found, r.same, dn);
    UpdatesStep(p, part.updates, found, r.updates, dn);
  }

  lemma ExamineSettles(p: Probe, part: PlanResult, s: State, dn: string)
    requires Indexed(p) && Settling(p, part, s) && OnBoundary(s.creates, dn) && dn !in s.settled
    ensures Settling(p, part, Examine(p, s, dn))
  {
    var all := SetOf(part.creates);
    var after := Examine(p, s, dn);
    if Present(p, dn) {
      BookedStep(p, part, all - s.creates, s.result, dn);
      assert all - after.creates == (all - s.creates) + {dn};
    } else {
      assert all - after.creates == all - s.creates;
    }
    assert ParentOr(dn) != dn;
  }

  /** When nothing is left on the frontier, the creates are those that stay. */
  lemma {:induction false} SettledIsStays(p: Probe, part: PlanResult, s: State, dn: string)
    requires Settling(p, part, s) && (forall x :: OnBoundary(s.creates, x) ==> x in s.settled) && "" !in part.creates
    ensures dn in s.creates <==> Stays(p, SetOf(part.creates), dn)
    decreases |dn|
  {
    ParentAndRn(dn);
    if ParentDn(dn).Some? {
      SettledIsStays(p, part, s, ParentDn(dn).value);
    }
    if dn in s.creates && ParentOr(dn) !in s.creates { assert OnBoundary(s.creates, dn); }
  }

  // ---- The loop

  function Kept(order: seq<string>, creates: set<string>): seq<string> {
    if order == [] then []
    else Kept(order[..|order| - 1], creates) + if order[|order| - 1] in creates then [order[|order| - 1]] else []
  }

  function Unsettled(frontier: seq<string>, settled: set<string>): (r: seq<string>)
    ensures forall dn :: dn in r <==> dn in frontier && dn !in settled
    ensures NoRepeat(frontier) ==> NoRepeat(r)
  {
    if frontier == [] then []
    else
      var n := |frontier| - 1;
      assert frontier == frontier[..n] + [frontier[n]];
      Unsettled(frontier[..n], settled) + if frontier[n] !in settled then [frontier[n]] else []
  }

  /** The frontier of a round: sorted boundary creates not settled yet. */
  function Frontier(part: PlanResult, s: State): (r: seq<string>)
    ensures NoRepeat(r)
    ensures forall dn :: dn in r <==> dn in part.creates && OnBoundary(s.creates, dn) && dn !in s.settled
  {
    var sorted := SortedNames(Boundary(part.creates, s.creates));
    assert NoRepeat(sorted);
    assert forall dn :: dn in sorted <==> dn in part.creates && OnBoundary(s.creates, dn) by {
      forall dn { BoundaryHas(part.creates, s.creates, dn); }
    }
    Unsettled(sorted, s.settled)
  }

  lemma StartSettles(p: Probe, part: PlanResult)
    ensures Settling(p, part, State(SetOf(part.creates), {}, part, []))
  {
  }

  /** Nothing more to ask: the rest of the round is still on the boundary and still unsettled. */
  ghost predicate Pending(s: State, rest: seq<string>) {
    NoRepeat(rest) && forall dn :: dn in rest ==> OnBoundary(s.creates, dn) && dn !in s.settled
  }

  lemma PendingStep(p: Probe, s: State, rest: seq<string>)
    requires Pending(s, rest) && rest != []
    ensures Pending(Examine(p, s, rest[0]), rest[1..])
  {
    assert forall dn :: dn in rest[1..] ==> dn in rest && dn != rest[0];
  }

  lemma ExamineProgress(p: Probe, s: State, dn: string)
    requires OnBoundary(s.creates, dn) && dn !in s.settled && s.settled <= s.creates
    ensures |Examine(p, s, dn).creates - Examine(p, s, dn).settled| < |s.creates - s.settled|
  {
    var after := Examine(p, s, dn);
    assert after.creates - after.settled <= (s.creates - s.settled) - {dn};
    CardinalityLe(after.creates - after.settled, (s.creates - s.settled) - {dn});
  }

  lemma CardinalityLe<T>(a: set<T>, b: set<T>)
    requires a <= b
    ensures |a| <= |b|
  {
    assert b == a + (b - a);
  }

  /** `_refine_part_sync`; the asynchronous twin issues the same probes. */
  method RefinePart(p: Probe, part: PlanResult) returns (r: PlanResult, ghost end: State)
    requires Indexed(p)
    ensures Settling(p, part, end) && Frontier(part, end) == []
    ensures r == end.result.(creates := Kept(part.creates, end.creates))
  {
    var s := State(SetOf(part.creates), {}, part, []);
    StartSettles(p, part);
    while true
      invariant Settling(p, part, s)
      decreases |s.creates - s.settled|
    {
      var frontier := Frontier(part, s);
      if frontier == [] { break; }
      hide Settling, Examine;
      s := ExamineAll(p, part, s, frontier);
    }
    end := s;
    r := s.result.(creates := Kept(part.creates, s.creates));
  }

  /** One round over its frontier. */
  method ExamineAll(p: Probe, part: PlanResult, before: State, frontier: seq<string>) returns (s: State)
    requires Indexed(p) && Settling(p, part, before) && Pending(before, frontier) && frontier != []
    ensures Settling(p, part, s)
    ensures |s.creates - s.settled| < |before.creates - before.settled|
  {
    s := before;
    for i := 0 to |frontier|
      invariant Settling(p, part, s) && Pending(s, frontier[i..])
      invariant |s.creates - s.settled| <= |before.creates - before.settled|
      invariant i > 0 ==> |s.creates - s.settled| < |before.creates - before.settled|
    {
      assert frontier[i..][0] == frontier[i] && frontier[i..][1..] == frontier[i + 1..];
      assert frontier[i] in frontier[i..];
      PendingStep(p, s, frontier[i..]);
      ExamineSettles(p, part, s, frontier[i]);
      SettledWithin(p, part, s);
      hide Settling, Examine, Pending;
      ExamineProgress(p, s, frontier[i]);
      s := Examine(p, s, frontier[i]);
    }
  }

  lemma SettledWithin(p: Probe, part: PlanResult, s: State)
    requires Settling(p, part, s)
    ensures s.settled <= s.creates
  {
  }
}
