/** Boundary refinement asks little and answers exactly (`_refine_part_sync` in `_push.py`). */
module RefineTheorems {
  import opened Text
  import opened Dn
  import opened Store
  import opened Rebuild
  import opened Compiler
  import opened Merge
  import opened Plan
  import opened PlanTheorems
  import opened Refine

  /** The state a refinement ends in. */
  ghost predicate Ended(p: Probe, part: PlanResult, end: State) {
    Settling(p, part, end) && Frontier(part, end) == [] && "" !in part.creates
  }

  lemma NothingOnTheFrontier(p: Probe, part: PlanResult, end: State)
    requires Ended(p, part, end)
    ensures forall dn :: OnBoundary(end.creates, dn) ==> dn in end.settled
  {
    forall dn | OnBoundary(end.creates, dn) ensures dn in end.settled {
      assert dn in SetOf(part.creates);
      assert dn !in Frontier(part, end);
    }
  }

  lemma {:induction false} KeptHas(order: seq<string>, creates: set<string>, dn: string)
    ensures dn in Kept(order, creates) <==> dn in order && dn in creates
  {
    if order != [] {
      KeptHas(order[..|order| - 1], creates, dn);
      assert order == order[..|order| - 1] + [order[|order| - 1]];
    }
  }

  /** The final creates: reported creates that are absent, or hang from an absent one through creates. */
  lemma FinalCreates(p: Probe, part: PlanResult, end: State, dn: string)
    requires Ended(p, part, end)
    ensures dn in Kept(part.creates, end.creates) <==> Stays(p, SetOf(part.creates), dn)
  {
    NothingOnTheFrontier(p, part, end);
    SettledIsStays(p, part, end, dn);
    KeptHas(part.creates, end.creates, dn);
    assert end.creates <= SetOf(part.creates);
  }

  /** Presence of the reported creates is closed under parents that are reported creates too. */
  ghost predicate ClosedUnderParents(p: Probe, creates: set<string>) {
    forall dn :: dn in creates && Present(p, dn) && ParentDn(dn).Some? && ParentDn(dn).value in creates ==> Present(p, ParentDn(dn).value)
  }

  lemma {:induction false} StaysIfAbsent(p: Probe, creates: set<string>, dn: string)
    requires ClosedUnderParents(p, creates) && dn in creates
    ensures Stays(p, creates, dn) <==> !Present(p, dn)
    decreases |dn|
  {
    ParentAndRn(dn);
    if ParentDn(dn).Some? && ParentDn(dn).value in creates {
      StaysIfAbsent(p, creates, ParentDn(dn).value);
    }
  }

  /** The final creates are exactly the absent ones if and only if presence is closed under parents. */
  lemma ExactIffClosed(p: Probe, creates: set<string>)
    ensures ClosedUnderParents(p, creates) <==> forall dn :: dn in creates ==> (Stays(p, creates, dn) <==> !Present(p, dn))
  {
    if ClosedUnderParents(p, creates) {
      forall dn | dn in creates ensures Stays(p, creates, dn) <==> !Present(p, dn) { StaysIfAbsent(p, creates, dn); }
    }
    if forall dn :: dn in creates ==> (Stays(p, creates, dn) <==> !Present(p, dn)) {
      forall dn | dn in creates && Present(p, dn) && ParentDn(dn).Some? && ParentDn(dn).value in creates
        ensures Present(p, ParentDn(dn).value)
      {
        assert !Stays(p, creates, dn);
        ParentAndRn(dn);
        assert !Stays(p, creates, ParentDn(dn).value);
      }
    }
  }

  ghost predicate ParentStays(p: Probe, creates: set<string>, dn: string) {
    ParentDn(dn).Some? && Stays(p, creates, ParentDn(dn).value)
  }

  /** Bare reads: one for each indexed create whose parent does not stay a create, none for any other. */
  lemma ProbedExactly(p: Probe, part: PlanResult, end: State, dn: string)
    requires Ended(p, part, end)
    ensures NoRepeat(end.probed)
    ensures dn in end.probed <==> dn in p.index && dn in part.creates && !ParentStays(p, SetOf(part.creates), dn)
  {
    var all := SetOf(part.creates);
    assert end.creates <= all && end.settled <= end.creates;
    NothingOnTheFrontier(p, part, end);
    assert ParentDn(dn).None? ==> ParentOr(dn) !in end.creates;
    if ParentDn(dn).Some? {
      SettledIsStays(p, part, end, ParentDn(dn).value);
    }
    hide Booked, Stays, Present;
    assert dn in all <==> dn in part.creates;
    if dn in all && !ParentStays(p, all, dn) && dn in end.creates {
      assert OnBoundary(end.creates, dn);
    }
  }

  /** Below a create the plan has creates only. */
  ghost predicate Contiguous(creates: set<string>) {
    forall a, dn :: a in creates && dn in creates && Below(a, dn) ==> Balanced(a) && ParentDn(dn).Some? && ParentDn(dn).value in creates
  }

  lemma ParentStillBelow(a: string, dn: string)
    requires Balanced(a) && Below(a, dn) && ParentDn(dn).Some?
    ensures AtOrBelow(ParentDn(dn).value, a)
  {
    ParentAndRn(dn);
    ParentNotEmpty(a, dn);
    BelowChild(a, ParentDn(dn).value, RnOf(dn));
  }

  lemma ParentNotEmpty(a: string, dn: string)
    requires Balanced(a) && Below(a, dn)
    ensures ParentDn(dn) != Some("")
  {
    ParentAndRn(dn);
    BelowIsSegmentAncestry(a, dn);
    JoinSplit(a);
    var segments := SplitDn(dn);
    var init := if segments == [] then [] else segments[..|segments| - 1];
    if ParentDn(dn) == Some("") { JoinNothing(init); }
  }

  lemma JoinNothing(segments: seq<string>)
    requires segments != [] && JoinDn(segments) == ""
    ensures segments == [""]
  {
  }

  /** A create below an absent one, through creates, has a parent that stays a create. */
  lemma {:induction false} BelowAbsentStays(p: Probe, creates: set<string>, a: string, dn: string)
    requires Contiguous(creates) && a in creates && !Present(p, a) && dn in creates && Below(a, dn)
    ensures ParentStays(p, creates, dn)
    decreases |dn|
  {
    ParentAndRn(dn);
    ParentStillBelow(a, dn);
    var up := ParentDn(dn).value;
    if up != a { BelowAbsentStays(p, creates, a, up); }
  }

  /** Nothing below a create confirmed absent is ever read. */
  lemma NothingBelowAbsentProbed(p: Probe, part: PlanResult, end: State, a: string, dn: string)
    requires Ended(p, part, end) && Contiguous(SetOf(part.creates))
    requires a in part.creates && !Present(p, a) && Below(a, dn)
    ensures dn !in end.probed
  {
    ProbedExactly(p, part, end, dn);
    if dn in part.creates { BelowAbsentStays(p, SetOf(part.creates), a, dn); }
  }

  /**
   * Each reported create ends in exactly one list: still a create, or an update, or unchanged as the
   * comparison with what was read says; what was not a create stays where it was.
   */
  lemma RefinedPartition(p: Probe, part: PlanResult, end: State, dn: string)
    requires Ended(p, part, end)
    ensures var r := end.result.(creates := Kept(part.creates, end.creates));
            if dn in part.creates && !Stays(p, SetOf(part.creates), dn) then
              && dn !in r.creates && !Finding(p, dn).Create?
              && (Finding(p, dn).Update? ==> dn in r.updates && r.updates[dn] == Finding(p, dn).changes)
              && (Finding(p, dn).Update? && dn !in part.same ==> dn !in r.same)
              && (Finding(p, dn).Same? ==> dn in r.same)
              && (Finding(p, dn).Same? && dn !in part.updates ==> dn !in r.updates)
            else
              && (dn in r.creates <==> dn in part.creates)
              && (dn in r.updates <==> dn in part.updates) && (dn in part.updates ==> r.updates[dn] == part.updates[dn])
              && (dn in r.same <==> dn in part.same)
  {
    var all := SetOf(part.creates);
    NothingOnTheFrontier(p, part, end);
    SettledIsStays(p, part, end, dn);
    KeptHas(part.creates, end.creates, dn);
    var r := end.result;
    assert r.same == part.same + r.same[|part.same|..];
    hide Judge, Stays;
  }

  // ---- The creates of a plan are contiguous

  /** A desired object is the top or hangs from a desired object; its DN is balanced. */
  lemma {:induction false} ParentDesired(d: Env, dn: string, w: Write)
    requires WfEnv(d) && GoodDn(dn) && w in Flat(d, dn)
    ensures Balanced(w.dn)
    ensures w.dn == dn || (ParentDn(w.dn).Some? && exists v :: v in Flat(d, dn) && v.dn == ParentDn(w.dn).value)
    decreases d
  {
    if w != Write(dn, d.cls, d.attrs) {
      var k := WriteBelongsFlat(d.children, dn, w);
      var kid := Child(dn, d.children[k].rn);
      assert d.children[k] in d.children;
      GoodChild(dn, d.children[k].rn);
      ParentDesired(d.children[k], kid, w);
      FlatInForest(d.children, dn, k);
      hide WfEnv, Flat, GoodDn;
      FlatParts(d, dn);
      if w.dn == kid {
        assert Write(dn, d.cls, d.attrs).dn == dn;
      } else {
        var v :| v in Flat(d.children[k], kid) && v.dn == ParentDn(w.dn).value;
        assert v in Flat(d, dn);
      }
    }
  }

  lemma CreateEntry(es: seq<Entry>, dn: string) returns (e: Entry)
    requires DistinctDns(DesiredOf(es)) && dn in Report(es).creates
    ensures e in es && e.desired.dn == dn && e.verdict.Create?
  {
    assert KnownTo(Report(es), dn);
    OnlyBooked(es, dn);
    var i :| 0 <= i < |es| && es[i].desired.dn == dn;
    ReportPartitions(es, i);
    e := es[i];
  }

  lemma BookedCreate(es: seq<Entry>, e: Entry)
    requires DistinctDns(DesiredOf(es)) && e in es && e.verdict.Create?
    ensures e.desired.dn in Report(es).creates
  {
    var i :| 0 <= i < |es| && es[i] == e;
    ReportPartitions(es, i);
  }

  lemma BlockedFurtherDown(nodes: Objects, ws: seq<Write>, a: Write, u: Write)
    requires Blocked(nodes, ws, a) && AtOrBelow(u.dn, a.dn)
    ensures Blocked(nodes, ws, u)
  {
    var v :| v in ws && AtOrBelow(a.dn, v.dn) && Missing(nodes, v);
    BelowTransitive(v.dn, a.dn, u.dn);
  }

  /** What a plan reports as creates meets the refinement's hypothesis. */
  lemma PlannedCreatesContiguous(m: Models, nodes: Objects, keys: seq<string>, root: string, d: Env, dn: string)
    requires Dict(nodes, keys) && |root| <= |dn| && WfEnv(d) && GoodDn(dn)
    ensures Contiguous(SetOf(Report(Planned(m, d, Current(nodes, keys, root, d, dn), dn)).creates))
  {
    var es := Planned(m, d, Current(nodes, keys, root, d, dn), dn);
    var creates := SetOf(Report(es).creates);
    hide Planned, Report, Current, WfEnv;
    forall a, x | a in creates && x in creates && Below(a, x)
      ensures Balanced(a) && ParentDn(x).Some? && ParentDn(x).value in creates
    {
      ParentIsCreate(m, nodes, keys, root, d, dn, a, x);
    }
  }

  lemma ParentIsCreate(m: Models, nodes: Objects, keys: seq<string>, root: string, d: Env, dn: string, a: string, x: string)
    requires Dict(nodes, keys) && |root| <= |dn| && WfEnv(d) && GoodDn(dn)
    requires var creates := Report(Planned(m, d, Current(nodes, keys, root, d, dn), dn)).creates;
             a in creates && x in creates && Below(a, x)
    ensures Balanced(a) && ParentDn(x).Some?
    ensures ParentDn(x).value in Report(Planned(m, d, Current(nodes, keys, root, d, dn), dn)).creates
  {
    var es := Planned(m, d, Current(nodes, keys, root, d, dn), dn);
    var ws := Flat(d, dn);
    DesiredDistinct(d, dn);
    assert dn != "";
    hide Planned, Report, Current, WfEnv, Dict, Flat, GoodDn, Blocked, DistinctDns;
    PlannedCoversAll(m, d, Current(nodes, keys, root, d, dn), dn);
    var ea := CreateEntry(es, a);
    var ex := CreateEntry(es, x);
    VerdictsAreRight(m, nodes, keys, root, d, dn, ea);
    VerdictsAreRight(m, nodes, keys, root, d, dn, ex);
    ParentDesired(d, dn, ea.desired);
    ParentDesired(d, dn, ex.desired);
    FlatAtOrBelow(d, dn, ea.desired);
    var u :| u in ws && u.dn == ParentDn(x).value;
    ParentStillBelow(a, x);
    BlockedFurtherDown(nodes, ws, ea.desired, u);
    var eu := HasEntry(m, d, Current(nodes, keys, root, d, dn), dn, u);
    VerdictsAreRight(m, nodes, keys, root, d, dn, eu);
    BookedCreate(es, eu);
  }
}
