/** What a plan and its refinement report of each object, attribute by attribute (`_plan_result`, `_absorb_found`). */
module Changes {
  import opened Text
  import opened Dn
  import opened Store
  import opened Rebuild
  import opened Compiler
  import opened Merge
  import P = Plan
  import opened PlanTheorems
  import opened Refine
  import opened RefineTheorems

  /** The attribute is declared and was not read, or was read as another value. */
  ghost predicate Off(m: Models, w: Write, o: Obj, wire: string) {
    wire in w.attrs && (wire in o.attrs ==> m.canon(w.cls, wire, o.attrs[wire]) != m.canon(w.cls, wire, w.attrs[wire]))
  }

  /** Exactly the attributes that are off, each with the value read, if any, and then the declared one. */
  ghost predicate Differences(m: Models, w: Write, o: Obj, changes: P.Changes) {
    && (forall wire :: wire in changes <==> Off(m, w, o, wire))
    && forall wire :: wire in changes ==>
         changes[wire].0 == (if wire in o.attrs then Some(o.attrs[wire]) else None) && changes[wire].1 == w.attrs[wire]
  }

  /** How an object that was read is booked: an update with its differences, or unchanged without any. */
  ghost predicate Compared(m: Models, w: Write, o: Obj, r: P.PlanResult) {
    && (w.dn in r.updates <==> exists wire :: Off(m, w, o, wire))
    && (w.dn in r.updates ==> Differences(m, w, o, r.updates[w.dn]))
    && (w.dn in r.same <==> forall wire :: !Off(m, w, o, wire))
  }

  lemma JudgeMeans(m: Models, w: Write, o: Obj)
    ensures P.Judge(m, w, o).Update? <==> exists wire :: Off(m, w, o, wire)
    ensures P.Judge(m, w, o).Update? ==> Differences(m, w, o, P.Judge(m, w, o).changes)
    ensures P.Judge(m, w, o).Same? <==> forall wire :: !Off(m, w, o, wire)
  {
    var changes := P.Drift(m, w, o);
    forall wire ensures wire in changes <==> Off(m, w, o, wire) {}
    hide Off;
    if changes != map[] {
      var wire :| wire in changes;
      assert Off(m, w, o, wire);
    }
  }

  /** The tree read at the DN, of whatever class its top is. */
  function ReadAt(nodes: Objects, keys: seq<string>, root: string, dn: string): Option<Env>
    requires forall k :: k in keys ==> k in nodes
  {
    if dn in nodes then Some(TreeOf(nodes, keys, root, dn)) else None
  }

  /** A top of another class counts as absent. */
  lemma OtherClassIsAbsent(m: Models, nodes: Objects, keys: seq<string>, root: string, d: Env, dn: string)
    requires forall k :: k in keys ==> k in nodes
    ensures P.Planned(m, d, ReadAt(nodes, keys, root, dn), dn) == P.Planned(m, d, Current(nodes, keys, root, d, dn), dn)
  {
    assert P.Met(d, ReadAt(nodes, keys, root, dn)) == P.Met(d, Current(nodes, keys, root, d, dn));
    hide P.PlannedAll, P.OwnEntry, P.Met, TreeOf;
  }

  /**
   * A desired object is a create when it or a desired ancestor was not read with its class; otherwise it
   * is compared with what was read at its DN. It is in one list only.
   */
  lemma PlanReports(m: Models, nodes: Objects, keys: seq<string>, root: string, d: Env, dn: string, w: Write)
    requires Dict(nodes, keys) && |root| <= |dn| && WfEnv(d) && GoodDn(dn) && w in Flat(d, dn)
    ensures var r := P.Report(P.Planned(m, d, ReadAt(nodes, keys, root, dn), dn));
            && (w.dn in r.creates <==> Blocked(nodes, Flat(d, dn), w))
            && (w.dn in r.creates ==> w.dn !in r.updates && w.dn !in r.same)
            && (w.dn !in r.creates ==> w.dn in nodes && nodes[w.dn].cls == w.cls && Compared(m, w, nodes[w.dn], r))
  {
    var c := Current(nodes, keys, root, d, dn);
    var es := P.Planned(m, d, c, dn);
    OtherClassIsAbsent(m, nodes, keys, root, d, dn);
    DesiredDistinct(d, dn);
    hide P.Planned, P.Report, Current, ReadAt, Flat, Blocked, Missing, DistinctDns, P.Judge, Compared, WfEnv, GoodDn, Dict;
    var e := HasEntry(m, d, c, dn, w);
    PlannedCoversAll(m, d, c, dn);
    VerdictsAreRight(m, nodes, keys, root, d, dn, e);
    var i :| 0 <= i < |es| && es[i] == e;
    ReportPartitions(es, i);
    if !Blocked(nodes, Flat(d, dn), w) {
      NotMissing(nodes, Flat(d, dn), w);
      JudgeMeans(m, w, nodes[w.dn]);
      BookedIsCompared(m, w, nodes[w.dn], P.Report(es), e);
    }
  }

  lemma NotMissing(nodes: Objects, ws: seq<Write>, w: Write)
    requires w in ws && !Blocked(nodes, ws, w)
    ensures w.dn in nodes && nodes[w.dn].cls == w.cls
  {
    assert AtOrBelow(w.dn, w.dn);
  }

  lemma BookedIsCompared(m: Models, w: Write, o: Obj, r: P.PlanResult, e: P.Entry)
    requires BookedRight(r, e) && e.desired == w && e.verdict == P.Judge(m, w, o)
    ensures Compared(m, w, o, r)
  {
    JudgeMeans(m, w, o);
    hide P.Judge, Off, Differences;
  }

  /** A plan lists desired DNs only. */
  lemma PlanListsDesired(m: Models, d: Env, c: Option<Env>, dn: string, x: string)
    requires dn != "" && KnownTo(P.Report(P.Planned(m, d, c, dn)), x)
    ensures exists w :: w in Flat(d, dn) && w.dn == x
  {
    var es := P.Planned(m, d, c, dn);
    hide P.Report, P.Planned, Flat;
    PlannedCoversAll(m, d, c, dn);
    OnlyBooked(es, x);
    var i :| 0 <= i < |es| && es[i].desired.dn == x;
    assert DesiredOf(es)[i] in DesiredOf(es);
  }

  // ---- After the refinement

  /** A bare read answers at the DN with the class of the desired object. */
  ghost predicate Answers(p: Probe, dn: string) {
    dn in p.index && p.fetch(dn).Some? && p.fetch(dn).value.cls == p.index[dn].cls
  }

  lemma AnswersIs(p: Probe, dn: string)
    ensures Answers(p, dn) <==> Present(p, dn)
  {
  }

  ghost function Refined(part: P.PlanResult, end: State): P.PlanResult {
    end.result.(creates := Kept(part.creates, end.creates))
  }

  lemma {:induction false} KeptInOrder(order: seq<string>, creates: set<string>)
    ensures InOrderOf(Kept(order, creates), order)
  {
    if order != [] {
      var init, last := order[..|order| - 1], order[|order| - 1];
      assert order == init + [last];
      KeptInOrder(init, creates);
      forall x | x in Kept(init, creates) ensures x in init { KeptHas(init, creates, x); }
      InOrderSnoc(Kept(init, creates), init, last);
    }
  }

  /** A reported create stays one exactly when the bare read does not find it, or its parent stays one. */
  lemma CreatesLeft(p: Probe, part: P.PlanResult, end: State, dn: string)
    requires Ended(p, part, end)
    ensures InOrderOf(Refined(part, end).creates, part.creates)
    ensures dn in Refined(part, end).creates <==>
            dn in part.creates && (!Answers(p, dn) || (ParentDn(dn).Some? && ParentDn(dn).value in Refined(part, end).creates))
  {
    FinalCreates(p, part, end, dn);
    if ParentDn(dn).Some? { FinalCreates(p, part, end, ParentDn(dn).value); }
    KeptInOrder(part.creates, end.creates);
    hide Ended, Kept;
  }

  /** A create that is found is compared with what the bare read gave, and booked by that; the rest stays as it was. */
  lemma RefineReports(p: Probe, part: P.PlanResult, end: State, dn: string)
    requires Ended(p, part, end) && Indexed(p)
    requires dn in part.creates ==> dn !in part.updates && dn !in part.same
    ensures var r := Refined(part, end);
            if dn in part.creates && dn !in r.creates
            then Answers(p, dn) && Compared(p.m, p.index[dn], p.fetch(dn).value, r)
            else && (dn in r.updates <==> dn in part.updates) && (dn in r.updates ==> r.updates[dn] == part.updates[dn])
                 && (dn in r.same <==> dn in part.same)
  {
    FinalCreates(p, part, end, dn);
    RefinedPartition(p, part, end, dn);
    if dn in part.creates && !Stays(p, SetOf(part.creates), dn) {
      AnswersIs(p, dn);
      JudgeMeans(p.m, p.index[dn], p.fetch(dn).value);
    }
    hide Ended, Kept, Off, Differences, P.Judge, Stays;
  }
}
