/** A plan is a partition, is exact, and converges (`_plan_result` in `_push.py`). */
module PlanTheorems {
  import opened Text
  import opened Dn
  import opened Store
  import opened Rebuild
  import opened Compiler
  import opened Merge
  import opened MergePush
  import opened Plan

  // ---- The three lists partition the desired objects

  function DesiredOf(es: seq<Entry>): (r: seq<Write>)
    ensures |r| == |es| && forall i :: 0 <= i < |r| ==> r[i] == es[i].desired
  {
    seq(|es|, i requires 0 <= i < |es| => es[i].desired)
  }

  lemma DesiredConcat(a: seq<Entry>, b: seq<Entry>)
    ensures DesiredOf(a + b) == DesiredOf(a) + DesiredOf(b)
  {
  }

  /** The plan judges each desired object once, parents first. */
  lemma {:induction false} PlannedCoversAll(m: Models, d: Env, c: Option<Env>, dn: string)
    requires dn != ""
    ensures DesiredOf(Planned(m, d, c, dn)) == Flat(d, dn)
    decreases d, 0
  {
    PlannedAllCovers(m, d.children, Met(d, c), dn);
    DesiredConcat([OwnEntry(m, d, Met(d, c), dn)], PlannedAll(m, d.children, Met(d, c), dn));
  }

  lemma {:induction false} PlannedAllCovers(m: Models, ds: seq<Env>, parent: Option<Env>, at: string)
    requires at != ""
    ensures DesiredOf(PlannedAll(m, ds, parent, at)) == WritesAll(ds, at)
    decreases ds
  {
    if ds != [] {
      var init, last := ds[..|ds| - 1], ds[|ds| - 1];
      assert ds == init + [last];
      PlannedAllCovers(m, init, parent, at);
      PlannedCoversAll(m, last, ChildOf(parent, last), Child(at, last.rn));
      hide Planned;
      DesiredConcat(PlannedAll(m, init, parent, at), Planned(m, last, ChildOf(parent, last), Child(at, last.rn)));
      WritesAllSnoc(ds, |ds| - 1, at);
      assert ds[..|ds| - 1 + 1] == ds;
    }
  }

  /** Where an entry is booked. */
  ghost predicate BookedRight(r: PlanResult, e: Entry) {
    && (e.desired.dn in r.creates <==> e.verdict.Create?)
    && (e.desired.dn in r.updates <==> e.verdict.Update?)
    && (e.verdict.Update? ==> r.updates[e.desired.dn] == e.verdict.changes)
    && (e.desired.dn in r.same <==> e.verdict.Same?)
  }

  ghost predicate KnownTo(r: PlanResult, dn: string) {
    dn in r.creates || dn in r.updates || dn in r.same
  }

  lemma {:induction false} OnlyBooked(es: seq<Entry>, dn: string)
    requires KnownTo(Report(es), dn)
    ensures exists i :: 0 <= i < |es| && es[i].desired.dn == dn
  {
    var n := |es| - 1;
    assert es == es[..n] + [es[n]];
    ReportSnoc(es[..n], es[n]);
    if es[n].desired.dn != dn {
      assert KnownTo(Report(es[..n]), dn);
      OnlyBooked(es[..n], dn);
      var i :| 0 <= i < n && es[..n][i].desired.dn == dn;
      assert es[i].desired.dn == dn;
    }
  }

  /** Each judged object is in exactly the list its verdict names, and the lists hold nothing else. */
  lemma {:induction false} ReportPartitions(es: seq<Entry>, i: nat)
    requires DistinctDns(DesiredOf(es)) && i < |es|
    ensures BookedRight(Report(es), es[i])
    ensures |Report(es).creates| + |Report(es).updates| + |Report(es).same| == |es|
    decreases |es|
  {
    var n := |es| - 1;
    var init, last := es[..n], es[n];
    assert es == init + [last];
    assert DesiredOf(init) == DesiredOf(es)[..n];
    ReportSnoc(init, last);
    assert !KnownTo(Report(init), last.desired.dn) by { NotYetBooked(es); }
    if n == 0 {
      assert Report(init) == PlanResult([], map[], []);
    } else {
      hide Report;
      ReportPartitions(init, if i < n then i else 0);
      if i < n { assert init[i] == es[i] && DesiredOf(es)[i].dn != DesiredOf(es)[n].dn; }
    }
  }

  lemma NotYetBooked(es: seq<Entry>)
    requires DistinctDns(DesiredOf(es)) && es != []
    ensures !KnownTo(Report(es[..|es| - 1]), es[|es| - 1].desired.dn)
  {
    var n := |es| - 1;
    assert forall i :: 0 <= i < n ==> es[..n][i] == es[i] && DesiredOf(es)[i].dn != DesiredOf(es)[n].dn;
    if KnownTo(Report(es[..n]), es[n].desired.dn) { OnlyBooked(es[..n], es[n].desired.dn); }
  }

  // ---- What the verdicts mean

  /** The read holds no object of the desired class at this DN. */
  ghost predicate Missing(nodes: Objects, w: Write) {
    w.dn !in nodes || nodes[w.dn].cls != w.cls
  }

  /** The object or a desired ancestor of it is missing. */
  ghost predicate Blocked(nodes: Objects, ws: seq<Write>, w: Write) {
    exists v :: v in ws && AtOrBelow(w.dn, v.dn) && Missing(nodes, v)
  }

  ghost predicate JudgedRight(m: Models, nodes: Objects, ws: seq<Write>, e: Entry) {
    && e.desired in ws
    && (Blocked(nodes, ws, e.desired) ==> e.verdict.Create?)
    && (!Blocked(nodes, ws, e.desired) ==> e.desired.dn in nodes && e.verdict == Judge(m, e.desired, nodes[e.desired.dn]))
  }

  /** The current object the walk meets at `dn`. */
  ghost function Current(nodes: Objects, keys: seq<string>, root: string, d: Env, dn: string): Option<Env>
    requires forall k :: k in keys ==> k in nodes
  {
    if dn in nodes && nodes[dn].cls == d.cls then Some(TreeOf(nodes, keys, root, dn)) else None
  }

  /** Looking a desired child up among the current children finds it when it was read with that class. */
  lemma FoundChild(nodes: Objects, keys: seq<string>, root: string, dn: string, child: Env)
    requires Dict(nodes, keys) && dn in nodes && |root| <= |dn| && Balanced(dn) && IsRn(child.rn)
    ensures ChildOf(Some(TreeOf(nodes, keys, root, dn)), child) == Current(nodes, keys, root, child, Child(dn, child.rn))
  {
    var kid := Child(dn, child.rn);
    ChildParts(dn, child.rn);
    var t, kids := TreeOf(nodes, keys, root, dn), Kids(keys, root, dn);
    KidTrees(nodes, keys, root, dn);
    assert AttachedTo(root, dn, kid);
    var found := FindChild(t.children, child.cls, child.rn);
    hide TreeOf, Kids, Longest, FindChild;
    if found.Some? {
      var i :| 0 <= i < |t.children| && t.children[i] == found.value;
      assert kids[i] == kid;
      assert t.children[i] == TreeOf(nodes, keys, root, kid);
    } else if kid in nodes {
      assert kid in kids;
      var i :| 0 <= i < |kids| && kids[i] == kid;
      assert t.children[i] in t.children;
      assert t.children[i].rn == child.rn by { RnOfKid(dn, child.rn, t.children[i].rn); }
    }
  }

  lemma RnOfKid(dn: string, a: string, b: string)
    requires Child(dn, a) == Child(dn, b)
    ensures a == b
  {
    assert a == Child(dn, a)[|dn| + 1..] && b == Child(dn, b)[|dn| + 1..];
  }

  /** Below a create everything is a create. */
  lemma {:induction false} NothingThere(m: Models, d: Env, dn: string)
    ensures forall e :: e in Planned(m, d, None, dn) ==> e.verdict.Create?
    decreases d, 0
  {
    NothingThereAll(m, d.children, dn);
  }

  lemma {:induction false} NothingThereAll(m: Models, ds: seq<Env>, at: string)
    ensures forall e :: e in PlannedAll(m, ds, None, at) ==> e.verdict.Create?
    decreases ds
  {
    if ds != [] {
      NothingThereAll(m, ds[..|ds| - 1], at);
      NothingThere(m, ds[|ds| - 1], Child(at, ds[|ds| - 1].rn));
    }
  }

  lemma {:induction false} BlockedBelowBlocked(nodes: Objects, ws: seq<Write>, top: Write, w: Write)
    requires top in ws && Missing(nodes, top) && AtOrBelow(w.dn, top.dn)
    ensures Blocked(nodes, ws, w)
  {
  }

  /** For an object in one child's subtree: blocked by the top or within that subtree. */
  lemma BlockedStep(nodes: Objects, d: Env, dn: string, i: nat, w: Write)
    requires WfEnv(d) && GoodDn(dn) && i < |d.children|
    requires w in Flat(d.children[i], Child(dn, d.children[i].rn))
    ensures var top := Write(dn, d.cls, d.attrs);
            Blocked(nodes, Flat(d, dn), w) <==> Missing(nodes, top) || Blocked(nodes, Flat(d.children[i], Child(dn, d.children[i].rn)), w)
  {
    var top := Write(dn, d.cls, d.attrs);
    var kid := Child(dn, d.children[i].rn);
    var ws, own := Flat(d, dn), Flat(d.children[i], kid);
    assert d.children[i] in d.children;
    GoodChild(dn, d.children[i].rn);
    FlatAtOrBelow(d.children[i], kid, w);
    FlatInForest(d.children, dn, i);
    assert AtOrBelow(w.dn, dn) by { assert Below(dn, kid); BelowTransitive(dn, kid, w.dn); }
    hide Missing, Flat, WfEnv;
    assert top in ws && forall v :: v in own ==> v in ws by { FlatParts(d, dn); }
    if Blocked(nodes, own, w) {
      var v :| v in own && AtOrBelow(w.dn, v.dn) && Missing(nodes, v);
      assert v in ws;
    }
    if Blocked(nodes, ws, w) && !Missing(nodes, top) {
      var v :| v in ws && AtOrBelow(w.dn, v.dn) && Missing(nodes, v);
      AboveIsOnPath(d, dn, i, w, v);
    }
  }

  lemma FlatParts(d: Env, dn: string)
    ensures Write(dn, d.cls, d.attrs) in Flat(d, dn) && forall v :: v in WritesAll(d.children, dn) ==> v in Flat(d, dn)
  {
  }

  lemma FlatAtOrBelow(d: Env, dn: string, w: Write)
    requires dn != "" && w in Flat(d, dn)
    ensures AtOrBelow(w.dn, dn)
  {
    AllWritesBelow(d.children, dn);
  }

  lemma {:induction false} FlatInForest(ds: seq<Env>, at: string, i: nat)
    requires at != "" && i < |ds|
    ensures forall v :: v in Flat(ds[i], Child(at, ds[i].rn)) ==> v in WritesAll(ds, at)
  {
    assert Writes(ds[0], at) == Flat(ds[0], Child(at, ds[0].rn));
    if i > 0 { FlatInForest(ds[1..], at, i - 1); }
  }

  /** A desired object at or above one in the i-th subtree is the top or in that subtree. */
  lemma AboveIsOnPath(d: Env, dn: string, i: nat, w: Write, v: Write)
    requires WfEnv(d) && GoodDn(dn) && i < |d.children|
    requires w in Flat(d.children[i], Child(dn, d.children[i].rn)) && v in Flat(d, dn) && AtOrBelow(w.dn, v.dn)
    ensures v == Write(dn, d.cls, d.attrs) || v in Flat(d.children[i], Child(dn, d.children[i].rn))
  {
    if v != Write(dn, d.cls, d.attrs) {
      var j := WriteBelongsFlat(d.children, dn, v);
      assert d.children[i] in d.children && d.children[j] in d.children;
      GoodChild(dn, d.children[i].rn);
      GoodChild(dn, d.children[j].rn);
      FlatAtOrBelow(d.children[i], Child(dn, d.children[i].rn), w);
      FlatAtOrBelow(d.children[j], Child(dn, d.children[j].rn), v);
      BelowTransitive(Child(dn, d.children[j].rn), v.dn, w.dn);
      if i != j { SiblingsApart(dn, d.children[i].rn, d.children[j].rn, w.dn); }
    }
  }

  lemma {:induction false} WriteBelongsFlat(ds: seq<Env>, at: string, w: Write) returns (k: nat)
    requires at != "" && w in WritesAll(ds, at)
    ensures k < |ds| && w in Flat(ds[k], Child(at, ds[k].rn))
    decreases ds
  {
    assert Writes(ds[0], at) == Flat(ds[0], Child(at, ds[0].rn));
    if w in Writes(ds[0], at) {
      k := 0;
    } else {
      k := WriteBelongsFlat(ds[1..], at, w);
      k := k + 1;
    }
  }

  lemma {:induction false} PlannedBelongs(m: Models, ds: seq<Env>, parent: Option<Env>, at: string, e: Entry) returns (k: nat)
    requires e in PlannedAll(m, ds, parent, at)
    ensures k < |ds| && e in Planned(m, ds[k], ChildOf(parent, ds[k]), Child(at, ds[k].rn))
    decreases ds
  {
    hide Planned;
    var n := |ds| - 1;
    if e in PlannedAll(m, ds[..n], parent, at) {
      k := PlannedBelongs(m, ds[..n], parent, at, e);
      assert ds[..n][k] == ds[k];
    } else {
      k := n;
    }
  }

  /**
   * A desired object is a create exactly when it or a desired ancestor of it was not read with its
   * class; otherwise it is unchanged when every declared attribute agrees, and an update when not.
   */
  lemma {:induction false} VerdictsAreRight(m: Models, nodes: Objects, keys: seq<string>, root: string, d: Env, dn: string, e: Entry)
    requires Dict(nodes, keys) && |root| <= |dn| && WfEnv(d) && GoodDn(dn)
    requires e in Planned(m, d, Current(nodes, keys, root, d, dn), dn)
    ensures JudgedRight(m, nodes, Flat(d, dn), e)
    decreases d
  {
    var c := Current(nodes, keys, root, d, dn);
    var top := Write(dn, d.cls, d.attrs);
    var ws := Flat(d, dn);
    FlatParts(d, dn);
    PlannedCoversAll(m, d, c, dn);
    EntryDesired(Planned(m, d, c, dn), e);
    assert e.desired in ws;
    FlatAtOrBelow(d, dn, e.desired);
    if Missing(nodes, top) {
      assert c.None?;
      NothingThere(m, d, dn);
      BlockedBelowBlocked(nodes, ws, top, e.desired);
    } else if e == OwnEntry(m, d, c, dn) {
      TopNotBlocked(nodes, d, dn);
      assert e.verdict == Judge(m, top, Obj(c.value.cls, c.value.attrs));
      assert Obj(c.value.cls, c.value.attrs) == nodes[dn];
    } else {
      assert Met(d, c) == c;
      assert e in PlannedAll(m, d.children, c, dn) by { OwnOrBelow(m, d, c, dn, e); }
      var i := PlannedBelongs(m, d.children, c, dn, e);
      assert d.children[i] in d.children;
      GoodChild(dn, d.children[i].rn);
      FoundChild(nodes, keys, root, dn, d.children[i]);
      VerdictsAreRight(m, nodes, keys, root, d.children[i], Child(dn, d.children[i].rn), e);
      BlockedStep(nodes, d, dn, i, e.desired);
    }
  }

  lemma OwnOrBelow(m: Models, d: Env, c: Option<Env>, dn: string, e: Entry)
    requires e in Planned(m, d, c, dn) && e != OwnEntry(m, d, Met(d, c), dn)
    ensures e in PlannedAll(m, d.children, Met(d, c), dn)
  {
  }

  lemma EntryDesired(es: seq<Entry>, e: Entry)
    requires e in es
    ensures e.desired in DesiredOf(es)
  {
    var i :| 0 <= i < |es| && es[i] == e;
    assert DesiredOf(es)[i] == e.desired;
  }

  lemma TopNotBlocked(nodes: Objects, d: Env, dn: string)
    requires WfEnv(d) && GoodDn(dn) && !Missing(nodes, Write(dn, d.cls, d.attrs))
    ensures !Blocked(nodes, Flat(d, dn), Write(dn, d.cls, d.attrs))
  {
    AllWritesBelow(d.children, dn);
  }

  // ---- Exactness

  lemma {:induction false} NoChangesIffAllSame(es: seq<Entry>)
    ensures !HasChanges(Report(es)) <==> forall e :: e in es ==> e.verdict.Same?
  {
    if es != [] {
      var init, last := es[..|es| - 1], es[|es| - 1];
      assert es == init + [last];
      NoChangesIffAllSame(init);
      ReportSnoc(init, last);
      hide Report;
      if last.verdict.Update? { assert last.desired.dn in Report(es).updates; }
    }
  }

  lemma NoDrift(m: Models, d: Write, c: Obj)
    ensures Drift(m, d, c) == map[] <==>
            forall wire :: wire in d.attrs ==> wire in c.attrs && Agree(m, d.cls, wire, c.attrs[wire], d.attrs[wire])
  {
    var changes := Drift(m, d, c);
    if changes == map[] {
      forall wire | wire in d.attrs ensures wire in c.attrs && Agree(m, d.cls, wire, c.attrs[wire], d.attrs[wire]) {
        assert wire !in changes;
      }
    }
  }

  /** The read already shows everything the desired object declares. */
  ghost predicate Settled(m: Models, nodes: Objects, w: Write) {
    !Missing(nodes, w) && Drift(m, w, nodes[w.dn]) == map[]
  }

  lemma HasEntry(m: Models, d: Env, c: Option<Env>, dn: string, w: Write) returns (e: Entry)
    requires dn != "" && w in Flat(d, dn)
    ensures e in Planned(m, d, c, dn) && e.desired == w
  {
    PlannedCoversAll(m, d, c, dn);
    var es := Planned(m, d, c, dn);
    var i :| 0 <= i < |DesiredOf(es)| && DesiredOf(es)[i] == w;
    e := es[i];
  }

  lemma AllSameIffSettled(m: Models, nodes: Objects, keys: seq<string>, root: string, d: Env, dn: string)
    requires Dict(nodes, keys) && |root| <= |dn| && WfEnv(d) && GoodDn(dn)
    ensures (forall e :: e in Planned(m, d, Current(nodes, keys, root, d, dn), dn) ==> e.verdict.Same?) <==>
            (forall w :: w in Flat(d, dn) ==> Settled(m, nodes, w))
  {
    var es := Planned(m, d, Current(nodes, keys, root, d, dn), dn);
    var ws := Flat(d, dn);
    hide Planned, Flat, Current, Dict, WfEnv, GoodDn, Drift, Missing;
    if forall e :: e in es ==> e.verdict.Same? {
      forall w | w in ws ensures Settled(m, nodes, w) {
        var e := HasEntry(m, d, Current(nodes, keys, root, d, dn), dn, w);
        VerdictsAreRight(m, nodes, keys, root, d, dn, e);
        if Missing(nodes, w) { BlockedBelowBlocked(nodes, ws, w, w); }
      }
    }
    if forall w :: w in ws ==> Settled(m, nodes, w) {
      forall e | e in es ensures e.verdict.Same? {
        VerdictsAreRight(m, nodes, keys, root, d, dn, e);
      }
    }
  }

  /** The read shows the store as it is, and every declared object the store holds with its class. */
  ghost predicate ReadsDeclared(objects: Objects, nodes: Objects, ws: seq<Write>) {
    && (forall dn :: dn in nodes ==> dn in objects && nodes[dn] == objects[dn])
    && (forall w :: w in ws && w.dn in objects && objects[w.dn].cls == w.cls ==> w.dn in nodes)
  }

  lemma DistinctIsConsistent(m: Models, ws: seq<Write>)
    requires DistinctDns(ws)
    ensures Consistent(m, ws)
  {
    forall v, w | v in ws && w in ws && v.dn == w.dn ensures v == w {
      var i :| 0 <= i < |ws| && ws[i] == v;
      var j :| 0 <= j < |ws| && ws[j] == w;
    }
  }

  lemma CanonSame(m: Models, a: Objects, b: Objects, dn: string)
    requires CanonStore(m, a) == CanonStore(m, b)
    ensures dn in a <==> dn in b
    ensures dn in a ==> a[dn].cls == b[dn].cls && a[dn].attrs.Keys == b[dn].attrs.Keys
    ensures dn in a ==> forall wire :: wire in a[dn].attrs ==> Agree(m, a[dn].cls, wire, a[dn].attrs[wire], b[dn].attrs[wire])
  {
    assert dn in a <==> dn in CanonStore(m, a);
    assert dn in b <==> dn in CanonStore(m, b);
    if dn in a {
      assert CanonStore(m, a)[dn] == CanonObj(m, a[dn]) && CanonStore(m, b)[dn] == CanonObj(m, b[dn]);
      assert a[dn].attrs.Keys == CanonObj(m, a[dn]).attrs.Keys;
      assert b[dn].attrs.Keys == CanonObj(m, b[dn]).attrs.Keys;
      forall wire | wire in a[dn].attrs ensures Agree(m, a[dn].cls, wire, a[dn].attrs[wire], b[dn].attrs[wire]) {
        assert CanonObj(m, a[dn]).attrs[wire] == CanonObj(m, b[dn]).attrs[wire];
      }
    }
  }

  lemma SettledIfKept(m: Models, objects: Objects, nodes: Objects, ws: seq<Write>, w: Write)
    requires DistinctDns(ws) && ReadsDeclared(objects, nodes, ws) && w in ws
    requires CanonStore(m, Apply(objects, ws)) == CanonStore(m, objects)
    ensures Settled(m, nodes, w)
  {
    hide CanonStore, Apply;
    DistinctIsConsistent(m, ws);
    AppliedShows(m, objects, ws, w);
    CanonSame(m, Apply(objects, ws), objects, w.dn);
    NoDrift(m, w, nodes[w.dn]);
  }

  lemma KeptAt(m: Models, objects: Objects, nodes: Objects, ws: seq<Write>, dn: string, wire: string)
    requires DistinctDns(ws) && ReadsDeclared(objects, nodes, ws) && forall w :: w in ws ==> Settled(m, nodes, w)
    ensures var x := Apply(objects, ws);
            && (dn in x <==> dn in objects)
            && (dn in x ==> x[dn].cls == objects[dn].cls && (wire in x[dn].attrs <==> wire in objects[dn].attrs))
            && (dn in x && wire in x[dn].attrs ==> Agree(m, x[dn].cls, wire, x[dn].attrs[wire], objects[dn].attrs[wire]))
  {
    DistinctIsConsistent(m, ws);
    if Touches(ws, dn) {
      var w :| w in ws && w.dn == dn;
      NoDrift(m, w, nodes[dn]);
      hide Apply, Consistent, Drift;
      AppliedShows(m, objects, ws, w);
      if wire !in w.attrs {
        assert forall v :: v in ws && v.dn == dn ==> v == w by { OnlyOne(ws, w); }
        AppliedElsewhere(objects, ws, dn, wire);
      }
    } else {
      hide Apply, Consistent, Drift;
      Untouched(objects, ws, dn);
    }
  }

  lemma OnlyOne(ws: seq<Write>, w: Write)
    requires DistinctDns(ws) && w in ws
    ensures forall v :: v in ws && v.dn == w.dn ==> v == w
  {
    forall v | v in ws && v.dn == w.dn ensures v == w {
      var i :| 0 <= i < |ws| && ws[i] == v;
      var j :| 0 <= j < |ws| && ws[j] == w;
    }
  }

  lemma KeptIfSettled(m: Models, objects: Objects, nodes: Objects, ws: seq<Write>)
    requires DistinctDns(ws) && ReadsDeclared(objects, nodes, ws) && forall w :: w in ws ==> Settled(m, nodes, w)
    ensures CanonStore(m, Apply(objects, ws)) == CanonStore(m, objects)
  {
    var x := Apply(objects, ws);
    hide Apply, ReadsDeclared, Settled, DistinctDns;
    forall dn ensures dn in x <==> dn in objects { KeptAt(m, objects, nodes, ws, dn, ""); }
    forall dn | dn in x ensures CanonObj(m, x[dn]) == CanonObj(m, objects[dn]) {
      KeptAt(m, objects, nodes, ws, dn, "");
      forall wire
        ensures wire in x[dn].attrs <==> wire in objects[dn].attrs
        ensures wire in x[dn].attrs ==> m.canon(x[dn].cls, wire, x[dn].attrs[wire]) == m.canon(x[dn].cls, wire, objects[dn].attrs[wire])
      {
        KeptAt(m, objects, nodes, ws, dn, wire);
      }
      assert CanonObj(m, x[dn]).attrs == CanonObj(m, objects[dn]).attrs;
    }
  }

  lemma DesiredDistinct(d: Env, dn: string)
    requires WfEnv(d) && GoodDn(dn)
    ensures DistinctDns(Flat(d, dn))
  {
    AllWritesDistinct(d.children, dn);
    AllWritesBelow(d.children, dn);
    var top := [Write(dn, d.cls, d.attrs)];
    assert Apart(top, WritesAll(d.children, dn));
    DistinctConcat(top, WritesAll(d.children, dn));
  }

  /** A plan reports no change exactly when ingesting the design leaves the store as it is. */
  lemma PlanIsExact(m: Models, objects: Objects, nodes: Objects, keys: seq<string>, root: string, d: Env, dn: string)
    requires Dict(nodes, keys) && |root| <= |dn| && WfEnv(d) && GoodDn(dn)
    requires ReadsDeclared(objects, nodes, Flat(d, dn))
    ensures !HasChanges(Report(Planned(m, d, Current(nodes, keys, root, d, dn), dn))) <==>
            CanonStore(m, Apply(objects, Flat(d, dn))) == CanonStore(m, objects)
  {
    var ws := Flat(d, dn);
    NoChangesIffAllSame(Planned(m, d, Current(nodes, keys, root, d, dn), dn));
    AllSameIffSettled(m, nodes, keys, root, d, dn);
    DesiredDistinct(d, dn);
    hide *;
    if CanonStore(m, Apply(objects, ws)) == CanonStore(m, objects) {
      forall w | w in ws ensures Settled(m, nodes, w) { SettledIfKept(m, objects, nodes, ws, w); }
    }
    if forall w :: w in ws ==> Settled(m, nodes, w) { KeptIfSettled(m, objects, nodes, ws); }
  }

  lemma IngestTwice(m: Models, objects: Objects, ws: seq<Write>)
    requires DistinctDns(ws)
    ensures CanonStore(m, Apply(Apply(objects, ws), ws)) == CanonStore(m, Apply(objects, ws))
  {
    ApplyConcat(objects, ws, ws);
    DistinctIsConsistent(m, ws);
    hide Apply, CanonStore;
    assert forall w :: w in ws + ws <==> w in ws;
    SameMembers(m, objects, ws, ws + ws);
  }

  /** Once the design is ingested, a plan over what is then read reports no change. */
  lemma PlanConverges(m: Models, objects: Objects, nodes: Objects, keys: seq<string>, root: string, d: Env, dn: string)
    requires Dict(nodes, keys) && |root| <= |dn| && WfEnv(d) && GoodDn(dn)
    requires ReadsDeclared(Apply(objects, Flat(d, dn)), nodes, Flat(d, dn))
    ensures !HasChanges(Report(Planned(m, d, Current(nodes, keys, root, d, dn), dn)))
  {
    DesiredDistinct(d, dn);
    hide *;
    IngestTwice(m, objects, Flat(d, dn));
    PlanIsExact(m, Apply(objects, Flat(d, dn)), nodes, keys, root, d, dn);
  }
}
