/** A merge means pushing its sources one after the other (`_compose.py`, `merge`). */
module MergeMeaning {
  import opened Text
  import opened Dn
  import opened Store
  import opened Merge

  // ---- Contradictions

  ghost predicate Sets(d: Decln, wire: string, value: string) {
    (wire in d.typed && d.typed[wire] == value) || (wire in d.raw && d.raw[wire] == value)
  }

  ghost predicate TwoClasses(ds: seq<Decln>) {
    exists d, e :: d in ds && e in ds && d.dn == e.dn && d.cls != e.cls
  }

  /** Two declarations of one object set an attribute to values that do not coerce to the same. */
  ghost predicate TwoValues(m: Models, ds: seq<Decln>) {
    exists d, e, wire, a, b :: d in ds && e in ds && d.dn == e.dn && Sets(d, wire, a) && Sets(e, wire, b) && !Agree(m, d.cls, wire, a, b)
  }

  /** The i-th declaration is the first of its object to set the attribute, and does so in the raw channel only. */
  ghost predicate FirstRaw(ds: seq<Decln>, i: nat, wire: string) {
    && i < |ds| && wire in ds[i].raw && wire !in ds[i].typed
    && forall k :: 0 <= k < i && ds[k].dn == ds[i].dn ==> wire !in ds[k].typed && wire !in ds[k].raw
  }

  /** An attribute first set in the raw channel is spelled otherwise by a later raw declaration. */
  ghost predicate RawClash(ds: seq<Decln>) {
    exists i: nat, j: nat, wire :: RespeltAt(ds, i, j, wire)
  }

  ghost predicate RespeltAt(ds: seq<Decln>, i: nat, j: nat, wire: string) {
    FirstRaw(ds, i, wire) && i < j < |ds| && ds[j].dn == ds[i].dn && wire in ds[j].raw && ds[j].raw[wire] != ds[i].raw[wire]
  }

  // ---- What the merged objects hold

  ghost predicate DeclaresAt(ds: seq<Decln>, dn: string) {
    exists d :: d in ds && d.dn == dn
  }

  /** Some declaration of the object sets the attribute, in this channel, to this very value. */
  ghost predicate TypedFrom(ds: seq<Decln>, dn: string, wire: string, value: string) {
    exists d :: d in ds && d.dn == dn && wire in d.typed && d.typed[wire] == value
  }

  ghost predicate RawFrom(ds: seq<Decln>, dn: string, wire: string, value: string) {
    exists d :: d in ds && d.dn == dn && wire in d.raw && d.raw[wire] == value
  }

  ghost predicate BindFrom(ds: seq<Decln>, dn: string, b: Bind) {
    exists d :: d in ds && d.dn == dn && b in d.binds
  }

  /** The merged object holds a value agreeing with `value`. */
  ghost predicate Carries(m: Models, c: Decln, wire: string, value: string) {
    (wire in c.typed || wire in c.raw) && Agree(m, c.cls, wire, if wire in c.typed then c.typed[wire] else c.raw[wire], value)
  }

  /** Everything a declaration says is in the merged object. */
  ghost predicate Covers(m: Models, c: Decln, d: Decln) {
    && c.dn == d.dn && c.cls == d.cls
    && (forall wire, value :: Sets(d, wire, value) ==> Carries(m, c, wire, value))
    && (forall b :: b in d.binds ==> b in c.binds)
  }

  /** Everything in the merged object comes from a declaration of it; one channel an attribute. */
  ghost predicate Justified(ds: seq<Decln>, c: Decln) {
    && c.typed.Keys !! c.raw.Keys
    && (forall wire :: wire in c.typed ==> TypedFrom(ds, c.dn, wire, c.typed[wire]))
    && (forall wire :: wire in c.raw ==> RawFrom(ds, c.dn, wire, c.raw[wire]))
    && (forall b :: b in c.binds ==> BindFrom(ds, c.dn, b))
  }

  ghost predicate Represents(m: Models, byDn: Merged, ds: seq<Decln>) {
    && RootKept(byDn)
    && (forall dn :: dn in byDn <==> dn == "uni" || DeclaresAt(ds, dn))
    && (forall dn :: dn in byDn ==> byDn[dn].dn == dn && Justified(ds, byDn[dn]))
    && (forall d :: d in ds ==> d.dn in byDn && Covers(m, byDn[d.dn], d))
  }

  lemma AbsorbedCovers(m: Models, c: Decln, d: Decln)
    requires c.dn == d.dn && c.cls == d.cls && c.typed.Keys !! c.raw.Keys && Fits(m, c, d)
    ensures Covers(m, Absorbed(c, d), d) && Absorbed(c, d).typed.Keys !! Absorbed(c, d).raw.Keys
  {
    var after := Absorbed(c, d);
    forall wire, value | Sets(d, wire, value) ensures Carries(m, after, wire, value) {
      if wire in d.typed && d.typed[wire] == value {
        assert TypedFits1(m, c, wire, value);
      } else {
        assert RawFits1(m, c.(typed := TypedAfter(c, d)), wire, value);
      }
    }
  }

  lemma AbsorbedKeeps(m: Models, c: Decln, d: Decln, e: Decln)
    requires Covers(m, c, e) && c.typed.Keys !! c.raw.Keys
    ensures Covers(m, Absorbed(c, d), e)
  {
    var after := Absorbed(c, d);
    forall wire, value | Sets(e, wire, value) ensures Carries(m, after, wire, value) {
      assert Carries(m, c, wire, value);
    }
  }

  lemma JustifiedGrows(ds: seq<Decln>, d: Decln, c: Decln)
    requires Justified(ds, c)
    ensures Justified(ds + [d], c)
  {
    hide Sets;
    forall wire | wire in c.typed ensures TypedFrom(ds + [d], c.dn, wire, c.typed[wire]) {
      var e :| e in ds && e.dn == c.dn && wire in e.typed && e.typed[wire] == c.typed[wire];
      assert e in ds + [d];
    }
    forall wire | wire in c.raw ensures RawFrom(ds + [d], c.dn, wire, c.raw[wire]) {
      var e :| e in ds && e.dn == c.dn && wire in e.raw && e.raw[wire] == c.raw[wire];
      assert e in ds + [d];
    }
    forall b | b in c.binds ensures BindFrom(ds + [d], c.dn, b) {
      var e :| e in ds && e.dn == c.dn && b in e.binds;
      assert e in ds + [d];
    }
  }

  lemma AbsorbedJustified(m: Models, ds: seq<Decln>, c: Decln, d: Decln)
    requires Justified(ds, c) && c.dn == d.dn && c.cls == d.cls && Fits(m, c, d)
    ensures Justified(ds + [d], Absorbed(c, d))
  {
    var after := Absorbed(c, d);
    JustifiedGrows(ds, d, c);
    AbsorbedCovers(m, c, d);
    assert d in ds + [d];
    hide Fits, Covers;
    forall wire | wire in after.typed ensures TypedFrom(ds + [d], c.dn, wire, after.typed[wire]) {
      if wire in c.typed { assert after.typed[wire] == c.typed[wire]; } else { assert after.typed[wire] == d.typed[wire]; }
    }
    forall wire | wire in after.raw ensures RawFrom(ds + [d], c.dn, wire, after.raw[wire]) {
      if wire in c.raw { assert after.raw[wire] == c.raw[wire]; } else { assert after.raw[wire] == d.raw[wire]; }
    }
    forall b | b in after.binds ensures BindFrom(ds + [d], c.dn, b) {
      if b in c.binds { assert BindFrom(ds + [d], c.dn, b); }
    }
  }

  /** The object the declaration `d` goes into. */
  ghost function Target(byDn: Merged, d: Decln): Decln {
    if d.dn in byDn then byDn[d.dn] else Bare(d)
  }

  lemma StepGoesIn(m: Models, byDn: Merged, d: Decln)
    requires Fold1(m, Folded(byDn, true), d).ok
    ensures Fold1(m, Folded(byDn, true), d).byDn == byDn[d.dn := Absorbed(Target(byDn, d), d)]
    ensures Target(byDn, d).cls == d.cls && Fits(m, Target(byDn, d), d)
  {
  }

  lemma RepresentsStep(m: Models, byDn: Merged, ds: seq<Decln>, d: Decln)
    requires Represents(m, byDn, ds)
    requires Fold1(m, Folded(byDn, true), d).ok
    ensures Represents(m, Fold1(m, Folded(byDn, true), d).byDn, ds + [d])
  {
    var after := Fold1(m, Folded(byDn, true), d).byDn;
    var all := ds + [d];
    var c := Target(byDn, d);
    StepGoesIn(m, byDn, d);
    assert c.dn == d.dn && Justified(ds, c);
    hide Justified, Covers, Fits, Absorbed, Fold1, DeclaresAt, Target;
    AbsorbedKeepsClass();
    ChannelsApart(ds, c);
    AbsorbedCovers(m, c, d);
    AbsorbedJustified(m, ds, c, d);
    forall dn ensures dn in after <==> dn == "uni" || DeclaresAt(all, dn) { DeclaresSnoc(ds, d, dn); }
    forall dn | dn in after ensures after[dn].dn == dn && Justified(all, after[dn]) {
      if dn != d.dn { JustifiedGrows(ds, d, byDn[dn]); }
    }
    RepresentsStepCovers(m, byDn, ds, d, c);
  }

  lemma RepresentsStepCovers(m: Models, byDn: Merged, ds: seq<Decln>, d: Decln, c: Decln)
    requires Represents(m, byDn, ds) && c == Target(byDn, d) && Covers(m, Absorbed(c, d), d) && c.typed.Keys !! c.raw.Keys
    ensures forall e :: e in ds + [d] ==> e.dn in byDn[d.dn := Absorbed(c, d)] && Covers(m, byDn[d.dn := Absorbed(c, d)][e.dn], e)
  {
    hide Justified, Covers, Absorbed, DeclaresAt;
    forall e | e in ds + [d] ensures e.dn in byDn[d.dn := Absorbed(c, d)] && Covers(m, byDn[d.dn := Absorbed(c, d)][e.dn], e) {
      if e in ds && e.dn == d.dn { AbsorbedKeeps(m, c, d, e); }
    }
  }

  lemma ChannelsApart(ds: seq<Decln>, c: Decln)
    requires Justified(ds, c)
    ensures c.typed.Keys !! c.raw.Keys
  {
  }

  lemma DeclaresSnoc(ds: seq<Decln>, d: Decln, dn: string)
    ensures DeclaresAt(ds + [d], dn) <==> DeclaresAt(ds, dn) || dn == d.dn
  {
    if DeclaresAt(ds, dn) { var e :| e in ds && e.dn == dn; assert e in ds + [d]; }
    if dn == d.dn { assert d in ds + [d]; }
  }

  /** A merge without contradiction holds what the declarations say, all of it and nothing else. */
  lemma {:induction false} MergeRepresents(m: Models, ds: seq<Decln>)
    requires Fold(m, EMPTY, ds).ok
    ensures Represents(m, Fold(m, EMPTY, ds).byDn, ds)
  {
    if ds == [] {
      assert !exists dn :: DeclaresAt(ds, dn);
    } else {
      var init, last := ds[..|ds| - 1], ds[|ds| - 1];
      assert ds == init + [last];
      if !Fold(m, EMPTY, init).ok { FailedStays(m, EMPTY, init, [last]); }
      MergeRepresents(m, init);
      hide Represents;
      RepresentsStep(m, Fold(m, EMPTY, init).byDn, init, last);
    }
  }

  // ---- A conflict is a contradiction

  lemma CoveredAgree(m: Models, c: Decln, d: Decln, e: Decln, wire: string, a: string, b: string)
    requires Covers(m, c, d) && Covers(m, c, e) && Sets(d, wire, a) && Sets(e, wire, b)
    ensures Agree(m, d.cls, wire, a, b)
  {
    assert Carries(m, c, wire, a) && Carries(m, c, wire, b);
  }

  lemma RepresentedIsConsistent(m: Models, byDn: Merged, ds: seq<Decln>)
    requires Represents(m, byDn, ds)
    ensures !TwoClasses(ds) && !TwoValues(m, ds)
  {
    hide Covers, Justified, Sets, Agree;
    if TwoClasses(ds) {
      var d, e :| d in ds && e in ds && d.dn == e.dn && d.cls != e.cls;
      SameClassCovered(m, byDn[d.dn], d, e);
    }
    if TwoValues(m, ds) {
      var d, e, wire, a, b :| d in ds && e in ds && d.dn == e.dn && Sets(d, wire, a) && Sets(e, wire, b) && !Agree(m, d.cls, wire, a, b);
      CoveredAgree(m, byDn[d.dn], d, e, wire, a, b);
    }
  }

  lemma SameClassCovered(m: Models, c: Decln, d: Decln, e: Decln)
    requires Covers(m, c, d) && Covers(m, c, e)
    ensures d.cls == e.cls == c.cls
  {
  }

  /** The class of a merged object is that of its declarations. */
  lemma ClassFrom(m: Models, byDn: Merged, ds: seq<Decln>, dn: string, d: Decln)
    requires Represents(m, byDn, ds) && d in ds && d.dn == dn
    ensures dn in byDn && byDn[dn].cls == d.cls
  {
  }

  lemma TwoValuesIs(m: Models, ds: seq<Decln>, d: Decln, e: Decln, wire: string, a: string, b: string)
    requires d in ds && e in ds && d.dn == e.dn && Sets(d, wire, a) && Sets(e, wire, b) && !Agree(m, d.cls, wire, a, b)
    ensures TwoValues(m, ds)
  {
  }

  /** The object `c` as merged from `ds`, about to meet the declaration `d` of the same class. */
  ghost predicate Meets(ds: seq<Decln>, c: Decln, d: Decln) {
    && c.dn == d.dn && c.cls == d.cls && Justified(ds, c)
    && forall e :: e in ds && e.dn == c.dn ==> e.cls == c.cls
  }

  /** A value that does not fit contradicts the declaration the merged value comes from. */
  lemma TypedMisfit(m: Models, ds: seq<Decln>, c: Decln, d: Decln, wire: string)
    requires Meets(ds, c, d) && wire in d.typed && !TypedFits1(m, c, wire, d.typed[wire])
    ensures TwoValues(m, ds + [d])
  {
    var e: Decln;
    if wire in c.typed {
      assert TypedFrom(ds, c.dn, wire, c.typed[wire]);
      e :| e in ds && e.dn == c.dn && wire in e.typed && e.typed[wire] == c.typed[wire];
    } else {
      assert RawFrom(ds, c.dn, wire, c.raw[wire]);
      e :| e in ds && e.dn == c.dn && wire in e.raw && e.raw[wire] == c.raw[wire];
    }
    assert e in ds + [d] && d in ds + [d];
    TwoValuesIs(m, ds + [d], e, d, wire, if wire in c.typed then c.typed[wire] else c.raw[wire], d.typed[wire]);
  }

  lemma RawMisfit(m: Models, byDn: Merged, ds: seq<Decln>, c: Decln, d: Decln, wire: string)
    requires Meets(ds, c, d) && FirstRules(byDn, ds) && (d.dn in byDn ==> c == byDn[d.dn]) && (d.dn !in byDn ==> c == Bare(d))
    requires wire in d.raw && !RawFits1(m, c.(typed := TypedAfter(c, d)), wire, d.raw[wire])
    ensures TwoValues(m, ds + [d]) || RawClash(ds + [d])
  {
    assert d in ds + [d];
    var value := d.raw[wire];
    if wire in c.typed {
      assert TypedFrom(ds, c.dn, wire, c.typed[wire]);
      var e :| e in ds && e.dn == c.dn && wire in e.typed && e.typed[wire] == c.typed[wire];
      assert e in ds + [d];
      TwoValuesIs(m, ds + [d], e, d, wire, c.typed[wire], value);
    } else if wire in c.raw {
      var i: nat :| FirstRaw(ds, i, wire) && ds[i].dn == c.dn && ds[i].raw[wire] == c.raw[wire];
      FirstRawGrows(ds, d, i, wire);
      assert (ds + [d])[|ds|] == d && (ds + [d])[i] == ds[i];
      assert RespeltAt(ds + [d], i, |ds|, wire);
    } else {
      TwoValuesIs(m, ds + [d], d, d, wire, d.typed[wire], value);
    }
  }

  // ---- Who set an attribute first

  lemma FirstRawGrows(ds: seq<Decln>, d: Decln, i: nat, wire: string)
    requires i < |ds|
    ensures FirstRaw(ds + [d], i, wire) <==> FirstRaw(ds, i, wire)
  {
    assert forall k :: 0 <= k < |ds| ==> (ds + [d])[k] == ds[k];
  }

  /** The raw channel of a merged object holds what was set there first, as spelled there. */
  ghost predicate FirstRules(byDn: Merged, ds: seq<Decln>) {
    && (forall dn, wire :: dn in byDn && wire in byDn[dn].raw ==> FirstSays(ds, dn, wire, byDn[dn].raw[wire]))
    && (forall i: nat, wire :: FirstRaw(ds, i, wire) ==> RawHolds(byDn, ds[i].dn, wire, ds[i].raw[wire]))
  }

  ghost predicate FirstSays(ds: seq<Decln>, dn: string, wire: string, value: string) {
    exists i: nat :: FirstRaw(ds, i, wire) && ds[i].dn == dn && ds[i].raw[wire] == value
  }

  ghost predicate RawHolds(byDn: Merged, dn: string, wire: string, value: string) {
    dn in byDn && wire in byDn[dn].raw && byDn[dn].raw[wire] == value
  }

  lemma FirstSaysGrows(ds: seq<Decln>, d: Decln, dn: string, wire: string, value: string)
    requires FirstSays(ds, dn, wire, value)
    ensures FirstSays(ds + [d], dn, wire, value)
  {
    var i: nat :| FirstRaw(ds, i, wire) && ds[i].dn == dn && ds[i].raw[wire] == value;
    FirstRawGrows(ds, d, i, wire);
    assert (ds + [d])[i] == ds[i];
  }

  /** What a declaration adds to the raw channel it is the first to set. */
  lemma NewIsFirst(m: Models, byDn: Merged, ds: seq<Decln>, d: Decln, wire: string)
    requires Represents(m, byDn, ds) && Fold1(m, Folded(byDn, true), d).ok && wire in d.raw
    requires var c := Target(byDn, d); wire !in c.typed && wire !in c.raw && wire !in d.typed
    ensures FirstRaw(ds + [d], |ds|, wire)
  {
    forall k | 0 <= k < |ds| && ds[k].dn == d.dn ensures wire !in ds[k].typed && wire !in ds[k].raw {
      assert Covers(m, byDn[d.dn], ds[k]);
      if wire in ds[k].typed { assert Sets(ds[k], wire, ds[k].typed[wire]); }
      if wire in ds[k].raw { assert Sets(ds[k], wire, ds[k].raw[wire]); }
    }
    assert forall k :: 0 <= k < |ds| ==> (ds + [d])[k] == ds[k];
  }

  /** The first to set an attribute finds it unset. */
  lemma FirstFindsUnset(m: Models, byDn: Merged, ds: seq<Decln>, d: Decln, wire: string)
    requires Represents(m, byDn, ds) && FirstRaw(ds + [d], |ds|, wire)
    ensures var c := Target(byDn, d); wire !in c.typed && wire !in c.raw
  {
    var c := Target(byDn, d);
    assert forall k :: 0 <= k < |ds| ==> (ds + [d])[k] == ds[k];
    assert (ds + [d])[|ds|] == d;
    if d.dn in byDn { HeldWasSet(ds, c, wire); }
  }

  lemma HeldWasSet(ds: seq<Decln>, c: Decln, wire: string)
    requires Justified(ds, c)
    ensures wire in c.typed || wire in c.raw ==> exists k :: 0 <= k < |ds| && ds[k].dn == c.dn && (wire in ds[k].typed || wire in ds[k].raw)
  {
    if wire in c.typed {
      assert TypedFrom(ds, c.dn, wire, c.typed[wire]);
    } else if wire in c.raw {
      assert RawFrom(ds, c.dn, wire, c.raw[wire]);
    }
  }

  lemma FirstRulesStep(m: Models, byDn: Merged, ds: seq<Decln>, d: Decln)
    requires Represents(m, byDn, ds) && FirstRules(byDn, ds) && Fold1(m, Folded(byDn, true), d).ok
    ensures FirstRules(Fold1(m, Folded(byDn, true), d).byDn, ds + [d])
  {
    var c := Target(byDn, d);
    var after := byDn[d.dn := Absorbed(c, d)];
    StepGoesIn(m, byDn, d);
    RawOfAbsorbed(c, d);
    hide Fold1, Fits, Absorbed, Represents, FirstSays, FirstRaw, RawHolds, Target;
    forall dn, wire | dn in after && wire in after[dn].raw ensures FirstSays(ds + [d], dn, wire, after[dn].raw[wire]) {
      HeldIsFirst(m, byDn, ds, d, dn, wire);
    }
    forall i: nat, wire | FirstRaw(ds + [d], i, wire) ensures RawHolds(after, (ds + [d])[i].dn, wire, (ds + [d])[i].raw[wire]) {
      FirstIsHeld(m, byDn, ds, d, i, wire);
    }
  }

  lemma HeldIsFirst(m: Models, byDn: Merged, ds: seq<Decln>, d: Decln, dn: string, wire: string)
    requires Represents(m, byDn, ds) && FirstRules(byDn, ds) && Fold1(m, Folded(byDn, true), d).ok
    requires var after := byDn[d.dn := Absorbed(Target(byDn, d), d)]; dn in after && wire in after[dn].raw
    ensures FirstSays(ds + [d], dn, wire, byDn[d.dn := Absorbed(Target(byDn, d), d)][dn].raw[wire])
  {
    var c := Target(byDn, d);
    RawOfAbsorbed(c, d);
    hide Fold1, Fits, Absorbed, Represents, FirstSays, FirstRaw, RawHolds;
    if dn != d.dn || wire in c.raw {
      FirstSaysGrows(ds, d, dn, wire, byDn[dn].raw[wire]);
    } else {
      NewIsFirst(m, byDn, ds, d, wire);
      assert (ds + [d])[|ds|] == d;
      FirstSaysAt(ds + [d], |ds|, wire);
    }
  }

  lemma FirstIsHeld(m: Models, byDn: Merged, ds: seq<Decln>, d: Decln, i: nat, wire: string)
    requires Represents(m, byDn, ds) && FirstRules(byDn, ds) && FirstRaw(ds + [d], i, wire)
    ensures RawHolds(byDn[d.dn := Absorbed(Target(byDn, d), d)], (ds + [d])[i].dn, wire, (ds + [d])[i].raw[wire])
  {
    RawOfAbsorbed(Target(byDn, d), d);
    hide Absorbed, Represents, FirstSays, FirstRaw;
    FirstRawInside(ds + [d], i, wire);
    if i < |ds| {
      FirstRawGrows(ds, d, i, wire);
      assert RawHolds(byDn, ds[i].dn, wire, ds[i].raw[wire]);
    } else {
      FirstFindsUnset(m, byDn, ds, d, wire);
    }
  }

  lemma FirstRawInside(ds: seq<Decln>, i: nat, wire: string)
    requires FirstRaw(ds, i, wire)
    ensures i < |ds| && wire in ds[i].raw && wire !in ds[i].typed
  {
  }

  lemma FirstSaysAt(ds: seq<Decln>, i: nat, wire: string)
    requires FirstRaw(ds, i, wire)
    ensures FirstSays(ds, ds[i].dn, wire, ds[i].raw[wire])
  {
  }

  lemma RawOfAbsorbed(c: Decln, d: Decln)
    ensures var after := Absorbed(c, d);
            && (forall wire :: wire in c.raw ==> wire in after.raw && after.raw[wire] == c.raw[wire])
            && (forall wire :: wire in after.raw && wire !in c.raw ==>
                  wire in d.raw && after.raw[wire] == d.raw[wire] && wire !in c.typed && wire !in d.typed)
            && (forall wire :: wire in d.raw && wire !in c.raw && wire !in c.typed && wire !in d.typed ==> wire in after.raw && after.raw[wire] == d.raw[wire])
  {
  }

  lemma {:induction false} MergeFirstRules(m: Models, ds: seq<Decln>)
    requires Fold(m, EMPTY, ds).ok
    ensures FirstRules(Fold(m, EMPTY, ds).byDn, ds)
  {
    if ds != [] {
      var init, last := ds[..|ds| - 1], ds[|ds| - 1];
      assert ds == init + [last];
      if !Fold(m, EMPTY, init).ok { FailedStays(m, EMPTY, init, [last]); }
      MergeFirstRules(m, init);
      MergeRepresents(m, init);
      hide Represents, FirstRules;
      FirstRulesStep(m, Fold(m, EMPTY, init).byDn, init, last);
    }
  }

  /** A raw clash is met when its later declaration is merged. */
  lemma {:induction false} ClashIsRefused(m: Models, ds: seq<Decln>)
    requires Fold(m, EMPTY, ds).ok
    ensures !RawClash(ds)
  {
    if ds != [] {
      var init, last := ds[..|ds| - 1], ds[|ds| - 1];
      assert ds == init + [last];
      if !Fold(m, EMPTY, init).ok { FailedStays(m, EMPTY, init, [last]); }
      ClashIsRefused(m, init);
      MergeRepresents(m, init);
      MergeFirstRules(m, init);
      hide *;
      NoNewClash(m, Fold(m, EMPTY, init).byDn, init, last);
    }
  }

  lemma NoNewClash(m: Models, byDn: Merged, ds: seq<Decln>, d: Decln)
    requires Represents(m, byDn, ds) && FirstRules(byDn, ds) && Fold1(m, Folded(byDn, true), d).ok && !RawClash(ds)
    ensures !RawClash(ds + [d])
  {
    var all := ds + [d];
    hide Fold1, Represents, FirstRules, FirstRaw;
    if RawClash(all) {
      var i: nat, j: nat, wire :| RespeltAt(all, i, j, wire);
      hide RawClash;
      if j < |ds| {
        ClashShrinks(ds, d, i, j, wire);
      } else {
        FirstRawGrows(ds, d, i, wire);
        RawRepeats(m, byDn, ds, d, i, wire);
      }
    }
  }

  lemma ClashShrinks(ds: seq<Decln>, d: Decln, i: nat, j: nat, wire: string)
    requires RespeltAt(ds + [d], i, j, wire) && j < |ds|
    ensures RawClash(ds)
  {
    FirstRawGrows(ds, d, i, wire);
    assert (ds + [d])[i] == ds[i] && (ds + [d])[j] == ds[j];
    assert RespeltAt(ds, i, j, wire);
  }

  lemma RawRepeats(m: Models, byDn: Merged, ds: seq<Decln>, d: Decln, i: nat, wire: string)
    requires Represents(m, byDn, ds) && FirstRules(byDn, ds) && Fold1(m, Folded(byDn, true), d).ok
    requires FirstRaw(ds, i, wire) && ds[i].dn == d.dn && wire in d.raw
    ensures d.raw[wire] == ds[i].raw[wire]
  {
    var c := Target(byDn, d);
    StepGoesIn(m, byDn, d);
    assert RawHolds(byDn, d.dn, wire, ds[i].raw[wire]);
    ChannelsApart(ds, c);
    assert RawFits1(m, c.(typed := TypedAfter(c, d)), wire, d.raw[wire]);
  }

  lemma ClashGrows(m: Models, ds: seq<Decln>, d: Decln)
    ensures TwoClasses(ds) ==> TwoClasses(ds + [d])
    ensures TwoValues(m, ds) ==> TwoValues(m, ds + [d])
    ensures RawClash(ds) ==> RawClash(ds + [d])
  {
    hide Sets, Agree;
    if RawClash(ds) {
      var i: nat, j: nat, wire :| RespeltAt(ds, i, j, wire);
      FirstRawGrows(ds, d, i, wire);
      assert (ds + [d])[i] == ds[i] && (ds + [d])[j] == ds[j];
      assert RespeltAt(ds + [d], i, j, wire);
    }
    if TwoClasses(ds) {
      var x, y :| x in ds && y in ds && x.dn == y.dn && x.cls != y.cls;
      assert x in ds + [d] && y in ds + [d];
    }
    if TwoValues(m, ds) {
      var x, y, wire, a, b :| x in ds && y in ds && x.dn == y.dn && Sets(x, wire, a) && Sets(y, wire, b) && !Agree(m, x.cls, wire, a, b);
      assert x in ds + [d] && y in ds + [d];
      TwoValuesIs(m, ds + [d], x, y, wire, a, b);
    }
  }

  ghost predicate RootsAreUni(ds: seq<Decln>) {
    forall d :: d in ds && d.dn == "uni" ==> d.cls == "polUni"
  }

  ghost predicate Contradiction(m: Models, ds: seq<Decln>) {
    TwoClasses(ds) || TwoValues(m, ds) || RawClash(ds)
  }

  lemma {:induction false} ConflictIsContradiction(m: Models, ds: seq<Decln>)
    requires RootsAreUni(ds) && !Fold(m, EMPTY, ds).ok
    ensures Contradiction(m, ds)
  {
    var init, last := ds[..|ds| - 1], ds[|ds| - 1];
    assert ds == init + [last];
    ClashGrows(m, init, last);
    assert forall e :: e in init ==> e in ds;
    hide TwoValues, TwoClasses, RawClash, Represents, FirstRules, Fold1;
    if !Fold(m, EMPTY, init).ok {
      ConflictIsContradiction(m, init);
    } else {
      MergeRepresents(m, init);
      MergeFirstRules(m, init);
      NewConflict(m, Fold(m, EMPTY, init).byDn, init, last);
    }
  }

  /** The object the next declaration meets. */
  lemma NextMeets(m: Models, byDn: Merged, ds: seq<Decln>, d: Decln, c: Decln)
    requires Represents(m, byDn, ds) && c == (if d.dn in byDn then byDn[d.dn] else Bare(d)) && c.cls == d.cls
    ensures Meets(ds, c, d)
  {
    forall e | e in ds && e.dn == c.dn ensures e.cls == c.cls {
      ClassFrom(m, byDn, ds, d.dn, e);
    }
  }

  lemma NewConflict(m: Models, byDn: Merged, ds: seq<Decln>, d: Decln)
    requires Represents(m, byDn, ds) && FirstRules(byDn, ds) && RootsAreUni(ds + [d])
    requires !Fold1(m, Folded(byDn, true), d).ok
    ensures Contradiction(m, ds + [d])
  {
    var c := Target(byDn, d);
    if c.cls != d.cls {
      ClassMisfit(m, byDn, ds, d);
    } else {
      NextMeets(m, byDn, ds, d, c);
      hide Represents, FirstRules, Meets, TwoValues, TwoClasses, RawClash, Absorbed, TypedFits1, RawFits1;
      if !TypedFits(m, c, d) {
        var wire :| wire in d.typed && !TypedFits1(m, c, wire, d.typed[wire]);
        TypedMisfit(m, ds, c, d, wire);
      } else {
        var wire :| wire in d.raw && !RawFits1(m, c.(typed := TypedAfter(c, d)), wire, d.raw[wire]);
        RawMisfit(m, byDn, ds, c, d, wire);
      }
    }
  }

  lemma ClassMisfit(m: Models, byDn: Merged, ds: seq<Decln>, d: Decln)
    requires Represents(m, byDn, ds) && RootsAreUni(ds + [d]) && d.dn in byDn && byDn[d.dn].cls != d.cls
    ensures TwoClasses(ds + [d])
  {
    assert d in ds + [d];
    assert DeclaresAt(ds, d.dn);
    var e :| e in ds && e.dn == d.dn;
    assert e in ds + [d];
    ClassFrom(m, byDn, ds, d.dn, e);
  }

  // ---- The declarations of whole designs

  lemma {:induction false} BelowUni(ns: seq<Source>, at: string)
    requires |at| >= 3
    ensures forall d :: d in DeclaredAll(ns, at) ==> |d.dn| > 3
    decreases ns
  {
    if ns != [] {
      var last := ns[|ns| - 1];
      assert last in ns;
      BelowUni(ns[..|ns| - 1], at);
      BelowUni(last.children, Child(at, last.rn));
    }
  }

  lemma {:induction false} DesignsAreUni(designs: seq<Source>)
    requires forall s :: s in designs ==> s.cls == "polUni"
    ensures RootsAreUni(AllDeclared(designs))
  {
    if designs != [] {
      var last := designs[|designs| - 1];
      DesignsAreUni(designs[..|designs| - 1]);
      BelowUni(last.children, "uni");
    }
  }

  /**
   * A merge of designs is refused exactly when some object has two classes, some attribute two values,
   * or some attribute first set in the raw channel a second raw spelling.
   */
  lemma RefusedIffContradiction(m: Models, designs: seq<Source>)
    requires forall s :: s in designs ==> s.cls == "polUni"
    ensures var ds := AllDeclared(designs);
            Fold(m, EMPTY, ds).ok <==> !TwoClasses(ds) && !TwoValues(m, ds) && !RawClash(ds)
  {
    var ds := AllDeclared(designs);
    DesignsAreUni(designs);
    hide AllDeclared, RootsAreUni, Represents, TwoClasses, TwoValues, RawClash;
    if Fold(m, EMPTY, ds).ok {
      MergeRepresents(m, ds);
      RepresentedIsConsistent(m, Fold(m, EMPTY, ds).byDn, ds);
      ClashIsRefused(m, ds);
    } else {
      ConflictIsContradiction(m, ds);
    }
  }
}
