/** What `merge` reports when it refuses: every contradiction, in terms of the declarations alone (`_compose.py`). */
module MergeConflicts {
  import opened Text
  import opened Dn
  import opened Merge

  /** The fresh root of the merge, declared before anything else. */
  const FRESH := Visit([], Decln("uni", "polUni", map[], map[], []))

  /** The walk: the fresh root, then each design, parents first. */
  function Walk(designs: seq<Source>): seq<Visit> {
    [FRESH] + AllVisits(designs)
  }

  /** Every object merged at this DN before the i-th step has this class. */
  ghost predicate ClassHolds(vs: seq<Visit>, i: nat, dn: string, cls: string)
    decreases i, 0
  {
    forall j: nat :: j < i && j < |vs| && Joined(vs, j) && vs[j].d.dn == dn ==> vs[j].d.cls == cls
  }

  /** No object above the i-th in its source has another class than what was merged at its DN. */
  ghost predicate Reached(vs: seq<Visit>, i: nat)
    decreases i, 1
  {
    i < |vs| && forall a :: a in vs[i].above ==> ClassHolds(vs, i, a.0, a.1)
  }

  /** The i-th object is merged: it is reached, and has the class of what was merged at its DN. */
  ghost predicate Joined(vs: seq<Visit>, i: nat)
    decreases i, 2
  {
    i < |vs| && Reached(vs, i) && ClassHolds(vs, i, vs[i].d.dn, vs[i].d.cls)
  }

  /** The object sets this attribute, through either channel. */
  predicate Sets(d: Decln, wire: string) { wire in d.typed || wire in d.raw }

  /** The value an object sets, the typed one if it sets two. */
  function Said(d: Decln, wire: string): string
    requires Sets(d, wire)
  {
    if wire in d.typed then d.typed[wire] else d.raw[wire]
  }

  ghost predicate Setter(vs: seq<Visit>, j: nat, dn: string, wire: string) {
    Joined(vs, j) && vs[j].d.dn == dn && Sets(vs[j].d, wire)
  }

  /** The first merged object at this DN that sets the attribute. */
  ghost predicate First(vs: seq<Visit>, j: nat, dn: string, wire: string) {
    Setter(vs, j, dn, wire) && forall k: nat :: k < j ==> !Setter(vs, k, dn, wire)
  }

  // ---- The contradictions of one declaration

  /** Its class, against the class merged at its DN. */
  ghost function ClassClash(vs: seq<Visit>, i: nat): set<Conflict>
    requires i < |vs|
  {
    set j | 0 <= j < i && Joined(vs, j) && vs[j].d.dn == vs[i].d.dn :: Conflict(vs[i].d.dn, "class", vs[j].d.cls, vs[i].d.cls)
  }

  /** Its typed values, each against the value set first, as they coerce. */
  ghost function TypedClash(m: Models, vs: seq<Visit>, i: nat): set<Conflict>
    requires i < |vs|
  {
    var d := vs[i].d;
    set j, wire | 0 <= j < i && wire in d.typed && First(vs, j, d.dn, wire) &&
                  m.canon(d.cls, wire, Said(vs[j].d, wire)) != m.canon(d.cls, wire, d.typed[wire]) ::
      Conflict(d.dn, wire, Said(vs[j].d, wire), d.typed[wire])
  }

  /** Its raw values, each against the value set first: as they coerce when that one is typed, as spelled when it is raw. */
  ghost function RawClash(m: Models, vs: seq<Visit>, i: nat): set<Conflict>
    requires i < |vs|
  {
    var d := vs[i].d;
    set j, wire | 0 <= j < i + 1 && wire in d.raw && First(vs, j, d.dn, wire) &&
                  (if wire in vs[j].d.typed then m.canon(d.cls, wire, vs[j].d.typed[wire]) != m.canon(d.cls, wire, d.raw[wire])
                   else vs[j].d.raw[wire] != d.raw[wire]) ::
      Conflict(d.dn, wire, Said(vs[j].d, wire), d.raw[wire])
  }

  ghost function ClashesAt(m: Models, vs: seq<Visit>, i: nat): multiset<Conflict>
    requires i < |vs|
  {
    if !Reached(vs, i) then multiset{}
    else if !Joined(vs, i) then multiset(ClassClash(vs, i))
    else multiset(TypedClash(m, vs, i)) + multiset(RawClash(m, vs, i))
  }

  /** The contradictions of the first n declarations. */
  ghost function ClashesUpTo(m: Models, vs: seq<Visit>, n: nat): multiset<Conflict>
    requires n <= |vs|
  {
    if n == 0 then multiset{} else ClashesUpTo(m, vs, n - 1) + ClashesAt(m, vs, n - 1)
  }

  // ---- Later declarations change nothing of this

  lemma {:induction false} ClassHoldsPrefix(vs: seq<Visit>, more: seq<Visit>, i: nat, dn: string, cls: string)
    requires i <= |vs|
    ensures ClassHolds(vs + more, i, dn, cls) <==> ClassHolds(vs, i, dn, cls)
    decreases i, 0
  {
    forall j: nat | j < i ensures Joined(vs + more, j) <==> Joined(vs, j) { JoinedPrefix(vs, more, j); }
    hide Joined;
  }

  lemma {:induction false} ReachedPrefix(vs: seq<Visit>, more: seq<Visit>, i: nat)
    requires i < |vs|
    ensures Reached(vs + more, i) <==> Reached(vs, i)
    decreases i, 1
  {
    forall a | a in vs[i].above ensures ClassHolds(vs + more, i, a.0, a.1) <==> ClassHolds(vs, i, a.0, a.1) {
      ClassHoldsPrefix(vs, more, i, a.0, a.1);
    }
    hide ClassHolds;
  }

  lemma {:induction false} JoinedPrefix(vs: seq<Visit>, more: seq<Visit>, i: nat)
    requires i < |vs|
    ensures Joined(vs + more, i) <==> Joined(vs, i)
    decreases i, 2
  {
    ReachedPrefix(vs, more, i);
    ClassHoldsPrefix(vs, more, i, vs[i].d.dn, vs[i].d.cls);
    hide ClassHolds, Reached;
  }

  lemma FirstPrefix(vs: seq<Visit>, more: seq<Visit>, j: nat, dn: string, wire: string)
    requires j < |vs|
    ensures First(vs + more, j, dn, wire) <==> First(vs, j, dn, wire)
  {
    forall k: nat | k <= j ensures Setter(vs + more, k, dn, wire) <==> Setter(vs, k, dn, wire) { JoinedPrefix(vs, more, k); }
    hide Setter;
  }

  lemma ClashesAtPrefix(m: Models, vs: seq<Visit>, more: seq<Visit>, i: nat)
    requires i < |vs|
    ensures ClashesAt(m, vs + more, i) == ClashesAt(m, vs, i)
  {
    ReachedPrefix(vs, more, i);
    JoinedPrefix(vs, more, i);
    forall j: nat | j < i ensures Joined(vs + more, j) <==> Joined(vs, j) { JoinedPrefix(vs, more, j); }
    forall j: nat, dn, wire | j <= i ensures First(vs + more, j, dn, wire) <==> First(vs, j, dn, wire) { FirstPrefix(vs, more, j, dn, wire); }
    hide Reached, Joined, First;
    assert ClassClash(vs + more, i) == ClassClash(vs, i);
    assert TypedClash(m, vs + more, i) == TypedClash(m, vs, i);
    assert RawClash(m, vs + more, i) == RawClash(m, vs, i);
  }

  lemma ClashesStep(m: Models, vs: seq<Visit>, n: nat)
    requires n <= |vs|
    ensures ClashesUpTo(m, vs, n) == if n == 0 then multiset{} else ClashesUpTo(m, vs, n - 1) + ClashesAt(m, vs, n - 1)
  {
    hide ClashesAt;
  }

  lemma {:induction false} ClashesPrefix(m: Models, vs: seq<Visit>, more: seq<Visit>, n: nat)
    requires n <= |vs|
    ensures ClashesUpTo(m, vs + more, n) == ClashesUpTo(m, vs, n)
  {
    hide *;
    ClashesStep(m, vs, n);
    ClashesStep(m, vs + more, n);
    if n > 0 {
      ClashesPrefix(m, vs, more, n - 1);
      ClashesAtPrefix(m, vs, more, n - 1);
    }
  }

  lemma {:induction false} SomeFirst(vs: seq<Visit>, k: nat, dn: string, wire: string) returns (j: nat)
    requires Setter(vs, k, dn, wire)
    ensures j <= k && First(vs, j, dn, wire)
  {
    hide Setter;
    if i: nat :| i < k && Setter(vs, i, dn, wire) {
      j := SomeFirst(vs, i, dn, wire);
    } else {
      j := k;
    }
  }

  // ---- The merged objects mirror the walk

  /** The merged object holds what `d` sets, in the channel `d` sets it through. */
  predicate HeldAs(c: Decln, d: Decln, wire: string) {
    if wire in d.typed then wire in c.typed && wire !in c.raw && c.typed[wire] == d.typed[wire]
    else wire !in c.typed && wire in c.raw && wire in d.raw && c.raw[wire] == d.raw[wire]
  }

  /** It holds every attribute as the first object that sets it does, and no other attribute. */
  ghost predicate Mirrors(c: Decln, vs: seq<Visit>, dn: string) {
    && (forall wire :: Sets(c, wire) ==> exists j: nat :: First(vs, j, dn, wire))
    && (forall j: nat, wire :: First(vs, j, dn, wire) ==> HeldAs(c, vs[j].d, wire))
  }

  ghost predicate MergedAt(vs: seq<Visit>, dn: string) {
    exists j: nat :: Joined(vs, j) && vs[j].d.dn == dn
  }

  ghost predicate Tracks(byDn: Merged, vs: seq<Visit>) {
    && (forall dn :: dn in byDn <==> MergedAt(vs, dn))
    && (forall j: nat :: Joined(vs, j) ==> vs[j].d.dn in byDn && byDn[vs[j].d.dn].cls == vs[j].d.cls)
    && (forall dn :: dn in byDn ==> Mirrors(byDn[dn], vs, dn))
  }

  lemma LeftOutIff(byDn: Merged, vs: seq<Visit>, v: Visit)
    requires Tracks(byDn, vs)
    ensures LeftOut(byDn, v) <==> !Reached(vs + [v], |vs|)
  {
    var w, n := vs + [v], |vs|;
    forall a | a in v.above ensures (a.0 in byDn && byDn[a.0].cls != a.1) <==> !ClassHolds(w, n, a.0, a.1) {
      ClassAgreesIff(byDn, vs, v, a.0, a.1);
    }
    hide ClassHolds, Tracks;
  }

  lemma ClassAgreesIff(byDn: Merged, vs: seq<Visit>, v: Visit, dn: string, cls: string)
    requires Tracks(byDn, vs)
    ensures ClassHolds(vs + [v], |vs|, dn, cls) <==> (dn in byDn ==> byDn[dn].cls == cls)
  {
    ClassHoldsPrefix(vs, [v], |vs|, dn, cls);
    hide Joined, Mirrors;
    if dn in byDn {
      var j: nat :| Joined(vs, j) && vs[j].d.dn == dn;
      assert j < |vs| by { JoinedIndex(vs, j); }
    }
    forall j: nat | Joined(vs, j) ensures j < |vs| { JoinedIndex(vs, j); }
  }

  lemma JoinedIndex(vs: seq<Visit>, j: nat)
    requires Joined(vs, j)
    ensures j < |vs|
  {
  }

  /** What stands at the DN before an object is absorbed there. */
  ghost function Before(byDn: Merged, d: Decln): Decln {
    if d.dn in byDn then byDn[d.dn] else Bare(d)
  }

  lemma BeforeMirrors(byDn: Merged, vs: seq<Visit>, d: Decln)
    requires Tracks(byDn, vs)
    ensures Mirrors(Before(byDn, d), vs, d.dn)
  {
    if d.dn !in byDn {
      forall j: nat, wire ensures !First(vs, j, d.dn, wire) {
        assert !MergedAt(vs, d.dn);
      }
    }
    hide First;
  }

  /** Absorbing keeps what is held and adds what is not. */
  lemma AbsorbedHolds(c: Decln, d: Decln, e: Decln, wire: string)
    ensures HeldAs(c, e, wire) ==> HeldAs(Absorbed(c, d), e, wire)
    ensures !Sets(c, wire) && Sets(d, wire) ==> HeldAs(Absorbed(c, d), d, wire)
    ensures Sets(Absorbed(c, d), wire) <==> Sets(c, wire) || Sets(d, wire)
  {
  }

  lemma FirstSnoc(vs: seq<Visit>, v: Visit, j: nat, dn: string, wire: string)
    ensures j < |vs| ==> (First(vs + [v], j, dn, wire) <==> First(vs, j, dn, wire))
    ensures First(vs + [v], j, dn, wire) ==> j <= |vs|
    ensures First(vs + [v], |vs|, dn, wire) <==>
              Joined(vs + [v], |vs|) && v.d.dn == dn && Sets(v.d, wire) && forall k: nat :: !First(vs, k, dn, wire)
  {
    var w, n := vs + [v], |vs|;
    if j < |vs| { FirstPrefix(vs, [v], j, dn, wire); }
    forall k: nat | k < n ensures Setter(w, k, dn, wire) <==> Setter(vs, k, dn, wire) { JoinedPrefix(vs, [v], k); }
    assert Setter(w, n, dn, wire) <==> Joined(w, n) && v.d.dn == dn && Sets(v.d, wire);
    forall k: nat ensures Setter(vs, k, dn, wire) ==> k < n { }
    forall k: nat ensures Setter(w, k, dn, wire) ==> k <= n { }
    hide Setter, Joined;
    if k: nat :| Setter(vs, k, dn, wire) { var f := SomeFirst(vs, k, dn, wire); }
  }

  /** The object at another DN, or one that does not join, leaves a merged object as it mirrors the walk. */
  lemma MirrorsElsewhere(c: Decln, vs: seq<Visit>, v: Visit, dn: string)
    requires Mirrors(c, vs, dn) && (v.d.dn != dn || !Joined(vs + [v], |vs|))
    ensures Mirrors(c, vs + [v], dn)
  {
    var w := vs + [v];
    hide First, Joined, HeldAs;
    forall j: nat, wire
      ensures First(w, j, dn, wire) <==> First(vs, j, dn, wire)
      ensures First(vs, j, dn, wire) ==> j < |vs| && w[j] == vs[j]
    {
      FirstSnoc(vs, v, j, dn, wire);
      FirstSnoc(vs, v, |vs|, dn, wire);
      FirstIndex(vs, j, dn, wire);
    }
  }

  lemma FirstIndex(vs: seq<Visit>, j: nat, dn: string, wire: string)
    ensures First(vs, j, dn, wire) ==> j < |vs| && Sets(vs[j].d, wire)
  {
  }

  lemma MirrorsAbsorbed(c: Decln, vs: seq<Visit>, v: Visit)
    requires Mirrors(c, vs, v.d.dn) && Joined(vs + [v], |vs|)
    ensures Mirrors(Absorbed(c, v.d), vs + [v], v.d.dn)
  {
    var w, n, dn, after := vs + [v], |vs|, v.d.dn, Absorbed(c, v.d);
    forall j: nat, wire
      ensures First(w, j, dn, wire) ==> HeldAs(after, w[j].d, wire)
      ensures First(vs, j, dn, wire) ==> First(w, j, dn, wire)
    {
      FirstSnoc(vs, v, j, dn, wire);
      FirstIndex(vs, j, dn, wire);
      FirstIndex(w, j, dn, wire);
      hide First, Absorbed, HeldAs;
      if First(w, j, dn, wire) { AbsorbedHolds(c, v.d, w[j].d, wire); }
    }
    hide Absorbed, HeldAs;
    forall wire | Sets(after, wire) ensures exists j: nat :: First(w, j, dn, wire) {
      AbsorbedHolds(c, v.d, v.d, wire);
      FirstSnoc(vs, v, n, dn, wire);
      hide First;
      if k: nat :| First(vs, k, dn, wire) { assert First(w, k, dn, wire); } else { assert First(w, n, dn, wire); }
    }
  }

  lemma JoinedSnoc(vs: seq<Visit>, v: Visit, dn: string)
    ensures MergedAt(vs + [v], dn) <==> MergedAt(vs, dn) || (Joined(vs + [v], |vs|) && v.d.dn == dn)
  {
    var w := vs + [v];
    forall j: nat | j < |vs| ensures Joined(w, j) <==> Joined(vs, j) { JoinedPrefix(vs, [v], j); }
    forall j: nat ensures Joined(vs, j) ==> j < |vs| { }
    forall j: nat ensures Joined(w, j) ==> j <= |vs| { }
    hide Joined;
    if j: nat :| Joined(vs, j) && vs[j].d.dn == dn { assert Joined(w, j) && w[j].d.dn == dn; }
    if Joined(w, |vs|) && v.d.dn == dn { assert w[|vs|] == v; }
  }

  lemma JoinedIff(vs: seq<Visit>, v: Visit, j: nat)
    ensures Joined(vs, j) ==> j < |vs|
    ensures Joined(vs + [v], j) ==> j <= |vs| && (j < |vs| ==> Joined(vs, j) && (vs + [v])[j] == vs[j])
  {
    if j < |vs| { JoinedPrefix(vs, [v], j); }
  }

  lemma TracksUnjoined(byDn: Merged, vs: seq<Visit>, v: Visit)
    requires Tracks(byDn, vs) && !Joined(vs + [v], |vs|)
    ensures Tracks(byDn, vs + [v])
  {
    var w := vs + [v];
    hide Joined, Mirrors, MergedAt;
    forall dn ensures MergedAt(w, dn) <==> MergedAt(vs, dn) { JoinedSnoc(vs, v, dn); }
    forall j: nat
      ensures Joined(vs, j) ==> j < |vs|
      ensures Joined(w, j) ==> j < |vs| && Joined(vs, j) && w[j] == vs[j]
    {
      JoinedIff(vs, v, j);
    }
    forall dn | dn in byDn ensures Mirrors(byDn[dn], w, dn) { MirrorsElsewhere(byDn[dn], vs, v, dn); }
  }

  lemma TracksWith(byDn: Merged, vs: seq<Visit>, v: Visit, c: Decln)
    requires Tracks(byDn, vs) && Joined(vs + [v], |vs|) && (v.d.dn in byDn ==> byDn[v.d.dn].cls == v.d.cls)
    requires c.cls == v.d.cls && Mirrors(c, vs + [v], v.d.dn)
    ensures Tracks(byDn[v.d.dn := c], vs + [v])
  {
    var w, after := vs + [v], byDn[v.d.dn := c];
    hide Joined, MergedAt, Mirrors;
    forall dn ensures dn in after <==> MergedAt(w, dn) { JoinedSnoc(vs, v, dn); }
    forall j: nat
      ensures Joined(vs, j) ==> j < |vs|
      ensures Joined(w, j) ==> j <= |vs| && (j < |vs| ==> Joined(vs, j) && w[j] == vs[j])
    {
      JoinedIff(vs, v, j);
    }
    forall dn | dn in after ensures Mirrors(after[dn], w, dn) {
      if dn != v.d.dn { MirrorsElsewhere(byDn[dn], vs, v, dn); }
    }
  }

  lemma TracksJoined(byDn: Merged, vs: seq<Visit>, v: Visit)
    requires Tracks(byDn, vs) && Joined(vs + [v], |vs|) && Before(byDn, v.d).cls == v.d.cls
    ensures Tracks(byDn[v.d.dn := Absorbed(Before(byDn, v.d), v.d)], vs + [v])
  {
    AbsorbedKeepsClass();
    assert v.d.dn in byDn ==> byDn[v.d.dn].cls == v.d.cls;
    hide Absorbed, Joined, Tracks, Mirrors, Before;
    BeforeMirrors(byDn, vs, v.d);
    MirrorsAbsorbed(Before(byDn, v.d), vs, v);
    TracksWith(byDn, vs, v, Absorbed(Before(byDn, v.d), v.d));
  }

  // ---- What a step refuses

  lemma ClassClashIs(byDn: Merged, vs: seq<Visit>, v: Visit)
    requires Tracks(byDn, vs) && v.d.dn in byDn
    ensures ClassClash(vs + [v], |vs|) == {Conflict(v.d.dn, "class", byDn[v.d.dn].cls, v.d.cls)}
  {
    var w, n := vs + [v], |vs|;
    forall j: nat | j < n ensures Joined(w, j) <==> Joined(vs, j) { JoinedPrefix(vs, [v], j); }
    forall j: nat | Joined(vs, j) ensures j < n { JoinedIndex(vs, j); }
    hide Joined, Mirrors;
    var k: nat :| Joined(vs, k) && vs[k].d.dn == v.d.dn;
    assert w[k] == vs[k] && Conflict(v.d.dn, "class", w[k].d.cls, v.d.cls) in ClassClash(w, n);
  }

  /** Against an object that mirrors the walk, the typed loop refuses what differs from the values set first. */
  lemma TypedClashIs(m: Models, c: Decln, vs: seq<Visit>, v: Visit)
    requires Mirrors(c, vs, v.d.dn) && c.cls == v.d.cls
    ensures TypedClash(m, vs + [v], |vs|) == TypedClashes(m, c, v.d)
  {
    var w, n, d := vs + [v], |vs|, v.d;
    forall j: nat, wire
      ensures j < n ==> (First(w, j, d.dn, wire) <==> First(vs, j, d.dn, wire))
      ensures First(vs, j, d.dn, wire) ==> j < n && Sets(vs[j].d, wire)
    {
      FirstSnoc(vs, v, j, d.dn, wire);
      FirstIndex(vs, j, d.dn, wire);
    }
    hide First;
    forall x ensures x in TypedClash(m, w, n) ==> x in TypedClashes(m, c, d) {
      if x in TypedClash(m, w, n) {
        var j, wire :| 0 <= j < n && wire in d.typed && First(w, j, d.dn, wire)
                       && m.canon(d.cls, wire, Said(w[j].d, wire)) != m.canon(d.cls, wire, d.typed[wire])
                       && x == Conflict(d.dn, wire, Said(w[j].d, wire), d.typed[wire]);
        assert HeldAs(c, vs[j].d, wire);
      }
    }
    forall wire | wire in d.typed && !TypedFits1(m, c, wire, d.typed[wire])
      ensures Conflict(d.dn, wire, KeptValue(c, wire), d.typed[wire]) in TypedClash(m, w, n)
    {
      assert Sets(c, wire);
      var j: nat :| First(vs, j, d.dn, wire);
      assert HeldAs(c, vs[j].d, wire) && w[j] == vs[j];
    }
  }

  /** The raw loop runs after the typed one: against what mirrors the walk and the typed values of the object itself. */
  lemma RawClashIs(m: Models, c: Decln, vs: seq<Visit>, v: Visit)
    requires Mirrors(c, vs, v.d.dn) && c.cls == v.d.cls && Joined(vs + [v], |vs|)
    ensures RawClash(m, vs + [v], |vs|) == RawClashes(m, c.(typed := TypedAfter(c, v.d)), v.d)
  {
    var w, n, d := vs + [v], |vs|, v.d;
    var c2 := c.(typed := TypedAfter(c, d));
    forall wire ensures RawHeld(c2, w, n, d.dn, wire) { RawMirrors(c, vs, v, wire); }
    hide First, Joined, Mirrors, TypedAfter;
    forall x ensures x in RawClash(m, w, n) ==> x in RawClashes(m, c2, d) {
      if x in RawClash(m, w, n) {
        var j, wire :| 0 <= j < n + 1 && wire in d.raw && First(w, j, d.dn, wire)
                       && (if wire in w[j].d.typed then m.canon(d.cls, wire, w[j].d.typed[wire]) != m.canon(d.cls, wire, d.raw[wire])
                           else w[j].d.raw[wire] != d.raw[wire])
                       && x == Conflict(d.dn, wire, Said(w[j].d, wire), d.raw[wire]);
        assert RawHeld(c2, w, n, d.dn, wire);
      }
    }
    forall wire | wire in d.raw && !RawFits1(m, c2, wire, d.raw[wire])
      ensures Conflict(d.dn, wire, KeptValue(c2, wire), d.raw[wire]) in RawClash(m, w, n)
    {
      assert RawHeld(c2, w, n, d.dn, wire);
      var j: nat :| First(w, j, d.dn, wire) && j <= n && j < |w| && HeldAs(c2, w[j].d, wire);
    }
  }

  /**
   * What the raw loop compares with is what was set first. An attribute that the object itself sets
   * first through the raw channel is not held yet, and agrees with itself.
   */
  ghost predicate RawHeld(c: Decln, w: seq<Visit>, n: nat, dn: string, wire: string)
    requires n < |w|
  {
    && (Sets(c, wire) ==> exists j: nat :: First(w, j, dn, wire) && j <= n && j < |w| && HeldAs(c, w[j].d, wire))
    && (forall j: nat :: First(w, j, dn, wire) && j <= n ==>
          j < |w| && Sets(w[j].d, wire) && (HeldAs(c, w[j].d, wire) || (!Sets(c, wire) && j == n && wire !in w[j].d.typed)))
  }

  lemma RawMirrors(c: Decln, vs: seq<Visit>, v: Visit, wire: string)
    requires Mirrors(c, vs, v.d.dn) && Joined(vs + [v], |vs|)
    ensures RawHeld(c.(typed := TypedAfter(c, v.d)), vs + [v], |vs|, v.d.dn, wire)
  {
    var w, n, dn := vs + [v], |vs|, v.d.dn;
    var c2 := c.(typed := TypedAfter(c, v.d));
    forall j: nat
      ensures j < n ==> (First(w, j, dn, wire) <==> First(vs, j, dn, wire))
      ensures First(vs, j, dn, wire) ==> j < n && Sets(vs[j].d, wire)
      ensures First(w, j, dn, wire) ==> j <= n
    {
      FirstSnoc(vs, v, j, dn, wire);
      FirstIndex(vs, j, dn, wire);
    }
    FirstSnoc(vs, v, n, dn, wire);
    hide First, Joined;
    forall j: nat | First(vs, j, dn, wire) ensures HeldAs(c2, vs[j].d, wire) { assert HeldAs(c, vs[j].d, wire); }
    if Sets(c, wire) {
      var j: nat :| First(vs, j, dn, wire);
      assert First(w, j, dn, wire) && w[j] == vs[j];
    } else {
      assert forall k: nat :: First(vs, k, dn, wire) ==> HeldAs(c, vs[k].d, wire);
      if wire in v.d.typed { assert First(w, n, dn, wire) && HeldAs(c2, w[n].d, wire); }
    }
  }

  /** One step refuses exactly the contradictions of its declaration, and goes on mirroring the walk. */
  lemma StepClashes(m: Models, s: Merging, vs: seq<Visit>, v: Visit)
    requires Tracks(s.byDn, vs)
    ensures Tracks(Step(m, s, v).byDn, vs + [v])
    ensures Step(m, s, v).conflicts == s.conflicts + ClashesAt(m, vs + [v], |vs|)
  {
    var w, n, d := vs + [v], |vs|, v.d;
    LeftOutIff(s.byDn, vs, v);
    ClassAgreesIff(s.byDn, vs, v, d.dn, d.cls);
    assert Joined(w, n) <==> Reached(w, n) && ClassHolds(w, n, d.dn, d.cls);
    hide Joined, Reached, ClassHolds, Tracks, LeftOut, Absorbed, ClassClash, TypedClash, RawClash, TypedClashes, RawClashes;
    if !Joined(w, n) {
      TracksUnjoined(s.byDn, vs, v);
      if Reached(w, n) { ClassClashIs(s.byDn, vs, v); }
    } else {
      var c := Before(s.byDn, d);
      BeforeMirrors(s.byDn, vs, d);
      TracksJoined(s.byDn, vs, v);
      TypedClashIs(m, c, vs, v);
      RawClashIs(m, c, vs, v);
    }
  }

  lemma {:induction false} WalkClashes(m: Models, vs: seq<Visit>)
    ensures Tracks(Steps(m, Merging(map[], multiset{}), vs).byDn, vs)
    ensures Steps(m, Merging(map[], multiset{}), vs).conflicts == ClashesUpTo(m, vs, |vs|)
  {
    var none := Merging(map[], multiset{});
    if vs == [] {
      assert Tracks(map[], []);
    } else {
      var init, last := vs[..|vs| - 1], vs[|vs| - 1];
      assert vs == init + [last];
      assert Steps(m, none, vs) == Step(m, Steps(m, none, init), last);
      hide *;
      WalkClashes(m, init);
      StepClashes(m, Steps(m, none, init), init, last);
      ClashesPrefix(m, init, [last], |init|);
      ClashesStep(m, vs, |vs|);
    }
  }

  lemma FreshStart(m: Models)
    ensures Steps(m, Merging(map[], multiset{}), [FRESH]) == START
  {
    StepsOne(m, Merging(map[], multiset{}), FRESH);
    assert TypedClashes(m, Bare(FRESH.d), FRESH.d) == {};
    assert RawClashes(m, Bare(FRESH.d), FRESH.d) == {};
  }

  /**
   * A merge reports every contradiction of its sources, once each, and nothing else: per declaration that
   * is reached, the class or the values that differ from what was declared first, what was declared
   * first being kept.
   */
  lemma ReportsEveryContradiction(m: Models, designs: seq<Source>)
    ensures Steps(m, START, AllVisits(designs)).conflicts == ClashesUpTo(m, Walk(designs), |Walk(designs)|)
    ensures Tracks(Steps(m, START, AllVisits(designs)).byDn, Walk(designs))
  {
    FreshStart(m);
    hide Steps, AllVisits, Tracks, ClashesUpTo;
    StepsConcat(m, Merging(map[], multiset{}), [FRESH], AllVisits(designs));
    WalkClashes(m, Walk(designs));
  }

  /** One by one: a contradiction is reported exactly when some declaration has it. */
  lemma {:induction false} ReportedExactly(m: Models, vs: seq<Visit>, n: nat, x: Conflict)
    requires n <= |vs|
    ensures x in ClashesUpTo(m, vs, n) <==> exists i: nat :: i < n && x in ClashesAt(m, vs, i)
  {
    hide *;
    ClashesStep(m, vs, n);
    if n > 0 { ReportedExactly(m, vs, n - 1, x); }
  }

  // ---- A merge that is not refused

  lemma AllJoin(byDn: Merged, vs: seq<Visit>, i: nat)
    requires Tracks(byDn, vs) && AllStand(byDn, vs) && ParentsFirst(vs, []) && i < |vs|
    ensures Joined(vs, i)
  {
    hide Joined, Mirrors, MergedAt;
    forall dn, cls | dn in byDn && byDn[dn].cls == cls ensures ClassHolds(vs, i, dn, cls) {
      forall j: nat | Joined(vs, j) ensures j < |vs| { JoinedIndex(vs, j); }
    }
    assert vs[i] in vs;
    forall a | a in vs[i].above ensures ClassHolds(vs, i, a.0, a.1) {
      assert MetBefore(vs[..i], vs[i].above, []);
      var v :| v in vs[..i] && a == (v.d.dn, v.d.cls);
      assert v in vs;
    }
    hide ClassHolds;
    JoinedIs(vs, i);
  }

  lemma JoinedIs(vs: seq<Visit>, i: nat)
    requires i < |vs| && ClassHolds(vs, i, vs[i].d.dn, vs[i].d.cls) && forall a :: a in vs[i].above ==> ClassHolds(vs, i, a.0, a.1)
    ensures Joined(vs, i)
  {
  }

  /** The declaration that sets the attribute first at its DN. */
  ghost predicate SetsFirst(ds: seq<Decln>, i: nat, wire: string) {
    i < |ds| && Sets(ds[i], wire) && forall k: nat :: k < i && ds[k].dn == ds[i].dn ==> !Sets(ds[k], wire)
  }

  /** A merge that is not refused holds each attribute as it was first declared: value, spelling and channel. */
  lemma MergedHoldsFirst(m: Models, designs: seq<Source>, i: nat, wire: string)
    requires Fold(m, EMPTY, AllDeclared(designs)).ok && SetsFirst(AllDeclared(designs), i, wire)
    ensures var d, byDn := AllDeclared(designs)[i], Fold(m, EMPTY, AllDeclared(designs)).byDn;
            d.dn in byDn && HeldAs(byDn[d.dn], d, wire)
  {
    var ds, vs := AllDeclared(designs), AllVisits(designs);
    var walk, byDn := Walk(designs), Fold(m, EMPTY, ds).byDn;
    AllVisitsDeclare(designs);
    AllVisitsParentsFirst(designs);
    StepsFold(m, vs);
    ReportsEveryContradiction(m, designs);
    assert ParentsFirst([FRESH], []);
    ParentsFirstConcat([FRESH], vs, [], []);
    assert walk[i + 1] == vs[i] && vs[i].d == ds[i];
    hide *;
    WalkStands(byDn, vs);
    forall j: nat | j < |walk| ensures Joined(walk, j) { AllJoin(byDn, walk, j); }
    FirstInWalk(ds, vs, i, wire);
    MirroredAt(byDn, walk, i + 1, ds[i].dn, wire);
  }

  lemma WalkStands(byDn: Merged, vs: seq<Visit>)
    requires Tracks(byDn, [FRESH] + vs) && AllStand(byDn, vs)
    ensures AllStand(byDn, [FRESH] + vs)
  {
    var walk := [FRESH] + vs;
    assert Joined(walk, 0) && walk[0] == FRESH;
    hide Joined, Mirrors, MergedAt;
    assert forall v :: v in walk ==> v == FRESH || v in vs;
  }

  lemma FirstInWalk(ds: seq<Decln>, vs: seq<Visit>, i: nat, wire: string)
    requires ds == DeclnsOf(vs) && SetsFirst(ds, i, wire)
    requires var walk := [FRESH] + vs; forall j: nat :: j < |walk| ==> Joined(walk, j)
    ensures First([FRESH] + vs, i + 1, ds[i].dn, wire)
  {
    var walk := [FRESH] + vs;
    assert forall j: nat :: 0 < j < |walk| ==> walk[j].d == ds[j - 1];
    hide Joined;
  }

  lemma MirroredAt(byDn: Merged, vs: seq<Visit>, j: nat, dn: string, wire: string)
    requires Tracks(byDn, vs) && First(vs, j, dn, wire)
    ensures j < |vs| && dn in byDn && HeldAs(byDn[dn], vs[j].d, wire)
  {
    FirstIndex(vs, j, dn, wire);
    hide Joined, HeldAs;
    assert Joined(vs, j) && vs[j].d.dn == dn;
  }
}
