/** Merging designs by DN (`merge` in `_compose.py`). */
module Merge {
  import opened Text
  import opened Dn
  import opened Store
  import R = Resolver

  type Bind = R.Bind

  /** A declared object of a source: attributes of the typed and of the raw channel, by wire name. */
  datatype Source = Source(cls: string, rn: string, typed: map<string, string>, raw: map<string, string>, binds: seq<Bind>, children: seq<Source>)

  /** One declaration, and one object of the merged design. */
  datatype Decln = Decln(dn: string, cls: string, typed: map<string, string>, raw: map<string, string>, binds: seq<Bind>)

  /**
   * What the generated models know: the wire attributes a class prints for its naming, and the value a
   * spelling of an attribute coerces to.
   */
  datatype Models = Models(naming: (string, string) -> map<string, string>, canon: (string, string, string) -> string)

  function Declared(n: Source, dn: string): seq<Decln>
    decreases n, 0
  {
    [Decln(dn, n.cls, n.typed, n.raw, n.binds)] + DeclaredAll(n.children, dn)
  }

  function DeclaredAll(ns: seq<Source>, at: string): seq<Decln>
    decreases ns
  {
    if ns == [] then []
    else
      assert ns[|ns| - 1] in ns;
      DeclaredAll(ns[..|ns| - 1], at) + Declared(ns[|ns| - 1], Child(at, ns[|ns| - 1].rn))
  }

  // ---- One declaration meets what is already merged

  predicate Agree(m: Models, cls: string, wire: string, a: string, b: string) {
    m.canon(cls, wire, a) == m.canon(cls, wire, b)
  }

  /** The typed channel after `d`: a wire name either channel already sets is left alone. */
  function TypedAfter(c: Decln, d: Decln): map<string, string> {
    c.typed + map wire | wire in d.typed && wire !in c.typed && wire !in c.raw :: d.typed[wire]
  }

  /** The raw channel after `d`, once the typed one has been merged. */
  function RawAfter(c: Decln, d: Decln): map<string, string> {
    c.raw + map wire | wire in d.raw && wire !in c.typed && wire !in c.raw :: d.raw[wire]
  }

  function AppendNew(binds: seq<Bind>, more: seq<Bind>): (r: seq<Bind>)
    ensures forall b :: b in r <==> b in binds || b in more
  {
    if more == [] then binds
    else
      var last := more[|more| - 1];
      var r := AppendNew(binds, more[..|more| - 1]);
      assert more == more[..|more| - 1] + [last];
      if last in r then r else r + [last]
  }

  function Absorbed(c: Decln, d: Decln): Decln {
    var typed := c.(typed := TypedAfter(c, d));
    Decln(c.dn, c.cls, typed.typed, RawAfter(typed, d), AppendNew(c.binds, d.binds))
  }

  /** A typed value agrees with the one either channel already holds. */
  predicate TypedFits1(m: Models, c: Decln, wire: string, value: string) {
    if wire in c.typed then Agree(m, c.cls, wire, c.typed[wire], value)
    else wire in c.raw ==> Agree(m, c.cls, wire, c.raw[wire], value)
  }

  /** A raw value agrees with a typed one, and repeats a raw one. */
  predicate RawFits1(m: Models, c: Decln, wire: string, value: string) {
    if wire in c.typed then Agree(m, c.cls, wire, c.typed[wire], value)
    else wire in c.raw ==> c.raw[wire] == value
  }

  ghost predicate TypedFits(m: Models, c: Decln, d: Decln) {
    forall wire :: wire in d.typed ==> TypedFits1(m, c, wire, d.typed[wire])
  }

  ghost predicate RawFits(m: Models, c: Decln, d: Decln) {
    forall wire :: wire in d.raw ==> RawFits1(m, c, wire, d.raw[wire])
  }

  /** No contradiction between the object as merged so far and one more declaration of it. */
  ghost predicate Fits(m: Models, c: Decln, d: Decln) {
    TypedFits(m, c, d) && RawFits(m, c.(typed := TypedAfter(c, d)), d)
  }

  // ---- The merge as a fold over the declarations

  type Merged = map<string, Decln>

  datatype Folded = Folded(byDn: Merged, ok: bool)

  function Bare(d: Decln): Decln { Decln(d.dn, d.cls, map[], map[], []) }

  ghost function Fold1(m: Models, s: Folded, d: Decln): Folded {
    var c := if d.dn in s.byDn then s.byDn[d.dn] else Bare(d);
    if c.cls != d.cls then Folded(s.byDn, false)
    else Folded(s.byDn[d.dn := Absorbed(c, d)], s.ok && Fits(m, c, d))
  }

  ghost function Fold(m: Models, byDn: Merged, ds: seq<Decln>): Folded {
    if ds == [] then Folded(byDn, true) else Fold1(m, Fold(m, byDn, ds[..|ds| - 1]), ds[|ds| - 1])
  }

  lemma {:induction false} FailedStays(m: Models, byDn: Merged, a: seq<Decln>, b: seq<Decln>)
    requires !Fold(m, byDn, a).ok
    ensures !Fold(m, byDn, a + b).ok
  {
    if b == [] {
      assert a + b == a;
    } else {
      FailedStays(m, byDn, a, b[..|b| - 1]);
      assert (a + b)[..|a + b| - 1] == a + b[..|b| - 1];
    }
  }

  // ---- What is refused

  /** The object, what of it contradicts, the value it has and the value refused. */
  datatype Conflict = Conflict(dn: string, what: string, kept: string, refused: string)

  function KeptValue(c: Decln, wire: string): string {
    if wire in c.typed then c.typed[wire] else if wire in c.raw then c.raw[wire] else ""
  }

  /** What the typed loop refuses of `d` against `c`. */
  ghost function TypedClashes(m: Models, c: Decln, d: Decln): set<Conflict> {
    set wire | wire in d.typed && !TypedFits1(m, c, wire, d.typed[wire]) :: Conflict(d.dn, wire, KeptValue(c, wire), d.typed[wire])
  }

  /** What the raw loop refuses of `d` against `c`. */
  ghost function RawClashes(m: Models, c: Decln, d: Decln): set<Conflict> {
    set wire | wire in d.raw && !RawFits1(m, c, wire, d.raw[wire]) :: Conflict(d.dn, wire, KeptValue(c, wire), d.raw[wire])
  }

  ghost function Clashes(m: Models, c: Decln, d: Decln): multiset<Conflict> {
    multiset(TypedClashes(m, c, d)) + multiset(RawClashes(m, c.(typed := TypedAfter(c, d)), d))
  }

  lemma NoClashIffFits(m: Models, c: Decln, d: Decln)
    ensures TypedClashes(m, c, d) == {} <==> TypedFits(m, c, d)
    ensures RawClashes(m, c, d) == {} <==> RawFits(m, c, d)
  {
    hide TypedFits1, RawFits1, KeptValue;
    if TypedClashes(m, c, d) == {} {
      forall wire | wire in d.typed ensures TypedFits1(m, c, wire, d.typed[wire]) {
        assert Conflict(d.dn, wire, KeptValue(c, wire), d.typed[wire]) !in TypedClashes(m, c, d);
      }
    }
    if RawClashes(m, c, d) == {} {
      forall wire | wire in d.raw ensures RawFits1(m, c, wire, d.raw[wire]) {
        assert Conflict(d.dn, wire, KeptValue(c, wire), d.raw[wire]) !in RawClashes(m, c, d);
      }
    }
  }

  lemma ClashesIffUnfit(m: Models, c: Decln, d: Decln)
    ensures Clashes(m, c, d) == multiset{} <==> Fits(m, c, d)
  {
    NoClashIffFits(m, c, d);
    NoClashIffFits(m, c.(typed := TypedAfter(c, d)), d);
    hide TypedClashes, RawClashes, TypedFits, RawFits, TypedAfter;
    EmptyUnion(TypedClashes(m, c, d), RawClashes(m, c.(typed := TypedAfter(c, d)), d));
  }

  lemma EmptyUnion<T>(a: set<T>, b: set<T>)
    ensures multiset(a) + multiset(b) == multiset{} <==> a == {} && b == {}
  {
    var all := multiset(a) + multiset(b);
    if x :| x in a { assert x in all; }
    if x :| x in b { assert x in all; }
  }

  // ---- The walk

  /** One object met on the walk, below the objects `above` of its source, each with its class. */
  datatype Visit = Visit(above: seq<(string, string)>, d: Decln)

  function Visits(n: Source, dn: string, above: seq<(string, string)>): seq<Visit>
    decreases n, 0
  {
    [Visit(above, Decln(dn, n.cls, n.typed, n.raw, n.binds))] + VisitsAll(n.children, dn, above + [(dn, n.cls)])
  }

  function VisitsAll(ns: seq<Source>, at: string, above: seq<(string, string)>): seq<Visit>
    decreases ns
  {
    if ns == [] then []
    else
      assert ns[|ns| - 1] in ns;
      VisitsAll(ns[..|ns| - 1], at, above) + Visits(ns[|ns| - 1], Child(at, ns[|ns| - 1].rn), above)
  }

  /** The merged objects and what has been refused. */
  datatype Merging = Merging(byDn: Merged, conflicts: multiset<Conflict>)

  /** An ancestor of the object in its source was refused for its class. */
  ghost predicate LeftOut(byDn: Merged, v: Visit) {
    exists a :: a in v.above && a.0 in byDn && byDn[a.0].cls != a.1
  }

  /** One object: left out, refused for its class, or absorbed attribute by attribute. */
  ghost function Step(m: Models, s: Merging, v: Visit): Merging {
    if LeftOut(s.byDn, v) then s
    else if v.d.dn in s.byDn && s.byDn[v.d.dn].cls != v.d.cls then
      s.(conflicts := s.conflicts + multiset{Conflict(v.d.dn, "class", s.byDn[v.d.dn].cls, v.d.cls)})
    else
      var c := if v.d.dn in s.byDn then s.byDn[v.d.dn] else Bare(v.d);
      Merging(s.byDn[v.d.dn := Absorbed(c, v.d)], s.conflicts + Clashes(m, c, v.d))
  }

  ghost function Steps(m: Models, s: Merging, vs: seq<Visit>): Merging {
    if vs == [] then s else Step(m, Steps(m, s, vs[..|vs| - 1]), vs[|vs| - 1])
  }

  lemma {:induction false} StepsConcat(m: Models, s: Merging, a: seq<Visit>, b: seq<Visit>)
    ensures Steps(m, s, a + b) == Steps(m, Steps(m, s, a), b)
  {
    hide Step;
    if b == [] {
      assert a + b == a;
    } else {
      StepsConcat(m, s, a, b[..|b| - 1]);
      assert (a + b)[..|a + b| - 1] == a + b[..|b| - 1];
    }
  }

  lemma StepsOne(m: Models, s: Merging, v: Visit)
    ensures Steps(m, s, [v]) == Step(m, s, v)
  {
    assert [v][..0] == [];
  }

  /** No object already merged changes class. */
  ghost predicate SameClasses(a: Merged, b: Merged) {
    forall dn :: dn in a ==> dn in b && b[dn].cls == a[dn].cls
  }

  lemma {:induction false} ClassesStay(m: Models, s: Merging, vs: seq<Visit>)
    ensures SameClasses(s.byDn, Steps(m, s, vs).byDn)
  {
    if vs != [] {
      ClassesStay(m, s, vs[..|vs| - 1]);
      AbsorbedKeepsClass();
      hide Absorbed, Clashes, LeftOut;
    }
  }

  /** Objects below one refused for its class are left out. */
  lemma {:induction false} BelowRefused(m: Models, s: Merging, vs: seq<Visit>, dn: string, cls: string)
    requires dn in s.byDn && s.byDn[dn].cls != cls && forall v :: v in vs ==> (dn, cls) in v.above
    ensures Steps(m, s, vs) == s
  {
    if vs != [] {
      BelowRefused(m, s, vs[..|vs| - 1], dn, cls);
      assert vs[|vs| - 1] in vs;
      assert LeftOut(s.byDn, vs[|vs| - 1]);
    }
  }

  lemma {:induction false} VisitsBelow(n: Source, dn: string, above: seq<(string, string)>)
    ensures forall v, a :: v in Visits(n, dn, above) && a in above ==> a in v.above
    decreases n, 0
  {
    var more := above + [(dn, n.cls)];
    VisitsAllBelow(n.children, dn, more);
    hide VisitsAll;
    assert forall a :: a in above ==> a in more;
  }

  lemma {:induction false} VisitsAllBelow(ns: seq<Source>, at: string, above: seq<(string, string)>)
    ensures forall v, a :: v in VisitsAll(ns, at, above) && a in above ==> a in v.above
    decreases ns
  {
    if ns != [] {
      assert ns[|ns| - 1] in ns;
      VisitsAllBelow(ns[..|ns| - 1], at, above);
      VisitsBelow(ns[|ns| - 1], Child(at, ns[|ns| - 1].rn), above);
      hide Visits;
    }
  }

  /** The objects above are merged, with the classes they have in the source. */
  ghost predicate Standing(byDn: Merged, above: seq<(string, string)>) {
    forall a :: a in above ==> a.0 in byDn && byDn[a.0].cls == a.1
  }

  // ---- The program

  class Merger {
    const m: Models
    var byDn: Merged
    var conflicts: seq<Conflict>

    constructor (m: Models)
      ensures this.m == m && byDn == map["uni" := Decln("uni", "polUni", map[], map[], [])] && conflicts == []
    {
      this.m := m;
      byDn := map["uni" := Decln("uni", "polUni", map[], map[], [])];
      conflicts := [];
    }

    /** The typed loop of `_merge_attrs`. */
    method MergeTyped(d: Decln)
      requires d.dn in byDn
      modifies this
      ensures byDn == old(byDn)[d.dn := old(byDn)[d.dn].(typed := TypedAfter(old(byDn)[d.dn], d))]
      ensures multiset(conflicts) == multiset(old(conflicts)) + multiset(TypedClashes(m, old(byDn)[d.dn], d))
    {
      var c := byDn[d.dn];
      var typed, todo := c.typed, d.typed.Keys;
      while todo != {}
        invariant todo <= d.typed.Keys && byDn == old(byDn)
        invariant typed == TypedAfter(c, d.(typed := d.typed - todo))
        invariant multiset(conflicts) == multiset(old(conflicts)) + multiset(TypedClashes(m, c, d.(typed := d.typed - todo)))
        decreases todo
      {
        var wire :| wire in todo;
        var value := d.typed[wire];
        TypedStep(m, c, d, todo, wire);
        FitCases(m, c, wire, value);
        hide *;
        if wire in c.typed {
          if !Agree(m, c.cls, wire, c.typed[wire], value) {
            conflicts := conflicts + [Conflict(d.dn, wire, c.typed[wire], value)];
          }
        } else if wire in c.raw {
          if !Agree(m, c.cls, wire, c.raw[wire], value) {
            conflicts := conflicts + [Conflict(d.dn, wire, c.raw[wire], value)];
          }
        } else {
          typed := typed[wire := value];
        }
        todo := todo - {wire};
      }
      assert d.typed - {} == d.typed && d.(typed := d.typed - todo) == d;
      byDn := byDn[d.dn := c.(typed := typed)];
    }

    /** The raw loop of `_merge_attrs`. */
    method MergeRaw(d: Decln)
      requires d.dn in byDn
      modifies this
      ensures byDn == old(byDn)[d.dn := old(byDn)[d.dn].(raw := RawAfter(old(byDn)[d.dn], d))]
      ensures multiset(conflicts) == multiset(old(conflicts)) + multiset(RawClashes(m, old(byDn)[d.dn], d))
    {
      var c := byDn[d.dn];
      var raw, todo := c.raw, d.raw.Keys;
      while todo != {}
        invariant todo <= d.raw.Keys && byDn == old(byDn)
        invariant raw == RawAfter(c, d.(raw := d.raw - todo))
        invariant multiset(conflicts) == multiset(old(conflicts)) + multiset(RawClashes(m, c, d.(raw := d.raw - todo)))
        decreases todo
      {
        var wire :| wire in todo;
        var value := d.raw[wire];
        RawStep(m, c, d, todo, wire);
        FitCases(m, c, wire, value);
        hide *;
        if wire in c.typed {
          if !Agree(m, c.cls, wire, c.typed[wire], value) {
            conflicts := conflicts + [Conflict(d.dn, wire, c.typed[wire], value)];
          }
        } else if wire in c.raw {
          if c.raw[wire] != value {
            conflicts := conflicts + [Conflict(d.dn, wire, c.raw[wire], value)];
          }
        } else {
          raw := raw[wire := value];
        }
        todo := todo - {wire};
      }
      assert d.raw - {} == d.raw && d.(raw := d.raw - todo) == d;
      byDn := byDn[d.dn := c.(raw := raw)];
    }

    /** `_merge_binds`: a reference already there collapses. */
    method MergeBinds(d: Decln)
      requires d.dn in byDn
      modifies this`byDn
      ensures byDn == old(byDn)[d.dn := old(byDn)[d.dn].(binds := AppendNew(old(byDn)[d.dn].binds, d.binds))]
    {
      var c := byDn[d.dn];
      var binds, seen := c.binds, set b | b in c.binds;
      for i := 0 to |d.binds|
        invariant binds == AppendNew(c.binds, d.binds[..i])
        invariant forall b :: b in seen <==> b in binds
      {
        assert d.binds[..i + 1][..i] == d.binds[..i];
        if d.binds[i] !in seen {
          seen, binds := seen + {d.binds[i]}, binds + [d.binds[i]];
        }
      }
      assert d.binds[..|d.binds|] == d.binds;
      byDn := byDn[d.dn := c.(binds := binds)];
    }

    /** `_merge_attrs` and `_merge_binds` into the object at `d.dn`. */
    method MergeInto(d: Decln)
      requires d.dn in byDn
      modifies this
      ensures byDn == old(byDn)[d.dn := Absorbed(old(byDn)[d.dn], d)]
      ensures multiset(conflicts) == multiset(old(conflicts)) + Clashes(m, old(byDn)[d.dn], d)
    {
      hide TypedAfter, RawAfter, TypedClashes, RawClashes, AppendNew;
      MergeTyped(d);
      MergeRaw(d);
      MergeBinds(d);
    }

    ghost function Now(): Merging
      reads this
    {
      Merging(byDn, multiset(conflicts))
    }

    /** The node part of `_absorb`; false on a class contradiction, when the subtree is left out. */
    method AbsorbOne(d: Decln, ghost above: seq<(string, string)>) returns (same: bool)
      requires Standing(byDn, above)
      modifies this
      ensures Now() == Step(m, old(Now()), Visit(above, d))
      ensures d.dn in byDn && (same <==> byDn[d.dn].cls == d.cls)
    {
      assert !LeftOut(byDn, Visit(above, d));
      if d.dn !in byDn {
        byDn := byDn[d.dn := Bare(d)];
      } else if byDn[d.dn].cls != d.cls {
        conflicts := conflicts + [Conflict(d.dn, "class", byDn[d.dn].cls, d.cls)];
        return false;
      }
      hide Absorbed, Clashes, LeftOut;
      AbsorbedKeepsClass();
      MergeInto(d);
      same := true;
    }

    /** `_absorb`. */
    method Absorb(n: Source, dn: string, ghost above: seq<(string, string)>)
      requires Standing(byDn, above)
      modifies this
      ensures Now() == Steps(m, old(Now()), Visits(n, dn, above))
      decreases n, 0
    {
      var d := Decln(dn, n.cls, n.typed, n.raw, n.binds);
      ghost var start, own, more := Now(), Visit(above, d), above + [(dn, n.cls)];
      ghost var rest := VisitsAll(n.children, dn, more);
      assert Visits(n, dn, above) == [own] + rest;
      hide Step, Steps, VisitsAll, Visits;
      var same := AbsorbOne(d, above);
      StepsOne(m, start, own);
      StepsConcat(m, start, [own], rest);
      if same {
        StillStanding(m, start, [own], above);
        AbsorbAll(n.children, dn, more);
      } else {
        VisitsAllBelow(n.children, dn, more);
        assert (dn, n.cls) in more;
        BelowRefused(m, Now(), rest, dn, n.cls);
      }
    }

    /** One source: its root goes into the root of the merge. */
    method AbsorbSource(s: Source)
      requires RootKept(byDn) && s.cls == "polUni"
      modifies this
      ensures RootKept(byDn)
      ensures Now() == Steps(m, old(Now()), Visits(s, "uni", []))
    {
      var d := Decln("uni", s.cls, s.typed, s.raw, s.binds);
      ghost var start, own := Now(), Visit([], d);
      ghost var rest := VisitsAll(s.children, "uni", [("uni", s.cls)]);
      assert [] + [("uni", s.cls)] == [("uni", s.cls)];
      assert Visits(s, "uni", []) == [own] + rest;
      assert !LeftOut(byDn, own);
      hide Absorbed, Clashes, LeftOut, VisitsAll, Visits;
      MergeInto(d);
      assert Now() == Step(m, start, own);
      StepsOne(m, start, own);
      StepsConcat(m, start, [own], rest);
      AbsorbedKeepsClass();
      hide Step, Steps;
      ghost var mid := Now();
      AbsorbAll(s.children, "uni", [("uni", s.cls)]);
      ClassesStay(m, mid, rest);
    }

    method AbsorbAll(ns: seq<Source>, at: string, ghost above: seq<(string, string)>)
      requires Standing(byDn, above)
      modifies this
      ensures Now() == Steps(m, old(Now()), VisitsAll(ns, at, above))
      decreases ns
    {
      ghost var start := Now();
      assert ns[..0] == [];
      assert VisitsAll([], at, above) == [] && Steps(m, start, []) == start;
      for i := 0 to |ns|
        invariant Now() == Steps(m, start, VisitsAll(ns[..i], at, above))
      {
        hide Steps, Visits;
        StillStanding(m, start, VisitsAll(ns[..i], at, above), above);
        assert ns[..i + 1][..i] == ns[..i] && ns[..i + 1][i] == ns[i];
        StepsConcat(m, start, VisitsAll(ns[..i], at, above), Visits(ns[i], Child(at, ns[i].rn), above));
        hide VisitsAll;
        Absorb(ns[i], Child(at, ns[i].rn), above);
      }
      assert ns[..|ns|] == ns;
    }
  }

  lemma StillStanding(m: Models, s: Merging, vs: seq<Visit>, above: seq<(string, string)>)
    requires Standing(s.byDn, above)
    ensures Standing(Steps(m, s, vs).byDn, above)
  {
    ClassesStay(m, s, vs);
    hide Steps;
  }

  /** Where the merged object holds the attribute decides how a value is compared with it. */
  lemma FitCases(m: Models, c: Decln, wire: string, value: string)
    ensures wire in c.typed ==> KeptValue(c, wire) == c.typed[wire]
    ensures wire in c.typed ==> (TypedFits1(m, c, wire, value) <==> Agree(m, c.cls, wire, c.typed[wire], value))
    ensures wire in c.typed ==> (RawFits1(m, c, wire, value) <==> Agree(m, c.cls, wire, c.typed[wire], value))
    ensures wire !in c.typed && wire in c.raw ==> KeptValue(c, wire) == c.raw[wire]
    ensures wire !in c.typed && wire in c.raw ==> (TypedFits1(m, c, wire, value) <==> Agree(m, c.cls, wire, c.raw[wire], value))
    ensures wire !in c.typed && wire in c.raw ==> (RawFits1(m, c, wire, value) <==> c.raw[wire] == value)
    ensures wire !in c.typed && wire !in c.raw ==> TypedFits1(m, c, wire, value) && RawFits1(m, c, wire, value)
  {
  }

  lemma TypedStep(m: Models, c: Decln, d: Decln, todo: set<string>, wire: string)
    requires wire in todo && todo <= d.typed.Keys
    ensures var before, after := d.(typed := d.typed - todo), d.(typed := d.typed - (todo - {wire}));
            && multiset(TypedClashes(m, c, after)) == multiset(TypedClashes(m, c, before)) +
                 (if TypedFits1(m, c, wire, d.typed[wire]) then multiset{} else multiset{Conflict(d.dn, wire, KeptValue(c, wire), d.typed[wire])})
            && TypedAfter(c, after) == if wire in c.typed || wire in c.raw then TypedAfter(c, before) else TypedAfter(c, before)[wire := d.typed[wire]]
  {
    var before, after := d.typed - todo, d.typed - (todo - {wire});
    assert forall w :: w in after <==> w in before || w == wire;
    hide TypedFits1, KeptValue, TypedClashes;
    TypedClashStep(m, c, d.(typed := before), d.(typed := after), wire);
  }

  lemma TypedClashStep(m: Models, c: Decln, b: Decln, a: Decln, wire: string)
    requires wire !in b.typed && wire in a.typed && a.typed == b.typed[wire := a.typed[wire]] && a.dn == b.dn
    ensures multiset(TypedClashes(m, c, a)) == multiset(TypedClashes(m, c, b)) +
              (if TypedFits1(m, c, wire, a.typed[wire]) then multiset{} else multiset{Conflict(a.dn, wire, KeptValue(c, wire), a.typed[wire])})
  {
    hide TypedFits1, KeptValue;
    var was, own := TypedClashes(m, c, b), Conflict(a.dn, wire, KeptValue(c, wire), a.typed[wire]);
    assert own !in was;
    assert TypedClashes(m, c, a) == if TypedFits1(m, c, wire, a.typed[wire]) then was else was + {own};
  }

  lemma RawStep(m: Models, c: Decln, d: Decln, todo: set<string>, wire: string)
    requires wire in todo && todo <= d.raw.Keys
    ensures var before, after := d.(raw := d.raw - todo), d.(raw := d.raw - (todo - {wire}));
            && multiset(RawClashes(m, c, after)) == multiset(RawClashes(m, c, before)) +
                 (if RawFits1(m, c, wire, d.raw[wire]) then multiset{} else multiset{Conflict(d.dn, wire, KeptValue(c, wire), d.raw[wire])})
            && RawAfter(c, after) == if wire in c.typed || wire in c.raw then RawAfter(c, before) else RawAfter(c, before)[wire := d.raw[wire]]
  {
    var before, after := d.raw - todo, d.raw - (todo - {wire});
    assert forall w :: w in after <==> w in before || w == wire;
    hide RawFits1, KeptValue, RawClashes;
    RawClashStep(m, c, d.(raw := before), d.(raw := after), wire);
  }

  lemma RawClashStep(m: Models, c: Decln, b: Decln, a: Decln, wire: string)
    requires wire !in b.raw && wire in a.raw && a.raw == b.raw[wire := a.raw[wire]] && a.dn == b.dn
    ensures multiset(RawClashes(m, c, a)) == multiset(RawClashes(m, c, b)) +
              (if RawFits1(m, c, wire, a.raw[wire]) then multiset{} else multiset{Conflict(a.dn, wire, KeptValue(c, wire), a.raw[wire])})
  {
    hide RawFits1, KeptValue;
    var was, own := RawClashes(m, c, b), Conflict(a.dn, wire, KeptValue(c, wire), a.raw[wire]);
    assert own !in was;
    assert RawClashes(m, c, a) == if RawFits1(m, c, wire, a.raw[wire]) then was else was + {own};
  }

  // ---- The whole merge

  const EMPTY: Merged := map["uni" := Decln("uni", "polUni", map[], map[], [])]

  /** Every declaration of the designs, source by source, parents first. */
  function AllDeclared(designs: seq<Source>): seq<Decln> {
    if designs == [] then [] else AllDeclared(designs[..|designs| - 1]) + Declared(designs[|designs| - 1], "uni")
  }

  datatype MergeResult = TooFew | Contradictions(found: seq<Conflict>) | MergedInto(byDn: Merged)

  ghost predicate RootKept(byDn: Merged) {
    "uni" in byDn && byDn["uni"].cls == "polUni"
  }

  lemma AbsorbedKeepsClass()
    ensures forall c: Decln, d: Decln :: Absorbed(c, d).cls == c.cls && Absorbed(c, d).dn == c.dn
  {
  }

  /** The walk over every design, source by source. */
  function AllVisits(designs: seq<Source>): seq<Visit> {
    if designs == [] then [] else AllVisits(designs[..|designs| - 1]) + Visits(designs[|designs| - 1], "uni", [])
  }

  const START := Merging(EMPTY, multiset{})

  /** `merge`: every contradiction is collected before it raises. */
  method MergeDesigns(m: Models, designs: seq<Source>) returns (r: MergeResult)
    requires forall s :: s in designs ==> s.cls == "polUni"
    ensures r.TooFew? <==> |designs| < 2
    ensures |designs| >= 2 ==> (r.Contradictions? <==> !Fold(m, EMPTY, AllDeclared(designs)).ok)
    ensures r.Contradictions? ==> multiset(r.found) == Steps(m, START, AllVisits(designs)).conflicts
    ensures r.MergedInto? ==> r.byDn == Fold(m, EMPTY, AllDeclared(designs)).byDn
  {
    if |designs| < 2 { return TooFew; }
    var merger := new Merger(m);
    assert designs[..0] == [];
    for i := 0 to |designs|
      invariant merger.Now() == Steps(m, START, AllVisits(designs[..i]))
      invariant RootKept(merger.byDn)
    {
      hide Steps, Visits;
      assert designs[..i + 1][..i] == designs[..i] && designs[..i + 1][i] == designs[i];
      StepsConcat(m, START, AllVisits(designs[..i]), Visits(designs[i], "uni", []));
      hide AllVisits;
      merger.AbsorbSource(designs[i]);
    }
    assert designs[..|designs|] == designs;
    MergeFolds(m, designs);
    hide Steps, Fold, AllVisits, AllDeclared;
    if merger.conflicts != [] {
      assert merger.conflicts[0] in multiset(merger.conflicts);
      return Contradictions(merger.conflicts);
    }
    return MergedInto(merger.byDn);
  }

  // ---- Without a contradiction the walk absorbs every declaration

  function DeclnsOf(vs: seq<Visit>): (r: seq<Decln>)
    ensures |r| == |vs| && forall i :: 0 <= i < |r| ==> r[i] == vs[i].d
  {
    seq(|vs|, i requires 0 <= i < |vs| => vs[i].d)
  }

  lemma {:induction false} VisitsDeclare(n: Source, dn: string, above: seq<(string, string)>)
    ensures DeclnsOf(Visits(n, dn, above)) == Declared(n, dn)
    decreases n, 0
  {
    VisitsAllDeclare(n.children, dn, above + [(dn, n.cls)]);
    hide VisitsAll, DeclaredAll;
  }

  lemma {:induction false} VisitsAllDeclare(ns: seq<Source>, at: string, above: seq<(string, string)>)
    ensures DeclnsOf(VisitsAll(ns, at, above)) == DeclaredAll(ns, at)
    decreases ns
  {
    if ns != [] {
      var init, last := ns[..|ns| - 1], ns[|ns| - 1];
      assert last in ns;
      VisitsAllDeclare(init, at, above);
      VisitsDeclare(last, Child(at, last.rn), above);
      hide Visits, Declared;
      assert DeclnsOf(VisitsAll(ns, at, above)) == DeclnsOf(VisitsAll(init, at, above)) + DeclnsOf(Visits(last, Child(at, last.rn), above));
    }
  }

  lemma {:induction false} AllVisitsDeclare(designs: seq<Source>)
    ensures DeclnsOf(AllVisits(designs)) == AllDeclared(designs)
  {
    if designs != [] {
      var init, last := designs[..|designs| - 1], designs[|designs| - 1];
      AllVisitsDeclare(init);
      VisitsDeclare(last, "uni", []);
      hide Visits, Declared;
      assert DeclnsOf(AllVisits(designs)) == DeclnsOf(AllVisits(init)) + DeclnsOf(Visits(last, "uni", []));
    }
  }

  /** Whatever is above an object was met before it. */
  ghost predicate MetBefore(vs: seq<Visit>, above: seq<(string, string)>, known: seq<(string, string)>) {
    forall a :: a in above ==> a in known || exists v :: v in vs && a == (v.d.dn, v.d.cls)
  }

  ghost predicate ParentsFirst(vs: seq<Visit>, known: seq<(string, string)>) {
    forall i :: 0 <= i < |vs| ==> MetBefore(vs[..i], vs[i].above, known)
  }

  lemma ParentsFirstConcat(a: seq<Visit>, b: seq<Visit>, known: seq<(string, string)>, more: seq<(string, string)>)
    requires ParentsFirst(a, known) && ParentsFirst(b, more) && MetBefore(a, more, known)
    ensures ParentsFirst(a + b, known)
  {
    forall i | 0 <= i < |a + b| ensures MetBefore((a + b)[..i], (a + b)[i].above, known) {
      if i < |a| {
        assert (a + b)[..i] == a[..i];
      } else {
        assert (a + b)[..i] == a + b[..i - |a|];
      }
    }
  }

  lemma {:induction false} VisitsParentsFirst(n: Source, dn: string, above: seq<(string, string)>)
    ensures ParentsFirst(Visits(n, dn, above), above)
    decreases n, 0
  {
    var own := Visit(above, Decln(dn, n.cls, n.typed, n.raw, n.binds));
    VisitsAllParentsFirst(n.children, dn, above + [(dn, n.cls)]);
    hide VisitsAll;
    ParentsFirstConcat([own], VisitsAll(n.children, dn, above + [(dn, n.cls)]), above, above + [(dn, n.cls)]);
  }

  lemma {:induction false} VisitsAllParentsFirst(ns: seq<Source>, at: string, above: seq<(string, string)>)
    ensures ParentsFirst(VisitsAll(ns, at, above), above)
    decreases ns
  {
    if ns != [] {
      var init, last := ns[..|ns| - 1], ns[|ns| - 1];
      assert last in ns;
      VisitsAllParentsFirst(init, at, above);
      VisitsParentsFirst(last, Child(at, last.rn), above);
      hide Visits;
      ParentsFirstConcat(VisitsAll(init, at, above), Visits(last, Child(at, last.rn), above), above, above);
    }
  }

  lemma {:induction false} AllVisitsParentsFirst(designs: seq<Source>)
    ensures ParentsFirst(AllVisits(designs), [])
  {
    if designs != [] {
      var init, last := designs[..|designs| - 1], designs[|designs| - 1];
      AllVisitsParentsFirst(init);
      VisitsParentsFirst(last, "uni", []);
      hide Visits;
      ParentsFirstConcat(AllVisits(init), Visits(last, "uni", []), [], []);
    }
  }

  /** Nothing refused so far: each object met is merged with its class. */
  ghost predicate AllStand(byDn: Merged, vs: seq<Visit>) {
    forall v :: v in vs ==> v.d.dn in byDn && byDn[v.d.dn].cls == v.d.cls
  }

  lemma NotLeftOut(byDn: Merged, vs: seq<Visit>, v: Visit)
    requires AllStand(byDn, vs) && MetBefore(vs, v.above, [])
    ensures !LeftOut(byDn, v)
  {
  }

  lemma StepFolds(m: Models, s: Merging, v: Visit)
    requires !LeftOut(s.byDn, v)
    ensures Step(m, s, v).conflicts == s.conflicts <==> Fold1(m, Folded(s.byDn, true), v.d).ok
    ensures Fold1(m, Folded(s.byDn, true), v.d).ok ==> Step(m, s, v).byDn == Fold1(m, Folded(s.byDn, true), v.d).byDn
    ensures Fold1(m, Folded(s.byDn, true), v.d).ok ==> v.d.dn in Step(m, s, v).byDn && Step(m, s, v).byDn[v.d.dn].cls == v.d.cls
  {
    var c := if v.d.dn in s.byDn then s.byDn[v.d.dn] else Bare(v.d);
    ClashesIffUnfit(m, c, v.d);
    AbsorbedKeepsClass();
    hide Absorbed, Clashes, Fits, LeftOut;
    if c.cls == v.d.cls { NothingAdded(s.conflicts, Clashes(m, c, v.d)); }
  }

  lemma NothingAdded<T>(a: multiset<T>, b: multiset<T>)
    ensures a + b == a <==> b == multiset{}
  {
    if a + b == a {
      forall x ensures b[x] == 0 { assert (a + b)[x] == a[x] + b[x]; }
    }
  }

  lemma ConflictsStay(m: Models, s: Merging, v: Visit)
    ensures s.conflicts <= Step(m, s, v).conflicts
  {
    hide Absorbed, Clashes, LeftOut;
  }

  /** The walk so far, and the fold of the declarations it met. */
  ghost predicate SameSoFar(s: Merging, f: Folded, vs: seq<Visit>) {
    (s.conflicts == multiset{} <==> f.ok) && (f.ok ==> s.byDn == f.byDn && AllStand(s.byDn, vs))
  }

  lemma SameStep(m: Models, s: Merging, f: Folded, vs: seq<Visit>, v: Visit)
    requires SameSoFar(s, f, vs) && MetBefore(vs, v.above, [])
    ensures SameSoFar(Step(m, s, v), Fold1(m, f, v.d), vs + [v])
  {
    ConflictsStay(m, s, v);
    ClassesStay(m, s, [v]);
    StepsOne(m, s, v);
    if f.ok {
      NotLeftOut(s.byDn, vs, v);
      StepFolds(m, s, v);
      assert f == Folded(s.byDn, true);
    } else {
      assert !Fold1(m, f, v.d).ok;
    }
    hide Step, Steps, MetBefore, Fold1;
  }

  lemma {:induction false} StepsFold(m: Models, vs: seq<Visit>)
    requires ParentsFirst(vs, [])
    ensures SameSoFar(Steps(m, START, vs), Fold(m, EMPTY, DeclnsOf(vs)), vs)
  {
    if vs != [] {
      var init, last := vs[..|vs| - 1], vs[|vs| - 1];
      assert vs == init + [last];
      assert DeclnsOf(vs)[..|vs| - 1] == DeclnsOf(init);
      assert ParentsFirst(init, []) by { forall i | 0 <= i < |init| ensures MetBefore(init[..i], init[i].above, []) { assert init[..i] == vs[..i]; } }
      StepsFold(m, init);
      assert MetBefore(init, last.above, []) by { assert vs[..|vs| - 1] == init; }
      hide Step, MetBefore, SameSoFar, Fold1;
      SameStep(m, Steps(m, START, init), Fold(m, EMPTY, DeclnsOf(init)), init, last);
    }
  }

  /** The walk refuses nothing exactly when every declaration fits, and then absorbs them all. */
  lemma MergeFolds(m: Models, designs: seq<Source>)
    ensures var end, folded := Steps(m, START, AllVisits(designs)), Fold(m, EMPTY, AllDeclared(designs));
            (end.conflicts == multiset{} <==> folded.ok) && (folded.ok ==> end.byDn == folded.byDn)
  {
    AllVisitsDeclare(designs);
    AllVisitsParentsFirst(designs);
    StepsFold(m, AllVisits(designs));
  }
}
