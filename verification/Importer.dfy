/** The importer's simulation of scoped lookup on a snapshot (`_Importer.index`, `_scoped_winner`). */
module Importer {
  import opened Text
  import opened Dn
  import opened Naming
  import opened Resolver
  import opened Store

  type Formats = map<string, string>

  type Names = map<string, map<string, seq<string>>>

  function DnsOf(names: Names, cls: string, name: string): seq<string> {
    if cls in names && name in names[cls] then names[cls][name] else []
  }

  /** `rn_format.partition("{")[2].partition("}")[0]`. */
  function FirstPlaceholder(format: string): string {
    var open := Find(format, "{", 0);
    if open < 0 then ""
    else
      var rest := format[open + 1..];
      var close := Find(rest, "}", 0);
      if close < 0 then rest else rest[..close]
  }

  /** The primary naming value of an object, "" when the class is unknown or its RN does not parse. */
  function PrimaryName(formats: Formats, cls: string, rn: string): string {
    if cls !in formats then ""
    else match NamingValues(rn, formats[cls])
         case None => ""
         case Some(values) =>
           var first := FirstPlaceholder(formats[cls]);
           if first in values then values[first] else ""
  }

  predicate IsNamed(formats: Formats, t: Env, cls: string, name: string) {
    t.cls == cls && name != "" && PrimaryName(formats, t.cls, t.rn) == name
  }

  /** The DNs of the objects of a class and primary name in the subtree rooted at `at`, parents first. */
  function NamedIn(formats: Formats, t: Env, at: string, cls: string, name: string): seq<string>
    decreases t, 0
  {
    (if IsNamed(formats, t, cls, name) then [at] else []) + NamedAll(formats, t.children, at, cls, name)
  }

  function NamedAll(formats: Formats, ts: seq<Env>, at: string, cls: string, name: string): seq<string>
    decreases ts
  {
    if ts == [] then []
    else
      assert ts[|ts| - 1] in ts;
      NamedAll(formats, ts[..|ts| - 1], at, cls, name) + NamedIn(formats, ts[|ts| - 1], Child(at, ts[|ts| - 1].rn), cls, name)
  }

  /** What an object and its subtree record under their DNs: class and primary name. */
  function Records(formats: Formats, t: Env, at: string): map<string, (string, string)>
    decreases t, 0
  {
    map[at := (t.cls, PrimaryName(formats, t.cls, t.rn))] + ForestRecords(formats, t.children, at)
  }

  function ForestRecords(formats: Formats, ts: seq<Env>, at: string): map<string, (string, string)>
    decreases ts
  {
    if ts == [] then map[]
    else
      assert ts[|ts| - 1] in ts;
      ForestRecords(formats, ts[..|ts| - 1], at) + Records(formats, ts[|ts| - 1], Child(at, ts[|ts| - 1].rn))
  }

  /** `names.setdefault(cls, {}).setdefault(name, []).append(dn)`. */
  function WithName(names: Names, cls: string, name: string, dn: string): Names {
    var byName := if cls in names then names[cls] else map[];
    names[cls := byName[name := DnsOf(names, cls, name) + [dn]]]
  }

  lemma WithNameGains(names: Names, cls: string, name: string, dn: string)
    ensures forall c, n :: DnsOf(WithName(names, cls, name, dn), c, n) == DnsOf(names, c, n) + if c == cls && n == name then [dn] else []
  {
  }

  /** The lists of every class and name have grown by the objects of the forest, in walk order. */
  ghost predicate GainedAll(formats: Formats, a: Names, ts: seq<Env>, at: string, b: Names) {
    forall c, n :: DnsOf(b, c, n) == DnsOf(a, c, n) + NamedAll(formats, ts, at, c, n)
  }

  lemma GainedNothing(formats: Formats, a: Names, at: string)
    ensures GainedAll(formats, a, [], at, a)
  {
    hide DnsOf;
    forall c, n ensures DnsOf(a, c, n) == DnsOf(a, c, n) + [] {}
  }

  ghost predicate GainedOne(formats: Formats, a: Names, t: Env, at: string, b: Names) {
    forall c, n :: DnsOf(b, c, n) == DnsOf(a, c, n) + NamedIn(formats, t, at, c, n)
  }

  lemma NamedSnoc(formats: Formats, ts: seq<Env>, i: nat, at: string, c: string, n: string)
    requires i < |ts|
    ensures NamedAll(formats, ts[..i + 1], at, c, n) == NamedAll(formats, ts[..i], at, c, n) + NamedIn(formats, ts[i], Child(at, ts[i].rn), c, n)
  {
    assert ts[..i + 1][..i] == ts[..i];
    hide NamedIn;
  }

  lemma GainedSnoc(formats: Formats, a: Names, ts: seq<Env>, i: nat, at: string, mid: Names, b: Names)
    requires i < |ts| && GainedAll(formats, a, ts[..i], at, mid) && GainedOne(formats, mid, ts[i], Child(at, ts[i].rn), b)
    ensures GainedAll(formats, a, ts[..i + 1], at, b)
  {
    hide DnsOf, NamedIn, NamedAll;
    forall c, n ensures DnsOf(b, c, n) == DnsOf(a, c, n) + NamedAll(formats, ts[..i + 1], at, c, n) {
      NamedSnoc(formats, ts, i, at, c, n);
      assert DnsOf(mid, c, n) == DnsOf(a, c, n) + NamedAll(formats, ts[..i], at, c, n);
      assert DnsOf(b, c, n) == DnsOf(mid, c, n) + NamedIn(formats, ts[i], Child(at, ts[i].rn), c, n);
    }
  }

  class Index {
    const formats: Formats
    var names: Names
    var classOf: map<string, string>
    var primary: map<string, string>

    /** Class and primary name of every recorded DN. */
    ghost function Recorded(): map<string, (string, string)>
      reads this
    {
      map dn | dn in classOf && dn in primary :: (classOf[dn], primary[dn])
    }

    ghost predicate Valid()
      reads this
    {
      classOf.Keys == primary.Keys
    }

    constructor (formats: Formats)
      ensures Valid() && this.formats == formats && names == map[] && Recorded() == map[]
    {
      this.formats := formats;
      names, classOf, primary := map[], map[], map[];
    }

    method AddOwn(t: Env, dn: string)
      requires Valid()
      modifies this
      ensures Valid()
      ensures forall c, n :: DnsOf(names, c, n) == DnsOf(old(names), c, n) + if IsNamed(formats, t, c, n) then [dn] else []
      ensures Recorded() == old(Recorded())[dn := (t.cls, PrimaryName(formats, t.cls, t.rn))]
    {
      classOf := classOf[dn := t.cls];
      var name := PrimaryName(formats, t.cls, t.rn);
      primary := primary[dn := name];
      hide PrimaryName, DnsOf;
      if name != "" {
        WithNameGains(names, t.cls, name, dn);
        names := WithName(names, t.cls, name, dn);
      }
    }

    /** Records the object and its subtree by DN, and by class and primary name. */
    method Add(t: Env, dn: string)
      requires Valid()
      modifies this
      ensures Valid()
      ensures GainedOne(formats, old(names), t, dn, names)
      ensures Recorded() == old(Recorded()) + Records(formats, t, dn)
      decreases t, 0
    {
      hide PrimaryName, IsNamed, DnsOf, NamedAll, ForestRecords, Recorded;
      AddOwn(t, dn);
      ghost var own := names;
      AddAll(t.children, dn);
      forall c, n ensures DnsOf(names, c, n) == DnsOf(old(names), c, n) + NamedIn(formats, t, dn, c, n) {
        assert DnsOf(own, c, n) == DnsOf(old(names), c, n) + if IsNamed(formats, t, c, n) then [dn] else [];
      }
    }

    method AddAll(ts: seq<Env>, at: string)
      requires Valid()
      modifies this
      ensures Valid()
      ensures GainedAll(formats, old(names), ts, at, names)
      ensures Recorded() == old(Recorded()) + ForestRecords(formats, ts, at)
      decreases ts
    {
      ghost var start := Recorded();
      hide *;
      GainedNothing(formats, names, at);
      assert ts[..0] == [];
      RecordsNothing(formats, at, start);
      for i := 0 to |ts|
        invariant GainedAll(formats, old(names), ts[..i], at, names)
        invariant Valid() && Recorded() == start + ForestRecords(formats, ts[..i], at)
      {
        ghost var mid := names;
        Add(ts[i], Child(at, ts[i].rn));
        GainedSnoc(formats, old(names), ts, i, at, mid, names);
        RecordsSnoc(formats, ts, i, at, start);
      }
      assert ts[..|ts|] == ts;
    }
  }

  lemma RecordsNothing(formats: Formats, at: string, start: map<string, (string, string)>)
    ensures start == start + ForestRecords(formats, [], at)
  {
  }

  lemma RecordsSnoc(formats: Formats, ts: seq<Env>, i: nat, at: string, start: map<string, (string, string)>)
    requires i < |ts|
    ensures start + ForestRecords(formats, ts[..i], at) + Records(formats, ts[i], Child(at, ts[i].rn)) ==
            start + ForestRecords(formats, ts[..i + 1], at)
  {
    assert ts[..i + 1][..i] == ts[..i];
    hide Records;
  }

  // ---- The scoped winner

  ghost predicate NameCandidate(names: Names, classes: set<string>, name: string, dn: string) {
    exists cls :: cls in classes && dn in DnsOf(names, cls, name)
  }

  function Shared(ownerDn: string, dn: string): nat {
    CommonLen(SplitDn(ownerDn), SplitDn(dn))
  }

  /** The candidate sharing strictly more leading segments with the owner than every other. */
  ghost predicate IsScopedWinner(names: Names, ownerDn: string, classes: set<string>, name: string, w: string) {
    && NameCandidate(names, classes, name, w)
    && forall dn :: NameCandidate(names, classes, name, dn) && dn != w ==> Shared(ownerDn, dn) < Shared(ownerDn, w)
  }

  ghost function ScopedWinner(names: Names, ownerDn: string, classes: set<string>, name: string): Option<string> {
    if w :| IsScopedWinner(names, ownerDn, classes, name, w) then Some(w) else None
  }

  /** Each DN is indexed under one class and name, once. */
  ghost predicate IndexedOnce(names: Names) {
    && (forall c, n, i, j :: 0 <= i < j < |DnsOf(names, c, n)| ==> DnsOf(names, c, n)[i] != DnsOf(names, c, n)[j])
    && (forall c, e, n, m, x :: x in DnsOf(names, c, n) && x in DnsOf(names, e, m) ==> c == e && n == m)
  }

  /** `best` is first among the candidates seen so far, at depth `depth`; `tied` says it is not alone. */
  ghost predicate Leads(ownerDn: string, seen: seq<string>, best: string, depth: nat, tied: bool) {
    && best in seen && Shared(ownerDn, best) == depth
    && (forall dn :: dn in seen ==> Shared(ownerDn, dn) <= depth)
    && (tied <==> exists dn :: dn in seen && dn != best && Shared(ownerDn, dn) == depth)
  }

  lemma LeadsSnoc(ownerDn: string, seen: seq<string>, best: string, depth: nat, tied: bool, dn: string)
    requires Leads(ownerDn, seen, best, depth, tied) && dn !in seen
    ensures Shared(ownerDn, dn) > depth ==> Leads(ownerDn, seen + [dn], dn, Shared(ownerDn, dn), false)
    ensures Shared(ownerDn, dn) == depth ==> Leads(ownerDn, seen + [dn], best, depth, true)
    ensures Shared(ownerDn, dn) < depth ==> Leads(ownerDn, seen + [dn], best, depth, tied)
  {
    hide Shared;
    assert forall x :: x in seen + [dn] <==> x in seen || x == dn;
  }

  method SharedDepth(ownerDn: string, dn: string) returns (depth: nat)
    ensures depth == Shared(ownerDn, dn)
  {
    var ownerSegments := ComputeSplitDn(ownerDn);
    var segments := ComputeSplitDn(dn);
    depth := CommonLen(ownerSegments, segments);
  }

  /** The best candidate and whether another one ties with it: the two first places of the sort. */
  method FirstPlaces(candidates: seq<string>, ownerDn: string) returns (best: string, tied: bool)
    requires candidates != [] && NoRepeat(candidates)
    ensures best in candidates
    ensures forall dn :: dn in candidates ==> Shared(ownerDn, dn) <= Shared(ownerDn, best)
    ensures tied <==> exists dn :: dn in candidates && dn != best && Shared(ownerDn, dn) == Shared(ownerDn, best)
  {
    hide Shared;
    best, tied := candidates[0], false;
    var bestDepth := SharedDepth(ownerDn, best);
    for i := 1 to |candidates|
      invariant Leads(ownerDn, candidates[..i], best, bestDepth, tied)
    {
      var depth := SharedDepth(ownerDn, candidates[i]);
      assert candidates[i] !in candidates[..i];
      LeadsSnoc(ownerDn, candidates[..i], best, bestDepth, tied, candidates[i]);
      assert candidates[..i + 1] == candidates[..i] + [candidates[i]];
      hide Leads;
      if depth > bestDepth {
        best, bestDepth, tied := candidates[i], depth, false;
      } else if depth == bestDepth {
        tied := true;
      }
    }
    assert candidates[..|candidates|] == candidates;
  }

  method ComputeScopedWinner(names: Names, ownerDn: string, classes: set<string>, name: string) returns (r: Option<string>)
    requires IndexedOnce(names)
    ensures r == ScopedWinner(names, ownerDn, classes, name)
  {
    hide Shared, NameCandidate;
    var candidates := CandidateDns(names, classes, name);
    if candidates == [] { return None; }
    var best, tied := FirstPlaces(candidates, ownerDn);
    if tied { return None; }
    assert IsScopedWinner(names, ownerDn, classes, name, best);
    return Some(best);
  }

  method CandidateDns(names: Names, classes: set<string>, name: string) returns (found: seq<string>)
    requires IndexedOnce(names)
    ensures forall dn :: dn in found <==> NameCandidate(names, classes, name, dn)
    ensures NoRepeat(found)
  {
    found := [];
    var todo := classes;
    while todo != {}
      invariant todo <= classes
      invariant forall dn :: dn in found <==> NameCandidate(names, classes - todo, name, dn)
      invariant NoRepeat(found)
      decreases todo
    {
      var cls :| cls in todo;
      ConcatNoRepeat(found, DnsOf(names, cls, name)) by {
        forall x, y | x in found && y in DnsOf(names, cls, name) ensures x != y {
          var c :| c in classes - todo && x in DnsOf(names, c, name);
        }
      }
      found := found + DnsOf(names, cls, name);
      todo := todo - {cls};
      assert classes - todo == classes - (todo + {cls}) + {cls};
    }
  }

  // ---- It agrees with the resolver

  /** Of these classes, the snapshot holds the same named objects as the design. */
  ghost predicate SameNamed(d: Design, names: Names, classes: set<string>) {
    forall c, n, x :: c in classes ==>
      (x in DnsOf(names, c, n) <==> exists p :: p in d && JoinDn(p) == x && d[p].cls == c && d[p].name == n && n != "")
  }

  function ClassSet(sch: Schema, cls: string): set<string> {
    set c | c in TargetClasses(sch, cls)
  }

  ghost predicate RnPaths(d: Design) {
    forall p :: p in d ==> IsPath(p)
  }

  lemma CandidatesCorrespond(sch: Schema, d: Design, names: Names, cls: string, name: string, p: Path)
    requires RnPaths(d) && SameNamed(d, names, ClassSet(sch, cls)) && p in d
    ensures IsCandidate(sch, d, cls, name, p) <==>
            NameCandidate(names, ClassSet(sch, cls), name, JoinDn(p))
  {
    var classes := ClassSet(sch, cls);
    if IsCandidate(sch, d, cls, name, p) {
      assert JoinDn(p) in DnsOf(names, d[p].cls, name);
    }
    if NameCandidate(names, classes, name, JoinDn(p)) {
      var c :| c in classes && JoinDn(p) in DnsOf(names, c, name);
      var q :| q in d && JoinDn(q) == JoinDn(p) && d[q].cls == c && d[q].name == name && name != "";
      PathInjective(p, q);
    }
  }

  lemma CandidateHasPath(d: Design, names: Names, classes: set<string>, name: string, dn: string) returns (p: Path)
    requires SameNamed(d, names, classes) && NameCandidate(names, classes, name, dn)
    ensures p in d && JoinDn(p) == dn
  {
    var c :| c in classes && dn in DnsOf(names, c, name);
    p :| p in d && JoinDn(p) == dn && d[p].cls == c && d[p].name == name && name != "";
  }

  /** Shared leading DN segments count the common ancestors. */
  lemma SharedIsCommonLen(a: Path, b: Path)
    requires IsPath(a) && IsPath(b)
    ensures Shared(JoinDn(a), JoinDn(b)) == CommonLen(a, b)
  {
    PathRoundTrip(a);
    PathRoundTrip(b);
  }

  lemma WinnersCorrespond(sch: Schema, d: Design, names: Names, owner: Path, cls: string, name: string, t: Path)
    requires RnPaths(d) && SameNamed(d, names, ClassSet(sch, cls)) && owner in d && t in d
    ensures IsWinner(sch, d, owner, cls, name, t) <==>
            IsScopedWinner(names, JoinDn(owner), ClassSet(sch, cls), name, JoinDn(t))
  {
    var classes := ClassSet(sch, cls);
    hide SameNamed, NameCandidate, IsCandidate, Shared, CommonLen;
    CandidatesCorrespond(sch, d, names, cls, name, t);
    SharedIsCommonLen(owner, t);
    if IsWinner(sch, d, owner, cls, name, t) {
      forall dn | NameCandidate(names, classes, name, dn) && dn != JoinDn(t)
        ensures Shared(JoinDn(owner), dn) < Shared(JoinDn(owner), JoinDn(t))
      {
        var p := CandidateHasPath(d, names, classes, name, dn);
        CandidatesCorrespond(sch, d, names, cls, name, p);
        SharedIsCommonLen(owner, p);
      }
    }
    if IsScopedWinner(names, JoinDn(owner), classes, name, JoinDn(t)) {
      forall p | IsCandidate(sch, d, cls, name, p) && p != t ensures CommonLen(owner, p) < CommonLen(owner, t) {
        assert p in d by { CandidateDeclared(sch, d, cls, name, p); }
        CandidatesCorrespond(sch, d, names, cls, name, p);
        PathInjective(p, t);
        SharedIsCommonLen(owner, p);
      }
    }
  }

  lemma CandidateDeclared(sch: Schema, d: Design, cls: string, name: string, p: Path)
    requires IsCandidate(sch, d, cls, name, p)
    ensures p in d
  {
  }

  /**
   * On a design and a snapshot with the same named objects, the importer's winner is the DN of the
   * node the resolver picks, and there is none exactly when the lookup raises.
   */
  lemma ScopeSimulationIsLookup(sch: Schema, d: Design, names: Names, owner: Path, cls: string, name: string)
    requires RnPaths(d) && SameNamed(d, names, ClassSet(sch, cls)) && owner in d
    ensures ScopedWinner(names, JoinDn(owner), ClassSet(sch, cls), name) ==
            match LookupTarget(sch, d, owner, cls, name)
            case Found(t) => Some(JoinDn(t))
            case _ => None
  {
    var classes := ClassSet(sch, cls);
    hide IsScopedWinner, IsWinner, SameNamed, IsCandidate;
    match LookupTarget(sch, d, owner, cls, name)
    case Found(t) =>
      WinnerIsFound(sch, d, owner, cls, name, t);
      assert t in d by { WinnerDeclared(sch, d, owner, cls, name, t); }
      WinnersCorrespond(sch, d, names, owner, cls, name, t);
      OneScopedWinner(names, JoinDn(owner), classes, name, JoinDn(t));
    case _ =>
      forall w ensures !IsScopedWinner(names, JoinDn(owner), classes, name, w) {
        if IsScopedWinner(names, JoinDn(owner), classes, name, w) {
          var p := WinnerHasPath(d, names, JoinDn(owner), classes, name, w);
          WinnersCorrespond(sch, d, names, owner, cls, name, p);
          WinnerIsFound(sch, d, owner, cls, name, p);
        }
      }
  }

  lemma WinnerDeclared(sch: Schema, d: Design, owner: Path, cls: string, name: string, t: Path)
    requires IsWinner(sch, d, owner, cls, name, t)
    ensures t in d
  {
  }

  lemma WinnerHasPath(d: Design, names: Names, ownerDn: string, classes: set<string>, name: string, w: string) returns (p: Path)
    requires SameNamed(d, names, classes) && IsScopedWinner(names, ownerDn, classes, name, w)
    ensures p in d && JoinDn(p) == w
  {
    p := CandidateHasPath(d, names, classes, name, w);
  }

  lemma OneScopedWinner(names: Names, ownerDn: string, classes: set<string>, name: string, w: string)
    requires IsScopedWinner(names, ownerDn, classes, name, w)
    ensures ScopedWinner(names, ownerDn, classes, name) == Some(w)
  {
  }

  // ---- The DN branch of re-expressing a relationship

  /** A curated bind: the class it names, the classes its relation may point at, whether `bind_dn` takes it. */
  datatype BindAlias = BindAlias(alias: string, targetCls: string, rsTargets: set<string>, flavor: Flavor, dnSafe: bool)

  datatype Choice = ByBind(alias: string, targetCls: string, name: string) | ByBindDn(alias: string) | NoBind

  /** The aliases of the relation's flavour whose relation may point at this class. */
  function Hits(aliases: seq<BindAlias>, cls: string): seq<BindAlias> {
    if aliases == [] then []
    else Hits(aliases[..|aliases| - 1], cls) +
         var a := aliases[|aliases| - 1];
         if a.flavor == ByDn && cls in a.rsTargets then [a] else []
  }

  function DnSafe(aliases: seq<BindAlias>): seq<string> {
    if aliases == [] then []
    else DnSafe(aliases[..|aliases| - 1]) +
         var a := aliases[|aliases| - 1];
         if a.flavor == ByDn && a.dnSafe then [a.alias] else []
  }

  /** `_try_bind` on a relation that targets by DN: the closed-world bind when it is provably the same. */
  ghost function TryBindDn(sch: Schema, names: Names, classOf: map<string, string>, primary: map<string, string>,
                           parentDn: string, target: string, aliases: seq<BindAlias>): Choice {
    var hits := if target in classOf then Hits(aliases, classOf[target]) else [];
    var name := if target in primary then primary[target] else "";
    if |hits| == 1 && name != "" && ScopedWinner(names, parentDn, ClassSet(sch, hits[0].targetCls), name) == Some(target) then
      ByBind(hits[0].alias, hits[0].targetCls, name)
    else if DnSafe(aliases) == [] then NoBind
    else ByBindDn(SortedStrings(DnSafe(aliases))[0])
  }

  lemma SortedKeepsSome(names: seq<string>)
    requires names != []
    ensures SortedStrings(names) != [] && SortedStrings(names)[0] in names
  {
    var r := SortedStrings(names);
    assert names[0] in multiset(r);
    assert r[0] in multiset(names);
  }

  lemma {:induction false} HitsMember(aliases: seq<BindAlias>, cls: string)
    ensures forall a :: a in Hits(aliases, cls) ==> a in aliases
  {
    if aliases != [] {
      HitsMember(aliases[..|aliases| - 1], cls);
      assert aliases == aliases[..|aliases| - 1] + [aliases[|aliases| - 1]];
    }
  }

  lemma {:induction false} DnSafeMember(aliases: seq<BindAlias>, alias: string)
    requires alias in DnSafe(aliases)
    ensures exists a :: a in aliases && a.alias == alias && a.flavor == ByDn && a.dnSafe
  {
    var init, last := aliases[..|aliases| - 1], aliases[|aliases| - 1];
    assert aliases == init + [last];
    if alias in DnSafe(init) {
      DnSafeMember(init, alias);
      var a :| a in init && a.alias == alias && a.flavor == ByDn && a.dnSafe;
      assert a in aliases;
    } else {
      assert last in aliases;
    }
  }

  /**
   * A relationship re-expressed as a closed-world bind resolves to the very object it pointed at, and
   * one re-expressed as a raw DN uses an alias that may carry one.
   */
  lemma TryBindIsSafe(sch: Schema, d: Design, names: Names, classOf: map<string, string>, primary: map<string, string>,
                      owner: Path, target: string, aliases: seq<BindAlias>)
    requires RnPaths(d) && owner in d && forall a :: a in aliases ==> SameNamed(d, names, ClassSet(sch, a.targetCls))
    ensures match TryBindDn(sch, names, classOf, primary, JoinDn(owner), target, aliases)
            case ByBind(alias, cls, name) =>
              LookupTarget(sch, d, owner, cls, name).Found? && JoinDn(LookupTarget(sch, d, owner, cls, name).target) == target
            case ByBindDn(alias) => exists a :: a in aliases && a.alias == alias && a.flavor == ByDn && a.dnSafe
            case NoBind => true
  {
    hide LookupTarget, ScopedWinner, SameNamed, Hits, DnSafe;
    match TryBindDn(sch, names, classOf, primary, JoinDn(owner), target, aliases)
    case ByBind(alias, cls, name) =>
      HitsMember(aliases, classOf[target]);
      ScopeSimulationIsLookup(sch, d, names, owner, cls, name);
    case ByBindDn(alias) =>
      SortedKeepsSome(DnSafe(aliases));
      DnSafeMember(aliases, alias);
    case NoBind =>
  }

  /** The one alias of the DN flavour whose relation may point at this class. */
  ghost predicate OnlyAlias(aliases: seq<BindAlias>, cls: string, i: nat) {
    && i < |aliases| && aliases[i].flavor == ByDn && cls in aliases[i].rsTargets
    && forall j :: 0 <= j < |aliases| && aliases[j].flavor == ByDn && cls in aliases[j].rsTargets ==> j == i
  }

  lemma {:induction false} HitsIff(aliases: seq<BindAlias>, cls: string)
    ensures forall a :: a in Hits(aliases, cls) <==> a in aliases && a.flavor == ByDn && cls in a.rsTargets
    ensures forall i: nat :: OnlyAlias(aliases, cls, i) ==> Hits(aliases, cls) == [aliases[i]]
    ensures |Hits(aliases, cls)| == 1 ==> exists i: nat :: OnlyAlias(aliases, cls, i)
  {
    if aliases != [] {
      var init, last := aliases[..|aliases| - 1], aliases[|aliases| - 1];
      assert aliases == init + [last];
      HitsIff(init, cls);
      hide Hits;
      var before, all := Hits(init, cls), Hits(aliases, cls);
      var hit := last.flavor == ByDn && cls in last.rsTargets;
      assert all == before + if hit then [last] else [] by { HitsSnoc(aliases, cls); }
      if hit && before == [] {
        forall j | 0 <= j < |init| ensures !(init[j].flavor == ByDn && cls in init[j].rsTargets) { assert init[j] in init && init[j] !in before; }
        assert OnlyAlias(aliases, cls, |init|);
      }
      if !hit && |before| == 1 {
        var i: nat :| OnlyAlias(init, cls, i);
        assert OnlyAlias(aliases, cls, i);
      }
      forall i: nat | OnlyAlias(aliases, cls, i) ensures all == [aliases[i]] {
        if i < |init| {
          assert OnlyAlias(init, cls, i);
        } else {
          assert before == [] by { if before != [] { SomeHit(init, cls, before[0]); } }
        }
      }
    }
  }

  lemma HitsSnoc(aliases: seq<BindAlias>, cls: string)
    requires aliases != []
    ensures var last := aliases[|aliases| - 1];
            Hits(aliases, cls) == Hits(aliases[..|aliases| - 1], cls) + if last.flavor == ByDn && cls in last.rsTargets then [last] else []
  {
  }

  lemma SomeHit(aliases: seq<BindAlias>, cls: string, a: BindAlias)
    requires a in aliases && a.flavor == ByDn && cls in a.rsTargets
    ensures exists j :: 0 <= j < |aliases| && aliases[j].flavor == ByDn && cls in aliases[j].rsTargets
  {
  }

  lemma {:induction false} DnSafeIff(aliases: seq<BindAlias>, alias: string)
    ensures alias in DnSafe(aliases) <==> exists a :: a in aliases && a.alias == alias && a.flavor == ByDn && a.dnSafe
  {
    if aliases != [] {
      var init, last := aliases[..|aliases| - 1], aliases[|aliases| - 1];
      DnSafeIff(init, alias);
      assert forall a :: a in aliases <==> a in init || a == last by { assert aliases == init + [last]; }
    }
  }

  /** The alias through which the looked-up object is the one pointed at. */
  ghost predicate BindsTo(sch: Schema, names: Names, classOf: map<string, string>, primary: map<string, string>,
                          parentDn: string, target: string, aliases: seq<BindAlias>, i: nat) {
    && target in classOf && OnlyAlias(aliases, classOf[target], i)
    && target in primary && primary[target] != ""
    && IsScopedWinner(names, parentDn, ClassSet(sch, aliases[i].targetCls), primary[target], target)
  }

  /** An alias that may carry a DN, the first of those by name. */
  ghost predicate FirstSafe(aliases: seq<BindAlias>, alias: string) {
    && (exists a :: a in aliases && a.alias == alias && a.flavor == ByDn && a.dnSafe)
    && forall a :: a in aliases && a.flavor == ByDn && a.dnSafe ==> LexLe(alias, a.alias)
  }

  lemma FirstSafeIs(aliases: seq<BindAlias>)
    ensures DnSafe(aliases) == [] <==> forall a :: a in aliases ==> !(a.flavor == ByDn && a.dnSafe)
    ensures DnSafe(aliases) != [] ==> SortedStrings(DnSafe(aliases)) != []
    ensures DnSafe(aliases) != [] ==> forall x :: FirstSafe(aliases, x) <==> x == SortedStrings(DnSafe(aliases))[0]
  {
    var safe := DnSafe(aliases);
    forall x ensures x in safe <==> exists a :: a in aliases && a.alias == x && a.flavor == ByDn && a.dnSafe { DnSafeIff(aliases, x); }
    hide DnSafe, SortedStrings, LexLe;
    assert safe != [] ==> safe[0] in safe;
    if safe != [] {
      SortedLeast(safe);
      var least := SortedStrings(safe)[0];
      forall x ensures FirstSafe(aliases, x) <==> x == least { LexTotal(x, least); }
    }
  }

  lemma SortedLeast(names: seq<string>)
    requires names != []
    ensures SortedStrings(names) != [] && SortedStrings(names)[0] in names
    ensures forall x :: x in names ==> LexLe(SortedStrings(names)[0], x)
  {
    var sorted := SortedStrings(names);
    SortedKeepsSome(names);
    hide SortedStrings, LexLe;
    forall x | x in names ensures LexLe(sorted[0], x) {
      assert x in multiset(sorted);
      var k :| 0 <= k < |sorted| && sorted[k] == x;
      LexTotal(x, x);
    }
  }

  /**
   * A relationship that targets by DN becomes a bind exactly when one alias, and only one, may point at the
   * class of its target and the lookup of the target's name under that alias finds the target; otherwise
   * it carries the DN through the first alias that may, and is left alone when none may.
   */
  lemma TryBindIsExact(sch: Schema, names: Names, classOf: map<string, string>, primary: map<string, string>,
                       parentDn: string, target: string, aliases: seq<BindAlias>)
    ensures var c := TryBindDn(sch, names, classOf, primary, parentDn, target, aliases);
            var direct := exists i: nat :: BindsTo(sch, names, classOf, primary, parentDn, target, aliases, i);
            && (forall i: nat :: BindsTo(sch, names, classOf, primary, parentDn, target, aliases, i) ==>
                  c == ByBind(aliases[i].alias, aliases[i].targetCls, primary[target]))
            && (c.ByBind? <==> direct)
            && (forall alias :: c == ByBindDn(alias) <==> !direct && FirstSafe(aliases, alias))
            && (c.NoBind? <==> !direct && forall a :: a in aliases ==> !(a.flavor == ByDn && a.dnSafe))
  {
    FirstSafeIs(aliases);
    if target in classOf { HitsIff(aliases, classOf[target]); }
    forall i: nat ensures target in primary && i < |aliases| ==>
      (IsScopedWinner(names, parentDn, ClassSet(sch, aliases[i].targetCls), primary[target], target) <==>
       ScopedWinner(names, parentDn, ClassSet(sch, aliases[i].targetCls), primary[target]) == Some(target)) {
      if target in primary && i < |aliases| { WinnerIs(names, parentDn, ClassSet(sch, aliases[i].targetCls), primary[target], target); }
    }
    hide Hits, DnSafe, FirstSafe, IsScopedWinner, ScopedWinner, ClassSet, OnlyAlias;
    OnlyAliasIndex(aliases);
  }

  lemma OnlyAliasIndex(aliases: seq<BindAlias>)
    ensures forall cls, i: nat :: OnlyAlias(aliases, cls, i) ==> i < |aliases|
  {
  }

  lemma WinnerIs(names: Names, ownerDn: string, classes: set<string>, name: string, w: string)
    ensures IsScopedWinner(names, ownerDn, classes, name, w) <==> ScopedWinner(names, ownerDn, classes, name) == Some(w)
  {
    hide Shared, NameCandidate;
  }

  // ---- The name branch

  /** The alias is of the name flavour, and its name resolves in the snapshot. */
  ghost predicate NameResolves(sch: Schema, names: Names, parentDn: string, target: string, a: BindAlias) {
    a.flavor == ByName && ScopedWinner(names, parentDn, ClassSet(sch, a.targetCls), target).Some?
  }

  /** The places of the aliases that resolve, in order. */
  ghost function NameHits(sch: Schema, names: Names, parentDn: string, target: string, aliases: seq<BindAlias>): (r: seq<nat>)
    ensures forall i :: i in r <==> 0 <= i < |aliases| && NameResolves(sch, names, parentDn, target, aliases[i])
  {
    if aliases == [] then []
    else
      var init, last := aliases[..|aliases| - 1], aliases[|aliases| - 1];
      assert forall i :: 0 <= i < |init| ==> init[i] == aliases[i];
      NameHits(sch, names, parentDn, target, init) + if NameResolves(sch, names, parentDn, target, last) then [|init|] else []
  }

  ghost predicate Ascends(r: seq<nat>) {
    forall j, k :: 0 <= j < k < |r| ==> r[j] < r[k]
  }

  lemma AscendsSnoc(r: seq<nat>, n: nat)
    requires Ascends(r) && forall i :: i in r ==> i < n
    ensures Ascends(r + [n])
  {
    assert forall k :: 0 <= k < |r| ==> r[k] in r;
  }

  lemma {:induction false} NameHitsAscend(sch: Schema, names: Names, parentDn: string, target: string, aliases: seq<BindAlias>)
    ensures Ascends(NameHits(sch, names, parentDn, target, aliases))
  {
    if aliases != [] {
      var init := aliases[..|aliases| - 1];
      var before := NameHits(sch, names, parentDn, target, init);
      NameHitsAscend(sch, names, parentDn, target, init);
      AscendsSnoc(before, |init|);
      hide NameResolves, Ascends;
    }
  }

  /** `_try_bind` on a relation that targets by name: the one alias whose expansion resolves the name. */
  ghost function TryBindName(sch: Schema, names: Names, parentDn: string, target: string, aliases: seq<BindAlias>): Choice {
    var hits := NameHits(sch, names, parentDn, target, aliases);
    if |hits| != 1 then NoBind
    else
      assert hits[0] in hits;
      ByBind(aliases[hits[0]].alias, aliases[hits[0]].targetCls, target)
  }

  ghost predicate OnlyHit(sch: Schema, names: Names, parentDn: string, target: string, aliases: seq<BindAlias>, i: nat) {
    && i < |aliases| && NameResolves(sch, names, parentDn, target, aliases[i])
    && forall j: nat :: j < |aliases| && NameResolves(sch, names, parentDn, target, aliases[j]) ==> j == i
  }

  lemma AllOne(r: seq<nat>, i: nat)
    requires i in r && (forall k :: 0 <= k < |r| ==> r[k] == i) && Ascends(r)
    ensures r == [i]
  {
    FirstTwo(r);
  }

  lemma FirstTwo(r: seq<nat>)
    requires Ascends(r)
    ensures |r| > 1 ==> r[0] < r[1]
  {
  }

  lemma OneHitIff(sch: Schema, names: Names, parentDn: string, target: string, aliases: seq<BindAlias>, i: nat)
    ensures OnlyHit(sch, names, parentDn, target, aliases, i) <==> NameHits(sch, names, parentDn, target, aliases) == [i]
  {
    var hits := NameHits(sch, names, parentDn, target, aliases);
    NameHitsAscend(sch, names, parentDn, target, aliases);
    hide NameResolves, NameHits;
    if hits == [i] {
      assert i in hits;
      forall j: nat | j < |aliases| && NameResolves(sch, names, parentDn, target, aliases[j]) ensures j == i { assert j in hits; }
    }
    if OnlyHit(sch, names, parentDn, target, aliases, i) {
      assert i in hits;
      forall k | 0 <= k < |hits| ensures hits[k] == i { assert hits[k] in hits; }
      AllOne(hits, i);
    }
  }

  /**
   * A relationship that stores a name is re-expressed as a closed-world bind exactly when one alias, and
   * only one, resolves that name from the same object; the bind it becomes resolves.
   */
  lemma TryBindNameIsSafe(sch: Schema, d: Design, names: Names, owner: Path, target: string, aliases: seq<BindAlias>)
    requires RnPaths(d) && owner in d && forall a :: a in aliases ==> SameNamed(d, names, ClassSet(sch, a.targetCls))
    ensures TryBindName(sch, names, JoinDn(owner), target, aliases).ByBind? <==>
            exists i :: OnlyHit(sch, names, JoinDn(owner), target, aliases, i)
    ensures forall i: nat :: OnlyHit(sch, names, JoinDn(owner), target, aliases, i) ==>
              TryBindName(sch, names, JoinDn(owner), target, aliases) == ByBind(aliases[i].alias, aliases[i].targetCls, target) &&
              LookupTarget(sch, d, owner, aliases[i].targetCls, target).Found?
  {
    var hits := NameHits(sch, names, JoinDn(owner), target, aliases);
    hide LookupTarget, ScopedWinner, SameNamed, NameHits;
    if |hits| == 1 {
      assert hits == [hits[0]];
      OneHitIff(sch, names, JoinDn(owner), target, aliases, hits[0]);
    }
    forall i: nat | OnlyHit(sch, names, JoinDn(owner), target, aliases, i)
      ensures hits == [i] && LookupTarget(sch, d, owner, aliases[i].targetCls, target).Found?
    {
      OneHitIff(sch, names, JoinDn(owner), target, aliases, i);
      ScopeSimulationIsLookup(sch, d, names, owner, aliases[i].targetCls, target);
    }
  }

  // ---- The name an object is indexed under

  lemma {:induction false} FirstPlaceholderOf(tokens: seq<Token>)
    requires Normal(tokens) && PropNames(tokens) != []
    ensures FirstPlaceholder(Render(tokens)) == PropNames(tokens)[0]
  {
    hide FirstPlaceholder;
    if tokens[0].Prop? {
      NamedFirst(tokens[0].name, Render(tokens[1..]));
    } else {
      var rest := tokens[1..];
      assert Normal(rest) && rest[0] == tokens[1];
      FirstPlaceholderOf(rest);
      AfterLiteral(tokens[0].text, Render(rest));
    }
  }

  lemma NamedFirst(name: string, rest: string)
    requires '}' !in name
    ensures FirstPlaceholder("{" + name + "}" + rest) == name
  {
    hide Find;
    var format := "{" + name + "}" + rest;
    FindBrace(name, rest);
    OpensAtZero(format);
    FindShift(format, "}", 1, 0);
    BraceAfterOpen(format);
    assert format[1..] == name + "}" + rest;
  }

  lemma AfterLiteral(text: string, rest: string)
    requires '{' !in text && rest != "" && rest[0] == '{'
    ensures FirstPlaceholder(text + rest) == FirstPlaceholder(rest)
  {
    hide Find;
    OpenAfterLiteral(text, rest);
    OpensAtZero(rest);
    assert (text + rest)[|text| + 1..] == rest[1..];
  }

  lemma OpensAtZero(format: string)
    requires format != "" && format[0] == '{'
    ensures Find(format, "{", 0) == 0
  {
    assert format[0..1] == "{";
  }

  lemma BraceAfterOpen(format: string)
    requires format != "" && format[0] == '{'
    ensures Find(format, "}", 0) == Find(format, "}", 1)
  {
    assert format[0..1] == "{";
  }

  lemma {:induction false} OpenAfterLiteral(text: string, rest: string)
    requires '{' !in text && rest != "" && rest[0] == '{'
    ensures Find(text + rest, "{", 0) == |text|
  {
    OpenFrom(text, rest, 0);
  }

  lemma {:induction false} OpenFrom(text: string, rest: string, at: nat)
    requires '{' !in text && rest != "" && rest[0] == '{' && at <= |text|
    ensures Find(text + rest, "{", at) == |text|
    decreases |text| - at
  {
    assert (text + rest)[at..at + 1] == [(text + rest)[at]];
    if at < |text| {
      assert (text + rest)[at] == text[at];
      OpenFrom(text, rest, at + 1);
    }
  }

  /** An object printed from clean values is indexed under the value of its first placeholder. */
  lemma PrimaryNameIsFirstValue(formats: Formats, cls: string, tokens: seq<Token>, values: seq<string>)
    requires cls in formats && formats[cls] == Render(tokens) && Normal(tokens)
    requires Delimited(tokens) && |values| == |PropNames(tokens)| && values != []
    requires tokens[0..] == tokens && Clean(tokens, 0, values) && Distinct(PropNames(tokens))
    ensures PrimaryName(formats, cls, Fill(tokens, values)) == values[0]
  {
    RenderTokenizes(tokens, "");
    assert LitToken("") + tokens == tokens;
    FillThenMatch(tokens, values);
    AsDictLookup(PropNames(tokens), values);
    FirstPlaceholderOf(tokens);
    hide Render, PropNames, MatchFrom, Fill, AsDict, FirstPlaceholder, Clean, TokenizeFrom;
    assert Tokenize(formats[cls]) == Some(tokens);
    assert NamingValues(Fill(tokens, values), formats[cls]) == Some(AsDict(PropNames(tokens), values));
  }
}
