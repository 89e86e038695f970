/** What the fabric carries beyond the design (`_reconcile.py`, `_reconcile_against`). */
module Reconcile {
  import opened Text
  import opened Dn
  import opened Store
  import opened Rebuild

  datatype Rules = Rules(declared: set<string>, never: set<string>)

  datatype Status = Declared | Implicit | Extra

  datatype Step = Step(dn: string, cls: string)

  function StatusOf(rules: Rules, s: Step): Status {
    if s.dn in rules.declared then Declared else if s.cls in rules.never then Implicit else Extra
  }

  // ---- Lines: the objects from the top of a tree down to one of its members

  ghost predicate IsLine(t: Env, dn: string, line: seq<Step>)
    decreases |line|, 0
  {
    && line != [] && line[0] == Step(dn, t.cls)
    && (|line| > 1 ==> SomeLine(t.children, dn, line[1..]))
  }

  ghost predicate SomeLine(ts: seq<Env>, at: string, line: seq<Step>)
    decreases |line|, 1
  {
    exists i :: 0 <= i < |ts| && IsLine(ts[i], Child(at, ts[i].rn), line)
  }

  ghost predicate Has(rules: Rules, line: seq<Step>, status: Status, lo: int, hi: int) {
    exists k :: 0 <= k < |line| && lo <= k < hi && StatusOf(rules, line[k]) == status
  }

  /**
   * The last object of the line is an orphan root: extra, and between it and every extra above it the
   * design declares something; `owned` says whether what is above the line is the design's.
   */
  ghost predicate Orphan(rules: Rules, owned: bool, line: seq<Step>) {
    var n := |line| - 1;
    && line != [] && StatusOf(rules, line[n]) == Extra
    && (forall e :: 0 <= e < n && StatusOf(rules, line[e]) == Extra ==> Has(rules, line, Declared, e + 1, n))
    && (owned || Has(rules, line, Declared, 0, n))
  }

  /** Whether the children of an object belong to the design. */
  predicate ChildOwned(rules: Rules, s: Step, owned: bool) {
    StatusOf(rules, s) == Declared || (StatusOf(rules, s) == Implicit && owned)
  }

  lemma HasTail(rules: Rules, line: seq<Step>, status: Status, lo: nat, hi: nat)
    requires line != []
    ensures Has(rules, line[1..], status, lo, hi) <==> Has(rules, line, status, lo + 1, hi + 1)
  {
    var tail := line[1..];
    if Has(rules, tail, status, lo, hi) {
      var k :| 0 <= k < |tail| && lo <= k < hi && StatusOf(rules, tail[k]) == status;
      assert line[k + 1] == tail[k];
    }
    if Has(rules, line, status, lo + 1, hi + 1) {
      var k :| 0 <= k < |line| && lo + 1 <= k < hi + 1 && StatusOf(rules, line[k]) == status;
      assert tail[k - 1] == line[k];
    }
  }

  lemma HasFrom(rules: Rules, line: seq<Step>, status: Status, hi: nat)
    requires line != [] && hi > 0
    ensures Has(rules, line, status, 0, hi) <==> StatusOf(rules, line[0]) == status || Has(rules, line, status, 1, hi)
  {
  }

  /** The ownership flag carries exactly what the objects above say about the line. */
  lemma OrphanStep(rules: Rules, owned: bool, line: seq<Step>)
    requires |line| > 1
    ensures Orphan(rules, owned, line) <==> Orphan(rules, ChildOwned(rules, line[0], owned), line[1..])
  {
    var tail, n := line[1..], |line| - 1;
    assert tail[n - 1] == line[n];
    HasTail(rules, line, Declared, 0, n - 1);
    HasFrom(rules, line, Declared, n);
    forall e | 0 <= e < n - 1
      ensures Has(rules, tail, Declared, e + 1, n - 1) <==> Has(rules, line, Declared, e + 2, n)
      ensures tail[e] == line[e + 1]
    {
      HasTail(rules, line, Declared, e + 1, n - 1);
    }
    hide Has, StatusOf;
    if Orphan(rules, owned, line) {
      forall e | 0 <= e < n - 1 && StatusOf(rules, tail[e]) == Extra ensures Has(rules, tail, Declared, e + 1, n - 1) {
        assert StatusOf(rules, line[e + 1]) == Extra;
      }
    }
    if Orphan(rules, ChildOwned(rules, line[0], owned), tail) {
      forall e | 0 <= e < n && StatusOf(rules, line[e]) == Extra ensures Has(rules, line, Declared, e + 1, n) {
        if e > 0 { assert StatusOf(rules, tail[e - 1]) == Extra; }
      }
    }
  }

  // ---- The walk

  function Of(rules: Rules, ws: seq<Write>, status: Status): seq<Step> {
    if ws == [] then []
    else
      var s := Step(ws[|ws| - 1].dn, ws[|ws| - 1].cls);
      Of(rules, ws[..|ws| - 1], status) + (if StatusOf(rules, s) == status then [s] else [])
  }

  lemma {:induction false} OfMember(rules: Rules, ws: seq<Write>, status: Status, s: Step)
    ensures s in Of(rules, ws, status) <==> StatusOf(rules, s) == status && exists w :: w in ws && s == Step(w.dn, w.cls)
  {
    hide StatusOf;
    if ws != [] {
      OfMember(rules, ws[..|ws| - 1], status, s);
      assert ws == ws[..|ws| - 1] + [ws[|ws| - 1]];
    }
  }

  lemma {:induction false} OfConcat(rules: Rules, a: seq<Write>, b: seq<Write>, status: Status)
    ensures Of(rules, a + b, status) == Of(rules, a, status) + Of(rules, b, status)
  {
    hide StatusOf;
    if b == [] {
      assert a + b == a;
    } else {
      var init := b[..|b| - 1];
      OfConcat(rules, a, init, status);
      assert (a + b)[..|a + b| - 1] == a + init;
    }
  }

  lemma OfFlat(rules: Rules, t: Env, dn: string, status: Status)
    ensures var s := Step(dn, t.cls);
            Of(rules, Flat(t, dn), status) ==
            (if StatusOf(rules, s) == status then [s] else []) + Of(rules, WritesAll(t.children, dn), status)
  {
    var top := Write(dn, t.cls, t.attrs);
    OfConcat(rules, [top], WritesAll(t.children, dn), status);
    assert [top][..0] == [];
  }

  /** An orphan root among the trees `ts` hanging from `at`. */
  ghost predicate OrphanIn(rules: Rules, owned: bool, ts: seq<Env>, at: string, dn: string) {
    exists line: seq<Step> :: SomeLine(ts, at, line) && Orphan(rules, owned, line) && line[|line| - 1].dn == dn
  }

  ghost predicate OrphanAt(rules: Rules, owned: bool, t: Env, at: string, dn: string) {
    exists line: seq<Step> :: IsLine(t, at, line) && Orphan(rules, owned, line) && line[|line| - 1].dn == dn
  }

  lemma OrphanHere(rules: Rules, owned: bool, t: Env, at: string, dn: string)
    ensures var s := Step(at, t.cls);
            OrphanAt(rules, owned, t, at, dn) <==>
            (dn == at && StatusOf(rules, s) == Extra && owned) ||
            OrphanIn(rules, ChildOwned(rules, s, owned), t.children, at, dn)
  {
    var s := Step(at, t.cls);
    if OrphanAt(rules, owned, t, at, dn) {
      var line: seq<Step> :| IsLine(t, at, line) && Orphan(rules, owned, line) && line[|line| - 1].dn == dn;
      if |line| > 1 {
        OrphanStep(rules, owned, line);
        assert SomeLine(t.children, at, line[1..]);
      }
    }
    if dn == at && StatusOf(rules, s) == Extra && owned {
      assert IsLine(t, at, [s]);
    }
    if OrphanIn(rules, ChildOwned(rules, s, owned), t.children, at, dn) {
      var tail: seq<Step> :| SomeLine(t.children, at, tail) && Orphan(rules, ChildOwned(rules, s, owned), tail) && tail[|tail| - 1].dn == dn;
      var line := [s] + tail;
      assert line[1..] == tail;
      OrphanStep(rules, owned, line);
      assert IsLine(t, at, line);
    }
  }

  lemma OrphanInSnoc(rules: Rules, owned: bool, ts: seq<Env>, at: string, t: Env, dn: string)
    ensures OrphanIn(rules, owned, ts + [t], at, dn) <==>
            OrphanIn(rules, owned, ts, at, dn) || OrphanAt(rules, owned, t, Child(at, t.rn), dn)
  {
    hide IsLine, Orphan;
    forall line ensures SomeLine(ts + [t], at, line) <==> SomeLine(ts, at, line) || IsLine(t, Child(at, t.rn), line) {
      var all := ts + [t];
      assert all[|ts|] == t;
      if i :| 0 <= i < |ts| && IsLine(ts[i], Child(at, ts[i].rn), line) { assert all[i] == ts[i]; }
      if i :| 0 <= i < |all| && IsLine(all[i], Child(at, all[i].rn), line) { if i < |ts| { assert all[i] == ts[i]; } }
    }
  }

  datatype Lists = Lists(extra: seq<Step>, implicit: seq<Step>, orphans: seq<string>)

  /** What walking the trees `ts` adds to the lists. */
  ghost predicate Walked(rules: Rules, owned: bool, ts: seq<Env>, at: string, before: Lists, after: Lists) {
    && after.extra == before.extra + Of(rules, WritesAll(ts, at), Extra)
    && after.implicit == before.implicit + Of(rules, WritesAll(ts, at), Implicit)
    && forall x :: x in after.orphans <==> x in before.orphans || OrphanIn(rules, owned, ts, at, x)
  }

  lemma NothingWalked(rules: Rules, owned: bool, at: string, lists: Lists)
    ensures Walked(rules, owned, [], at, lists, lists)
  {
    assert forall line :: !SomeLine([], at, line);
  }

  lemma WalkedSnoc(rules: Rules, owned: bool, ts: seq<Env>, at: string, t: Env, a: Lists, b: Lists, c: Lists)
    requires at != "" && Walked(rules, owned, ts, at, a, b)
    requires var ws := Flat(t, Child(at, t.rn));
             c.extra == b.extra + Of(rules, ws, Extra) && c.implicit == b.implicit + Of(rules, ws, Implicit)
    requires forall x :: x in c.orphans <==> x in b.orphans || OrphanAt(rules, owned, t, Child(at, t.rn), x)
    ensures Walked(rules, owned, ts + [t], at, a, c)
  {
    hide Of, OrphanAt, OrphanIn;
    var all, dn := ts + [t], Child(at, t.rn);
    WritesAllSnoc(all, |ts|, at);
    assert all[..|ts|] == ts && all[..|all|] == all;
    assert Writes(t, at) == Flat(t, dn);
    hide WritesAll, Flat;
    OfConcat(rules, WritesAll(ts, at), Flat(t, dn), Extra);
    OfConcat(rules, WritesAll(ts, at), Flat(t, dn), Implicit);
    forall x { OrphanInSnoc(rules, owned, ts, at, t, x); }
  }

  /** The three lists of the report, in walk order. */
  class Report {
    var extra: seq<Step>
    var implicit: seq<Step>
    var orphans: seq<string>

    constructor ()
      ensures extra == [] && implicit == [] && orphans == []
    {
      extra, implicit, orphans := [], [], [];
    }

    method Own(rules: Rules, s: Step, owned: bool)
      modifies this
      ensures extra == old(extra) + (if StatusOf(rules, s) == Extra then [s] else [])
      ensures implicit == old(implicit) + (if StatusOf(rules, s) == Implicit then [s] else [])
      ensures orphans == old(orphans) + (if StatusOf(rules, s) == Extra && owned then [s.dn] else [])
    {
      if s.dn !in rules.declared {
        if s.cls in rules.never {
          implicit := implicit + [s];
        } else {
          extra := extra + [s];
          if owned { orphans := orphans + [s.dn]; }
        }
      }
    }

    /** `_walk`. */
    method Walk(rules: Rules, t: Env, dn: string, owned: bool)
      requires dn != ""
      modifies this
      ensures extra == old(extra) + Of(rules, Flat(t, dn), Extra)
      ensures implicit == old(implicit) + Of(rules, Flat(t, dn), Implicit)
      ensures forall x :: x in orphans <==> x in old(orphans) || OrphanAt(rules, owned, t, dn, x)
      decreases t, 0
    {
      hide Of, StatusOf, OrphanAt, OrphanIn, Flat;
      var s := Step(dn, t.cls);
      OfFlat(rules, t, dn, Extra);
      OfFlat(rules, t, dn, Implicit);
      Own(rules, s, owned);
      WalkAll(rules, t.children, dn, ChildOwned(rules, s, owned));
      forall x { OrphanHere(rules, owned, t, dn, x); }
    }

    method WalkAll(rules: Rules, ts: seq<Env>, at: string, owned: bool)
      requires at != ""
      modifies this
      ensures extra == old(extra) + Of(rules, WritesAll(ts, at), Extra)
      ensures implicit == old(implicit) + Of(rules, WritesAll(ts, at), Implicit)
      ensures forall x :: x in orphans <==> x in old(orphans) || OrphanIn(rules, owned, ts, at, x)
      decreases ts
    {
      NothingWalked(rules, owned, at, old(View()));
      assert ts[..0] == [];
      for i := 0 to |ts|
        invariant Walked(rules, owned, ts[..i], at, old(View()), View())
      {
        hide Walked, OrphanAt, Of;
        ghost var before := View();
        Walk(rules, ts[i], Child(at, ts[i].rn), owned);
        assert ts[..i + 1] == ts[..i] + [ts[i]];
        WalkedSnoc(rules, owned, ts[..i], at, ts[i], old(View()), before, View());
      }
      assert ts[..|ts|] == ts;
    }

    ghost function View(): Lists
      reads this
    {
      Lists(extra, implicit, orphans)
    }
  }

  /** The subtrees the report accounts for: those under a declared domain. */
  function Claimed(ts: seq<Env>, domains: set<string>): seq<Env> {
    if ts == [] then []
    else Claimed(ts[..|ts| - 1], domains) +
         (if Child("uni", ts[|ts| - 1].rn) in domains then [ts[|ts| - 1]] else [])
  }

  /** An object of the subtree of a declared domain. */
  ghost predicate Accountable(domains: set<string>, tree: Env, s: Step) {
    exists t, w :: t in tree.children && Child("uni", t.rn) in domains && w in Flat(t, Child("uni", t.rn)) && s == Step(w.dn, w.cls)
  }

  lemma {:induction false} ClaimedIs(ts: seq<Env>, domains: set<string>, t: Env)
    ensures t in Claimed(ts, domains) <==> t in ts && Child("uni", t.rn) in domains
  {
    if ts != [] {
      ClaimedIs(ts[..|ts| - 1], domains, t);
      assert ts == ts[..|ts| - 1] + [ts[|ts| - 1]];
    }
  }

  lemma {:induction false} ForestHas(ts: seq<Env>, at: string, w: Write)
    requires at != ""
    ensures w in WritesAll(ts, at) <==> exists t :: t in ts && w in Flat(t, Child(at, t.rn))
    decreases ts
  {
    if ts != [] {
      ForestHas(ts[1..], at, w);
      assert Writes(ts[0], at) == Flat(ts[0], Child(at, ts[0].rn));
      assert forall t :: t in ts <==> t == ts[0] || t in ts[1..];
    }
  }

  /** What the report lists, in terms of the read tree, the declared DNs and the never-explicit classes alone. */
  lemma ListedIff(rules: Rules, domains: set<string>, tree: Env, lists: Lists, s: Step)
    requires Walked(rules, true, Claimed(tree.children, domains), "uni", Lists([], [], []), lists)
    ensures s in lists.extra <==> Accountable(domains, tree, s) && s.dn !in rules.declared && s.cls !in rules.never
    ensures s in lists.implicit <==> Accountable(domains, tree, s) && s.dn !in rules.declared && s.cls in rules.never
  {
    var ts := Claimed(tree.children, domains);
    var ws := WritesAll(ts, "uni");
    OfMember(rules, ws, Extra, s);
    OfMember(rules, ws, Implicit, s);
    assert (exists w :: w in ws && s == Step(w.dn, w.cls)) <==> Accountable(domains, tree, s) by {
      forall t ensures t in ts <==> t in tree.children && Child("uni", t.rn) in domains { ClaimedIs(tree.children, domains, t); }
      forall w ensures w in ws <==> exists t :: t in ts && w in Flat(t, Child("uni", t.rn)) { ForestHas(ts, "uni", w); }
      hide Claimed, WritesAll, Flat;
    }
  }

  /** `_reconcile_against`, before the lists are sorted. */
  method ReconcileAgainst(rules: Rules, domains: set<string>, tree: Option<Env>) returns (lists: Lists)
    ensures tree.None? ==> lists == Lists([], [], [])
    ensures tree.Some? ==> Walked(rules, true, Claimed(tree.value.children, domains), "uni", Lists([], [], []), lists)
    ensures tree.Some? ==> forall s :: s in lists.extra <==> Accountable(domains, tree.value, s) && s.dn !in rules.declared && s.cls !in rules.never
    ensures tree.Some? ==> forall s :: s in lists.implicit <==> Accountable(domains, tree.value, s) && s.dn !in rules.declared && s.cls in rules.never
  {
    if tree.None? { return Lists([], [], []); }
    var ts := tree.value.children;
    var report := new Report();
    NothingWalked(rules, true, "uni", report.View());
    ghost var empty := report.View();
    assert ts[..0] == [];
    for i := 0 to |ts|
      invariant Walked(rules, true, Claimed(ts[..i], domains), "uni", empty, report.View())
    {
      hide Walked, OrphanAt, Of;
      assert ts[..i + 1][..i] == ts[..i] && Claimed(ts[..i], domains) + [] == Claimed(ts[..i], domains);
      var dn := Child("uni", ts[i].rn);
      if dn in domains {
        ghost var before := report.View();
        report.Walk(rules, ts[i], dn, true);
        WalkedSnoc(rules, true, Claimed(ts[..i], domains), "uni", ts[i], empty, before, report.View());
      }
    }
    assert ts[..|ts|] == ts;
    lists := Lists(report.extra, report.implicit, report.orphans);
    hide Walked;
    forall s
      ensures s in lists.extra <==> Accountable(domains, tree.value, s) && s.dn !in rules.declared && s.cls !in rules.never
      ensures s in lists.implicit <==> Accountable(domains, tree.value, s) && s.dn !in rules.declared && s.cls in rules.never
    {
      ListedIff(rules, domains, tree.value, lists, s);
    }
  }
}
