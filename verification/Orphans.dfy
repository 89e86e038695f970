/** The orphan roots of a reconciliation cover the extras, once each (`_reconcile.py`). */
module Orphans {
  import opened Text
  import opened Dn
  import opened Store
  import opened Rebuild
  import opened Reconcile

  // ---- Extra, implicit and declared

  lemma {:induction false} ListedByStatus(rules: Rules, ws: seq<Write>, w: Write, status: Status)
    requires w in ws
    ensures Step(w.dn, w.cls) in Of(rules, ws, status) <==> StatusOf(rules, Step(w.dn, w.cls)) == status
  {
    hide StatusOf;
    var init, last := ws[..|ws| - 1], ws[|ws| - 1];
    assert ws == init + [last];
    if w in init { ListedByStatus(rules, init, w, status); } else { OfHasStatus(rules, init, status, Step(w.dn, w.cls)); }
  }

  lemma {:induction false} OfHasStatus(rules: Rules, ws: seq<Write>, status: Status, s: Step)
    ensures s in Of(rules, ws, status) ==> StatusOf(rules, s) == status
  {
    if ws != [] { OfHasStatus(rules, ws[..|ws| - 1], status, s); }
  }

  /** Every walked object is in exactly one of the three lists. */
  lemma {:induction false} StatusesPartition(rules: Rules, ws: seq<Write>)
    ensures |Of(rules, ws, Extra)| + |Of(rules, ws, Implicit)| + |Of(rules, ws, Declared)| == |ws|
    ensures forall w, status :: w in ws ==>
              (Step(w.dn, w.cls) in Of(rules, ws, status) <==> StatusOf(rules, Step(w.dn, w.cls)) == status)
  {
    forall w, status | w in ws
      ensures Step(w.dn, w.cls) in Of(rules, ws, status) <==> StatusOf(rules, Step(w.dn, w.cls)) == status
    {
      ListedByStatus(rules, ws, w, status);
    }
    if ws != [] { StatusesPartition(rules, ws[..|ws| - 1]); }
  }

  // ---- Lines

  lemma {:induction false} LinePrefix(t: Env, dn: string, line: seq<Step>, n: nat)
    requires IsLine(t, dn, line) && 0 < n <= |line|
    ensures IsLine(t, dn, line[..n])
    decreases |line|
  {
    if n > 1 {
      var i :| 0 <= i < |t.children| && IsLine(t.children[i], Child(dn, t.children[i].rn), line[1..]);
      LinePrefix(t.children[i], Child(dn, t.children[i].rn), line[1..], n - 1);
      assert line[1..][..n - 1] == line[..n][1..];
    }
  }

  lemma SomeLinePrefix(ts: seq<Env>, at: string, line: seq<Step>, n: nat)
    requires SomeLine(ts, at, line) && 0 < n <= |line|
    ensures SomeLine(ts, at, line[..n])
  {
    var i :| 0 <= i < |ts| && IsLine(ts[i], Child(at, ts[i].rn), line);
    LinePrefix(ts[i], Child(at, ts[i].rn), line, n);
  }

  /** The ends of the lines are the objects of the trees. */
  lemma {:induction false} LinesEndInObjects(t: Env, dn: string, line: seq<Step>) returns (w: Write)
    requires IsLine(t, dn, line) && dn != ""
    ensures w in Flat(t, dn) && Step(w.dn, w.cls) == line[|line| - 1]
    decreases |line|
  {
    if |line| == 1 {
      w := Write(dn, t.cls, t.attrs);
    } else {
      var i :| 0 <= i < |t.children| && IsLine(t.children[i], Child(dn, t.children[i].rn), line[1..]);
      w := LinesEndInObjects(t.children[i], Child(dn, t.children[i].rn), line[1..]);
      InForest(t.children, i, dn, w);
    }
  }

  lemma {:induction false} InForest(ts: seq<Env>, i: nat, at: string, w: Write)
    requires i < |ts| && at != "" && w in Flat(ts[i], Child(at, ts[i].rn))
    ensures w in WritesAll(ts, at)
  {
    assert Writes(ts[0], at) == Flat(ts[0], Child(at, ts[0].rn));
    if i > 0 { InForest(ts[1..], i - 1, at, w); }
  }

  lemma SomeLineEnds(ts: seq<Env>, at: string, line: seq<Step>) returns (w: Write)
    requires SomeLine(ts, at, line) && at != ""
    ensures line != [] && w in WritesAll(ts, at) && Step(w.dn, w.cls) == line[|line| - 1]
  {
    var i :| 0 <= i < |ts| && IsLine(ts[i], Child(at, ts[i].rn), line);
    w := LinesEndInObjects(ts[i], Child(at, ts[i].rn), line);
    InForest(ts, i, at, w);
  }

  lemma {:induction false} ObjectHasLine(t: Env, dn: string, w: Write) returns (line: seq<Step>)
    requires dn != "" && w in Flat(t, dn)
    ensures IsLine(t, dn, line) && line[|line| - 1] == Step(w.dn, w.cls)
    decreases t, 0
  {
    if w == Write(dn, t.cls, t.attrs) {
      line := [Step(dn, t.cls)];
    } else {
      var tail := ForestHasLine(t.children, dn, w);
      line := [Step(dn, t.cls)] + tail;
      assert line[1..] == tail;
    }
  }

  lemma {:induction false} ForestHasLine(ts: seq<Env>, at: string, w: Write) returns (line: seq<Step>)
    requires at != "" && w in WritesAll(ts, at)
    ensures SomeLine(ts, at, line) && line != [] && line[|line| - 1] == Step(w.dn, w.cls)
    decreases ts
  {
    var dn := Child(at, ts[0].rn);
    assert Writes(ts[0], at) == Flat(ts[0], dn);
    if w in Flat(ts[0], dn) {
      line := ObjectHasLine(ts[0], dn, w);
    } else {
      line := ForestHasLine(ts[1..], at, w);
      var i :| 0 <= i < |ts| - 1 && IsLine(ts[1..][i], Child(at, ts[1..][i].rn), line);
      assert IsLine(ts[i + 1], Child(at, ts[i + 1].rn), line);
    }
  }

  // ---- Coverage

  /** The first extra of a line is an orphan root. */
  lemma FirstExtraIsOrphan(rules: Rules, line: seq<Step>) returns (k: nat)
    requires line != [] && StatusOf(rules, line[|line| - 1]) == Extra
    ensures k < |line| && Orphan(rules, true, line[..k + 1])
  {
    k := 0;
    while StatusOf(rules, line[k]) != Extra
      invariant k < |line| && forall e :: 0 <= e < k ==> StatusOf(rules, line[e]) != Extra
      decreases |line| - k
    {
      k := k + 1;
    }
  }

  ghost predicate OrphanAtIndex(rules: Rules, line: seq<Step>, i: nat) {
    i < |line| && Orphan(rules, true, line[..i + 1])
  }

  /** Something declared stands between two extras. */
  ghost predicate Separates(rules: Rules, line: seq<Step>, e: nat, d: nat, x: nat) {
    e < d < x < |line| && StatusOf(rules, line[e]) == Extra && StatusOf(rules, line[d]) == Declared && StatusOf(rules, line[x]) == Extra
  }

  /** On one line: more than one orphan root exactly when something declared separates two extras. */
  lemma SecondOrphanIff(rules: Rules, line: seq<Step>)
    ensures (exists i: nat, j: nat :: i < j && OrphanAtIndex(rules, line, i) && OrphanAtIndex(rules, line, j)) <==>
            (exists e: nat, d: nat, x: nat :: Separates(rules, line, e, d, x))
  {
    hide StatusOf;
    if i: nat, j: nat :| i < j && OrphanAtIndex(rules, line, i) && OrphanAtIndex(rules, line, j) {
      var upper, lower := line[..i + 1], line[..j + 1];
      assert StatusOf(rules, upper[i]) == Extra && StatusOf(rules, lower[i]) == Extra && StatusOf(rules, lower[j]) == Extra;
      assert Has(rules, lower, Declared, i + 1, j);
      var d: nat :| d < |lower| && i + 1 <= d < j && StatusOf(rules, lower[d]) == Declared;
      assert Separates(rules, line, i, d, j);
    }
    if e: nat, d: nat, x: nat :| Separates(rules, line, e, d, x) {
      var i := FirstExtraIsOrphan(rules, line[..e + 1]);
      assert line[..e + 1][..i + 1] == line[..i + 1];
      var j := NextExtraIsOrphan(rules, line, d, x);
      assert OrphanAtIndex(rules, line, i) && OrphanAtIndex(rules, line, j);
    }
  }

  lemma NextExtraIsOrphan(rules: Rules, line: seq<Step>, d: nat, x: nat) returns (j: nat)
    requires d < x < |line| && StatusOf(rules, line[d]) == Declared && StatusOf(rules, line[x]) == Extra
    ensures d < j < |line| && Orphan(rules, true, line[..j + 1])
  {
    j := d + 1;
    while StatusOf(rules, line[j]) != Extra
      invariant d < j <= x && forall e :: d < e < j ==> StatusOf(rules, line[e]) != Extra
      decreases x - j
    {
      j := j + 1;
    }
    var prefix := line[..j + 1];
    forall e | 0 <= e < j && StatusOf(rules, prefix[e]) == Extra ensures Has(rules, prefix, Declared, e + 1, j) {
      assert StatusOf(rules, line[e]) == Extra && e < d;
      assert StatusOf(rules, prefix[d]) == Declared;
    }
  }

  lemma {:induction false} LineDescends(t: Env, dn: string, line: seq<Step>, i: nat, j: nat)
    requires IsLine(t, dn, line) && i <= j < |line|
    ensures AtOrBelow(line[j].dn, line[i].dn)
    decreases |line|
  {
    if j > 0 {
      var c :| 0 <= c < |t.children| && IsLine(t.children[c], Child(dn, t.children[c].rn), line[1..]);
      var kid := Child(dn, t.children[c].rn);
      if i == 0 {
        LineDescends(t.children[c], kid, line[1..], 0, j - 1);
        assert line[1..][0].dn == kid && Below(dn, kid);
        BelowTransitive(dn, kid, line[j].dn);
      } else {
        LineDescends(t.children[c], kid, line[1..], i - 1, j - 1);
      }
    }
  }

  /** Every extra object lies at or below an orphan root. */
  lemma EveryExtraIsCovered(rules: Rules, ts: seq<Env>, at: string, w: Write) returns (orphan: string)
    requires at != "" && w in WritesAll(ts, at) && StatusOf(rules, Step(w.dn, w.cls)) == Extra
    ensures OrphanIn(rules, true, ts, at, orphan) && AtOrBelow(w.dn, orphan)
  {
    var line := ForestHasLine(ts, at, w);
    var k := FirstExtraIsOrphan(rules, line);
    SomeLinePrefix(ts, at, line, k + 1);
    orphan := line[k].dn;
    assert line[..k + 1][k] == line[k];
    var i :| 0 <= i < |ts| && IsLine(ts[i], Child(at, ts[i].rn), line);
    LineDescends(ts[i], Child(at, ts[i].rn), line, k, |line| - 1);
  }

  // ---- Once each

  ghost predicate RnsOk(ts: seq<Env>)
    decreases ts
  {
    forall i :: 0 <= i < |ts| ==> IsRn(ts[i].rn) && RnsOk(ts[i].children)
  }

  ghost predicate OneClassADn(ws: seq<Write>) {
    forall v, w :: v in ws && w in ws && v.dn == w.dn ==> v.cls == w.cls
  }

  /** What the design declares, it declares with everything above it. */
  ghost predicate AncestorClosed(rules: Rules, ts: seq<Env>, at: string) {
    forall line, k: nat :: line != [] && SomeLine(ts, at, line) && StatusOf(rules, line[|line| - 1]) == Declared && k < |line| ==>
      StatusOf(rules, line[k]) == Declared
  }

  /** A balanced DN above the end of a line, and not above its start, is on the line. */
  lemma {:induction false} AncestorOnLine(ts: seq<Env>, at: string, line: seq<Step>, a: string) returns (k: nat)
    requires RnsOk(ts) && Balanced(at) && SomeLine(ts, at, line) && Balanced(a) && Depth(at) < Depth(a)
    requires line != [] && AtOrBelow(line[|line| - 1].dn, a)
    ensures k < |line| && line[k].dn == a
    decreases |line|
  {
    var i :| 0 <= i < |ts| && IsLine(ts[i], Child(at, ts[i].rn), line);
    var dn := Child(at, ts[i].rn);
    ChildParts(at, ts[i].rn);
    assert RnsOk(ts[i].children);
    k := 0;
    if a != dn && |line| == 1 {
      BelowChild(a, at, ts[i].rn);
      if Below(a, at) { BelowIsDeeper(a, at); }
    } else if a != dn {
      if Depth(dn) >= Depth(a) { NotAbove(ts[i].children, dn, line[1..], a); BelowIsDeeper(a, dn); }
      k := AncestorOnLine(ts[i].children, dn, line[1..], a);
      k := k + 1;
    }
  }

  /** A DN no deeper than `at` and different from it is above no end of a line below `at`, unless above `at`. */
  lemma {:induction false} NotAbove(ts: seq<Env>, at: string, line: seq<Step>, a: string)
    requires RnsOk(ts) && Balanced(at) && SomeLine(ts, at, line) && Balanced(a) && line != []
    requires AtOrBelow(line[|line| - 1].dn, a) && Depth(a) <= Depth(at)
    ensures AtOrBelow(at, a)
    decreases |line|
  {
    var i :| 0 <= i < |ts| && IsLine(ts[i], Child(at, ts[i].rn), line);
    var dn := Child(at, ts[i].rn);
    ChildParts(at, ts[i].rn);
    assert RnsOk(ts[i].children);
    if |line| > 1 { NotAbove(ts[i].children, dn, line[1..], a); BelowIsDeeper(a, dn); }
    BelowChild(a, at, ts[i].rn);
  }

  lemma OrphanBelowTop(ts: seq<Env>, at: string, line: seq<Step>)
    requires RnsOk(ts) && Balanced(at) && SomeLine(ts, at, line) && line != []
    ensures Balanced(line[|line| - 1].dn) && Depth(at) < Depth(line[|line| - 1].dn)
    decreases |line|
  {
    var i :| 0 <= i < |ts| && IsLine(ts[i], Child(at, ts[i].rn), line);
    ChildParts(at, ts[i].rn);
    assert RnsOk(ts[i].children);
    if |line| > 1 { OrphanBelowTop(ts[i].children, Child(at, ts[i].rn), line[1..]); }
  }

  /** The orphan root above another object's line is a step of it, with the same status. */
  lemma OrphanOnLine(rules: Rules, ts: seq<Env>, at: string, upper: seq<Step>, line: seq<Step>) returns (k: nat)
    requires RnsOk(ts) && Balanced(at) && OneClassADn(WritesAll(ts, at))
    requires upper != [] && line != [] && SomeLine(ts, at, upper) && SomeLine(ts, at, line)
    requires AtOrBelow(line[|line| - 1].dn, upper[|upper| - 1].dn)
    ensures k < |line| && line[k] == upper[|upper| - 1]
  {
    hide RnsOk, SomeLine, WritesAll, OneClassADn;
    OrphanBelowTop(ts, at, upper);
    k := AncestorOnLine(ts, at, line, upper[|upper| - 1].dn);
    SomeLinePrefix(ts, at, line, k + 1);
    var v := SomeLineEnds(ts, at, upper);
    var w := SomeLineEnds(ts, at, line[..k + 1]);
    assert line[..k + 1][k] == line[k];
    assert v.cls == w.cls by { SameClass(WritesAll(ts, at), v, w); }
  }

  lemma SameClass(ws: seq<Write>, v: Write, w: Write)
    requires OneClassADn(ws) && v in ws && w in ws && v.dn == w.dn
    ensures v.cls == w.cls
  {
  }

  /** What is declared brings its ancestors with it, so nothing above an orphan root is extra. */
  lemma NothingExtraAbove(rules: Rules, ts: seq<Env>, at: string, line: seq<Step>, k: nat)
    requires AncestorClosed(rules, ts, at) && SomeLine(ts, at, line) && Orphan(rules, true, line) && k < |line| - 1
    ensures StatusOf(rules, line[k]) != Extra
  {
    hide SomeLine, StatusOf;
    if StatusOf(rules, line[k]) == Extra {
      var d: nat :| d < |line| && k + 1 <= d < |line| - 1 && StatusOf(rules, line[d]) == Declared;
      SomeLinePrefix(ts, at, line, d + 1);
      DeclaredAbove(rules, ts, at, line[..d + 1], k);
    }
  }

  lemma DeclaredAbove(rules: Rules, ts: seq<Env>, at: string, line: seq<Step>, k: nat)
    requires AncestorClosed(rules, ts, at) && SomeLine(ts, at, line) && k < |line|
    requires StatusOf(rules, line[|line| - 1]) == Declared
    ensures StatusOf(rules, line[k]) == Declared
  {
  }

  /** No orphan root is below another one. */
  lemma OrphansAreAnAntichain(rules: Rules, ts: seq<Env>, at: string, upper: string, lower: string)
    requires RnsOk(ts) && Balanced(at) && OneClassADn(WritesAll(ts, at)) && AncestorClosed(rules, ts, at)
    requires OrphanIn(rules, true, ts, at, upper) && OrphanIn(rules, true, ts, at, lower)
    ensures !Below(upper, lower)
  {
    hide RnsOk, SomeLine, WritesAll, OneClassADn, StatusOf, AncestorClosed, Balanced, Has;
    var u: seq<Step> :| SomeLine(ts, at, u) && Orphan(rules, true, u) && u[|u| - 1].dn == upper;
    var l: seq<Step> :| SomeLine(ts, at, l) && Orphan(rules, true, l) && l[|l| - 1].dn == lower;
    if Below(upper, lower) {
      var k := OrphanOnLine(rules, ts, at, u, l);
      NothingExtraAbove(rules, ts, at, l, k);
    }
  }

  /** Every extra object lies at or below exactly one orphan root. */
  lemma ExactlyOneOrphan(rules: Rules, ts: seq<Env>, at: string, w: Write, one: string, other: string)
    requires RnsOk(ts) && Balanced(at) && OneClassADn(WritesAll(ts, at)) && AncestorClosed(rules, ts, at)
    requires w in WritesAll(ts, at) && StatusOf(rules, Step(w.dn, w.cls)) == Extra
    requires OrphanIn(rules, true, ts, at, one) && OrphanIn(rules, true, ts, at, other)
    requires AtOrBelow(w.dn, one) && AtOrBelow(w.dn, other)
    ensures one == other
  {
    var line := ForestHasLine(ts, at, w);
    var u: seq<Step> :| SomeLine(ts, at, u) && Orphan(rules, true, u) && u[|u| - 1].dn == one;
    var l: seq<Step> :| SomeLine(ts, at, l) && Orphan(rules, true, l) && l[|l| - 1].dn == other;
    hide RnsOk, SomeLine, WritesAll, OneClassADn, StatusOf, Orphan, OrphanIn;
    var i := OrphanOnLine(rules, ts, at, u, line);
    var j := OrphanOnLine(rules, ts, at, l, line);
    OrphansAreAnAntichain(rules, ts, at, one, other);
    OrphansAreAnAntichain(rules, ts, at, other, one);
    if i <= j { SomeLineDescends(ts, at, line, i, j); } else { SomeLineDescends(ts, at, line, j, i); }
  }

  lemma SomeLineDescends(ts: seq<Env>, at: string, line: seq<Step>, i: nat, j: nat)
    requires SomeLine(ts, at, line) && i <= j < |line|
    ensures AtOrBelow(line[j].dn, line[i].dn)
  {
    var c :| 0 <= c < |ts| && IsLine(ts[c], Child(at, ts[c].rn), line);
    LineDescends(ts[c], Child(at, ts[c].rn), line, i, j);
  }
}
