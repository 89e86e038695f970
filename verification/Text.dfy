/** Ordering, joining and searching of the strings every other module works on. */
module Text {

  /** Code-point lexicographic order, the order Python's `sorted` uses on strings. */
  predicate LexLe(a: string, b: string) {
    if a == "" then true
    else if b == "" then false
    else if a[0] != b[0] then a[0] < b[0]
    else LexLe(a[1..], b[1..])
  }

  /** Where the two first differ, the first has the smaller code point. */
  ghost predicate Smaller(a: string, b: string) {
    exists k :: 0 <= k < |a| && k < |b| && a[..k] == b[..k] && a[k] < b[k]
  }

  lemma SmallerHead(a: string, b: string)
    requires a != "" && b != "" && a[0] != b[0]
    ensures Smaller(a, b) <==> a[0] < b[0]
  {
    assert a[..0] == b[..0];
    forall k | 0 < k < |a| && k < |b| ensures a[..k] != b[..k] { assert a[..k][0] == a[0] && b[..k][0] == b[0]; }
  }

  lemma SmallerTail(a: string, b: string)
    requires a != "" && b != "" && a[0] == b[0]
    ensures Smaller(a, b) <==> Smaller(a[1..], b[1..])
  {
    var x, y := a[1..], b[1..];
    forall k | 0 <= k < |x| && k < |y| ensures x[..k] == y[..k] <==> a[..k + 1] == b[..k + 1] {
      assert a[..k + 1] == [a[0]] + x[..k] && b[..k + 1] == [b[0]] + y[..k];
      assert x[..k] == a[..k + 1][1..] && y[..k] == b[..k + 1][1..];
    }
    if Smaller(x, y) {
      var k :| 0 <= k < |x| && k < |y| && x[..k] == y[..k] && x[k] < y[k];
      assert a[..k + 1] == b[..k + 1] && a[k + 1] < b[k + 1];
    }
    if Smaller(a, b) {
      var k :| 0 <= k < |a| && k < |b| && a[..k] == b[..k] && a[k] < b[k];
      assert x[..k - 1] == y[..k - 1] && x[k - 1] < y[k - 1];
    }
  }

  /** One string is at or before another when it is a prefix of it, or smaller where they first differ. */
  lemma {:induction false} LexLeIs(a: string, b: string)
    ensures LexLe(a, b) <==> a <= b || Smaller(a, b)
  {
    if a != "" && b != "" {
      hide Smaller;
      if a[0] == b[0] {
        LexLeIs(a[1..], b[1..]);
        SmallerTail(a, b);
        assert a == [a[0]] + a[1..] && b == [b[0]] + b[1..];
      } else {
        SmallerHead(a, b);
      }
    }
  }

  lemma {:induction false} LexTotal(a: string, b: string)
    ensures LexLe(a, b) || LexLe(b, a)
    ensures LexLe(a, b) && LexLe(b, a) ==> a == b
  {
    if a != "" && b != "" && a[0] == b[0] {
      LexTotal(a[1..], b[1..]);
      assert a == [a[0]] + a[1..] && b == [b[0]] + b[1..];
    }
  }

  lemma {:induction false} LexTransitive(a: string, b: string, c: string)
    requires LexLe(a, b) && LexLe(b, c)
    ensures LexLe(a, c)
  {
    if a != "" && b != "" && c != "" && a[0] == b[0] == c[0] {
      LexTransitive(a[1..], b[1..], c[1..]);
    }
  }

  ghost predicate StrictlySorted(s: seq<string>) {
    forall i, j :: 0 <= i < j < |s| ==> LexLe(s[i], s[j]) && s[i] != s[j]
  }

  /** Inserts a name into a strictly sorted list; a name already there is not repeated. */
  function InsertName(x: string, s: seq<string>): (r: seq<string>)
    ensures forall y :: y in r <==> y == x || y in s
  {
    if s == [] then [x]
    else if x == s[0] then s
    else if LexLe(x, s[0]) then [x] + s
    else [s[0]] + InsertName(x, s[1..])
  }

  lemma {:induction false} InsertNameSorted(x: string, s: seq<string>)
    requires StrictlySorted(s)
    ensures StrictlySorted(InsertName(x, s))
  {
    if s != [] && x != s[0] {
      LexTotal(x, s[0]);
      if LexLe(x, s[0]) {
        forall j | 0 <= j < |s| ensures LexLe(x, s[j]) && x != s[j] {
          if j > 0 {
            LexTransitive(x, s[0], s[j]);
            LexTotal(s[0], s[j]);
          }
        }
      } else {
        InsertNameSorted(x, s[1..]);
        var t := InsertName(x, s[1..]);
        forall j | 0 <= j < |t| ensures LexLe(s[0], t[j]) && s[0] != t[j] {
          assert t[j] in t;
        }
      }
    }
  }

  /** `sorted(set(names))`. */
  function SortedNames(names: seq<string>): (r: seq<string>)
    ensures StrictlySorted(r)
    ensures forall y :: y in r <==> y in names
  {
    if names == [] then []
    else
      var rest := SortedNames(names[1..]);
      InsertNameSorted(names[0], rest);
      InsertName(names[0], rest)
  }

  ghost predicate InLexOrder(s: seq<string>) {
    forall i, j :: 0 <= i < j < |s| ==> LexLe(s[i], s[j])
  }

  /** Inserts a string before the first one that is not smaller. */
  function InsertString(x: string, s: seq<string>): (r: seq<string>)
    ensures multiset(r) == multiset(s) + multiset{x}
  {
    if s == [] || LexLe(x, s[0]) then [x] + s
    else
      assert s == [s[0]] + s[1..];
      [s[0]] + InsertString(x, s[1..])
  }

  lemma {:induction false} InsertKeepsOrder(x: string, s: seq<string>)
    requires InLexOrder(s)
    ensures InLexOrder(InsertString(x, s))
  {
    if s != [] {
      LexTotal(x, s[0]);
      if LexLe(x, s[0]) {
        forall j | 0 <= j < |s| ensures LexLe(x, s[j]) { if j > 0 { LexTransitive(x, s[0], s[j]); } }
      } else {
        InsertKeepsOrder(x, s[1..]);
        var t := InsertString(x, s[1..]);
        forall j | 0 <= j < |t| ensures LexLe(s[0], t[j]) {
          assert t[j] in multiset(t);
          assert t[j] == x || t[j] in s[1..];
        }
      }
    }
  }

  /** `sorted(strings)`: the same strings, repeats included, in order. */
  function SortedStrings(strings: seq<string>): (r: seq<string>)
    ensures InLexOrder(r) && multiset(r) == multiset(strings)
  {
    if strings == [] then []
    else
      var rest := SortedStrings(strings[1..]);
      InsertKeepsOrder(strings[0], rest);
      assert strings == [strings[0]] + strings[1..];
      InsertString(strings[0], rest)
  }

  lemma HasFirst(s: seq<string>)
    requires s != []
    ensures s[0] in s
  {
  }

  // ---- Lists without repeats

  ghost predicate NoRepeat<T>(s: seq<T>) {
    forall i, j :: 0 <= i < j < |s| ==> s[i] != s[j]
  }

  /** What comes first in `r` comes first in `s`. */
  ghost predicate InOrderOf<T>(r: seq<T>, s: seq<T>) {
    forall i, j :: 0 <= i < j < |r| ==> Earlier(s, r[i], r[j])
  }

  ghost predicate Earlier<T>(s: seq<T>, x: T, y: T) {
    exists a, b :: 0 <= a < b < |s| && s[a] == x && s[b] == y
  }

  /** Taking the next element of `s`, or leaving it out, keeps the order. */
  lemma InOrderSnoc<T>(r: seq<T>, s: seq<T>, x: T)
    requires InOrderOf(r, s) && forall y :: y in r ==> y in s
    ensures InOrderOf(r, s + [x]) && InOrderOf(r + [x], s + [x])
  {
    var more := s + [x];
    forall y, z | Earlier(s, y, z) ensures Earlier(more, y, z) {
      var a, b :| 0 <= a < b < |s| && s[a] == y && s[b] == z;
      assert more[a] == y && more[b] == z;
    }
    forall i | 0 <= i < |r| ensures Earlier(more, r[i], x) {
      assert r[i] in r;
      var a :| 0 <= a < |s| && s[a] == r[i];
      assert more[a] == r[i] && more[|s|] == x;
    }
  }

  lemma ConcatNoRepeat<T>(a: seq<T>, b: seq<T>)
    requires NoRepeat(a) && NoRepeat(b) && forall x, y :: x in a && y in b ==> x != y
    ensures NoRepeat(a + b)
  {
    var all := a + b;
    forall i, j | 0 <= i < j < |all| ensures all[i] != all[j] {
      if i < |a| <= j { assert all[i] in a && all[j] in b; }
    }
  }

  /** `sep.join(parts)`. */
  function Join(parts: seq<string>, sep: string): string {
    if parts == [] then ""
    else if |parts| == 1 then parts[0]
    else parts[0] + sep + Join(parts[1..], sep)
  }

  lemma {:induction false} JoinConcat(a: seq<string>, b: seq<string>, sep: string)
    requires a != [] && b != []
    ensures Join(a + b, sep) == Join(a, sep) + sep + Join(b, sep)
  {
    if |a| == 1 {
      assert (a + b)[1..] == b;
    } else {
      assert (a + b)[1..] == a[1..] + b;
      JoinConcat(a[1..], b, sep);
    }
  }

  predicate OccursAt(text: string, sep: string, k: int) {
    0 <= k && k + |sep| <= |text| && text[k..k + |sep|] == sep
  }

  /** `text.find(sep, start)`: the first position at or after `start` where `sep` occurs, or -1. */
  function Find(text: string, sep: string, start: nat): (r: int)
    requires start <= |text|
    ensures r == -1 || (start <= r && OccursAt(text, sep, r))
    decreases |text| - start
  {
    if OccursAt(text, sep, start) then start
    else if start == |text| then -1
    else Find(text, sep, start + 1)
  }

  lemma {:induction false} FindIsFirst(text: string, sep: string, start: nat, k: nat)
    requires start <= k && OccursAt(text, sep, k)
    ensures 0 <= Find(text, sep, start) <= k
    decreases k - start
  {
    if start < k { FindIsFirst(text, sep, start + 1, k); }
  }

  /** Searching inside a window of a longer text, for an occurrence that ends inside the window. */
  lemma OccursInWindow(before: string, window: string, after: string, sep: string, at: nat)
    requires at + |sep| <= |window|
    ensures OccursAt(window, sep, at) <==> OccursAt(before + window + after, sep, |before| + at)
  {
    var text := before + window + after;
    assert text[|before| + at..|before| + at + |sep|] == window[at..at + |sep|];
  }
}
