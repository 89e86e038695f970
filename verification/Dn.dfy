/** Bracket-aware Distinguished Names: splitting, joining, ancestry (`_dn.py`, `_Op.depth`). */
module Dn {
  import opened Text

  function Delta(c: char): int {
    if c == '[' then 1 else if c == ']' then -1 else 0
  }

  /** Open brackets minus closed ones. */
  function Level(s: string): int {
    if s == "" then 0 else Delta(s[0]) + Level(s[1..])
  }

  lemma {:induction false} LevelConcat(a: string, b: string)
    ensures Level(a + b) == Level(a) + Level(b)
  {
    if a == "" {
      assert a + b == b;
    } else {
      assert (a + b)[1..] == a[1..] + b;
      LevelConcat(a[1..], b);
    }
  }

  /** The segments of `s` when reading starts at bracket depth `level`. */
  function SplitFrom(s: string, level: int): (r: seq<string>)
    ensures |r| >= 1
  {
    if s == "" then [""]
    else if s[0] == '/' && level == 0 then [""] + SplitFrom(s[1..], 0)
    else Prepend([s[0]], SplitFrom(s[1..], level + Delta(s[0])))
  }

  function Prepend(p: string, r: seq<string>): (t: seq<string>)
    requires |r| >= 1
    ensures |t| == |r|
  {
    [p + r[0]] + r[1..]
  }

  lemma PrependNothing(r: seq<string>)
    requires |r| >= 1
    ensures Prepend("", r) == r
  {
    assert "" + r[0] == r[0];
  }

  /** Reading one more character of the piece under construction, or closing that piece. */
  lemma SplitStep(piece: string, c: char, rest: string, level: int)
    ensures Prepend(piece, SplitFrom([c] + rest, level)) ==
            if c == '/' && level == 0 then [piece] + Prepend("", SplitFrom(rest, 0))
            else Prepend(piece + [c], SplitFrom(rest, level + Delta(c)))
  {
    var s := [c] + rest;
    assert s[1..] == rest;
    var tail := SplitFrom(rest, level + Delta(c));
    if c == '/' && level == 0 {
      PrependNothing(tail);
      assert piece + "" == piece;
    } else {
      assert piece + ([c] + tail[0]) == piece + [c] + tail[0];
    }
  }

  function SplitDn(dn: string): seq<string> {
    if dn == "" then [] else SplitFrom(dn, 0)
  }

  /** No separator in `s` when it is read from bracket depth `level`. */
  predicate Atomic(s: string, level: int) {
    s == "" || (!(s[0] == '/' && level == 0) && Atomic(s[1..], level + Delta(s[0])))
  }

  /** One RN: balanced, slashes only inside brackets, not empty. */
  predicate IsRn(s: string) {
    s != "" && Level(s) == 0 && Atomic(s, 0)
  }

  /** A DN whose brackets balance. */
  predicate Balanced(dn: string) {
    dn != "" && Level(dn) == 0
  }

  function JoinDn(path: seq<string>): string {
    Join(path, "/")
  }

  function Child(dn: string, rn: string): string {
    dn + "/" + rn
  }

  /** `dn.startswith(f"{ancestor}/")`. */
  predicate Below(ancestor: string, dn: string) {
    ancestor + "/" <= dn
  }

  predicate AtOrBelow(dn: string, ancestor: string) {
    dn == ancestor || Below(ancestor, dn)
  }

  lemma BelowTransitive(a: string, b: string, c: string)
    requires AtOrBelow(b, a) && AtOrBelow(c, b)
    ensures AtOrBelow(c, a)
  {
  }

  // ---- The splitter

  /** What is left to read completes the piece under construction, after the closed segments. */
  ghost predicate Reading(dn: string, segments: seq<string>, piece: string, rest: string, level: int) {
    SplitFrom(dn, 0) == segments + Prepend(piece, SplitFrom(rest, level))
  }

  lemma ReadingStep(dn: string, segments: seq<string>, piece: string, c: char, rest: string, level: int)
    requires Reading(dn, segments, piece, [c] + rest, level)
    ensures c == '/' && level == 0 ==> Reading(dn, segments + [piece], "", rest, 0)
    ensures !(c == '/' && level == 0) ==> Reading(dn, segments, piece + [c], rest, level + Delta(c))
  {
    SplitStep(piece, c, rest, level);
  }

  method ComputeSplitDn(dn: string) returns (segments: seq<string>)
    ensures segments == SplitDn(dn)
  {
    if dn == "" { return []; }
    segments := [];
    var depth := 0;
    var start := 0;
    assert dn[0..] == dn && dn[0..0] == "";
    PrependNothing(SplitFrom(dn, 0));
    for i := 0 to |dn|
      invariant 0 <= start <= i
      invariant Reading(dn, segments, dn[start..i], dn[i..], depth)
    {
      assert dn[i..] == [dn[i]] + dn[i + 1..];
      assert dn[start..i + 1] == dn[start..i] + [dn[i]];
      assert dn[i + 1..i + 1] == "";
      ReadingStep(dn, segments, dn[start..i], dn[i], dn[i + 1..], depth);
      if dn[i] == '[' {
        depth := depth + 1;
      } else if dn[i] == ']' {
        depth := depth - 1;
      } else if dn[i] == '/' && depth == 0 {
        segments := segments + [dn[start..i]];
        start := i + 1;
      }
    }
    assert dn[|dn|..] == "" && dn[start..|dn|] + "" == dn[start..];
    segments := segments + [dn[start..]];
  }

  /** `_Op.depth`: the separators met at bracket depth zero. */
  method ComputeDepth(dn: string) returns (depth: nat)
    ensures depth == Depth(dn)
  {
    depth := 0;
    var level := 0;
    assert dn[0..] == dn;
    for i := 0 to |dn|
      invariant depth + |SplitFrom(dn[i..], level)| == |SplitFrom(dn, 0)|
    {
      assert dn[i..][1..] == dn[i + 1..];
      if dn[i] == '[' {
        level := level + 1;
      } else if dn[i] == ']' {
        level := level - 1;
      } else if dn[i] == '/' && level == 0 {
        depth := depth + 1;
      }
    }
  }

  function Depth(dn: string): nat {
    |SplitFrom(dn, 0)| - 1
  }

  lemma {:induction false} JoinSplitFrom(s: string, level: int)
    ensures JoinDn(SplitFrom(s, level)) == s
  {
    if s != "" {
      var c := s[0];
      var tail := SplitFrom(s[1..], level + Delta(c));
      JoinSplitFrom(s[1..], level + Delta(c));
      if c == '/' && level == 0 {
        assert ([""] + tail)[1..] == tail;
        assert s == "/" + s[1..];
      } else {
        assert Prepend([c], tail)[1..] == tail[1..];
        if |tail| > 1 {
          assert [c] + tail[0] + "/" + JoinDn(tail[1..]) == [c] + (tail[0] + "/" + JoinDn(tail[1..]));
        }
        assert s == [c] + s[1..];
      }
    }
  }

  /** Joining the segments of any string gives the string back. */
  lemma JoinSplit(dn: string)
    ensures JoinDn(SplitDn(dn)) == dn
  {
    JoinSplitFrom(dn, 0);
  }

  lemma PrependConcat(p: string, a: seq<string>, b: seq<string>)
    requires a != []
    ensures Prepend(p, a + b) == Prepend(p, a) + b
  {
  }

  /** Reading across a separator: a slash met at depth zero cuts the text in two. */
  lemma {:induction false} SplitAtSeparator(a: string, b: string, level: int)
    requires level + Level(a) == 0
    ensures SplitFrom(a + "/" + b, level) == SplitFrom(a, level) + SplitFrom(b, 0)
  {
    hide Prepend;
    var s := a + "/" + b;
    if a == "" {
      assert s[1..] == b;
    } else {
      assert s[1..] == a[1..] + "/" + b;
      SplitAtSeparator(a[1..], b, level + Delta(a[0]));
      PrependConcat([a[0]], SplitFrom(a[1..], level + Delta(a[0])), SplitFrom(b, 0));
    }
  }

  lemma {:induction false} AtomicSplits(s: string, level: int)
    ensures Atomic(s, level) <==> |SplitFrom(s, level)| == 1
  {
    if s != "" { AtomicSplits(s[1..], level + Delta(s[0])); }
  }

  lemma AtomicSplit(s: string, level: int)
    requires Atomic(s, level)
    ensures SplitFrom(s, level) == [s]
  {
    AtomicSplits(s, level);
    JoinSplitFrom(s, level);
  }

  /** What a split read from depth `level` returns: separator-free pieces, all but the last closed. */
  ghost predicate Pieces(r: seq<string>, level: int) {
    && r != []
    && Atomic(r[0], level)
    && (|r| > 1 ==> level + Level(r[0]) == 0)
    && (forall i :: 1 <= i < |r| ==> Atomic(r[i], 0))
    && (forall i :: 1 <= i < |r| - 1 ==> Level(r[i]) == 0)
  }

  lemma PiecesCut(tail: seq<string>)
    requires Pieces(tail, 0)
    ensures Pieces([""] + tail, 0)
  {
    var r := [""] + tail;
    assert forall i :: 0 < i < |r| ==> r[i] == tail[i - 1];
  }

  lemma PiecesExtend(c: char, tail: seq<string>, level: int)
    requires Pieces(tail, level + Delta(c)) && !(c == '/' && level == 0)
    ensures Pieces(Prepend([c], tail), level)
  {
    var r := Prepend([c], tail);
    assert r[0] == [c] + tail[0] && r[0][1..] == tail[0];
    assert forall i :: 0 < i < |r| ==> r[i] == tail[i];
  }

  lemma {:induction false} SplitPieces(s: string, level: int)
    ensures Pieces(SplitFrom(s, level), level)
  {
    if s != "" {
      hide Pieces, Prepend;
      var tail := SplitFrom(s[1..], level + Delta(s[0]));
      SplitPieces(s[1..], level + Delta(s[0]));
      if s[0] == '/' && level == 0 { PiecesCut(tail); } else { PiecesExtend(s[0], tail, level); }
    }
  }

  /** The lists `SplitDn` can return: separator-free segments, all but the last balanced. */
  ghost predicate SegmentList(path: seq<string>) {
    && path != []
    && (forall i :: 0 <= i < |path| ==> Atomic(path[i], 0))
    && (forall i :: 0 <= i < |path| - 1 ==> Level(path[i]) == 0)
  }

  lemma SplitSegments(dn: string)
    ensures SegmentList(SplitFrom(dn, 0))
  {
    SplitPieces(dn, 0);
  }

  lemma {:induction false} SplitJoin(path: seq<string>)
    requires SegmentList(path)
    ensures SplitFrom(JoinDn(path), 0) == path
  {
    AtomicSplit(path[0], 0);
    if |path| > 1 {
      SplitJoin(path[1..]);
      SplitAtSeparator(path[0], JoinDn(path[1..]), 0);
    }
  }

  /** Splitting and joining are inverse bijections between non-empty strings and segment lists. */
  lemma SplitJoinBijection(dn: string, path: seq<string>)
    requires dn != "" && path != [""]
    ensures SegmentList(SplitDn(dn))
    ensures SegmentList(path) ==> (JoinDn(path) == dn <==> SplitDn(dn) == path)
  {
    SplitSegments(dn);
    JoinSplit(dn);
    if SegmentList(path) { SplitJoin(path); }
  }

  lemma {:induction false} LevelJoin(path: seq<string>)
    requires forall i :: 0 <= i < |path| ==> Level(path[i]) == 0
    ensures Level(JoinDn(path)) == 0
  {
    if |path| > 1 {
      LevelJoin(path[1..]);
      LevelConcat(path[0] + "/", JoinDn(path[1..]));
      LevelConcat(path[0], "/");
    }
  }

  // ---- Ancestry

  predicate ProperPrefix(a: seq<string>, b: seq<string>) {
    |a| < |b| && a <= b
  }

  /** The prefix test `startswith(f"{a}/")` is proper segment ancestry exactly on balanced DNs. */
  lemma BelowIsSegmentAncestry(a: string, b: string)
    requires a != ""
    ensures ProperPrefix(SplitDn(a), SplitDn(b)) <==> Below(a, b) && Level(a) == 0
  {
    if Below(a, b) && Level(a) == 0 {
      var rest := b[|a| + 1..];
      assert b == a + "/" + rest;
      SplitAtSeparator(a, rest, 0);
    }
    var sa, sb := SplitDn(a), SplitDn(b);
    if ProperPrefix(sa, sb) {
      assert b != "";
      var rest := sb[|sa|..];
      assert sb == sa + rest;
      JoinSplit(a);
      JoinSplit(b);
      JoinConcat(sa, rest, "/");
      assert Below(a, b);
      SplitSegments(b);
      LevelJoin(sa);
    }
  }

  /** Descent through a balanced DN is strictly deeper. */
  lemma BelowIsDeeper(a: string, b: string)
    requires Balanced(a) && Below(a, b)
    ensures Depth(a) < Depth(b)
  {
    BelowIsSegmentAncestry(a, b);
    assert SplitDn(a) == SplitFrom(a, 0) && SplitDn(b) == SplitFrom(b, 0);
  }

  // ---- Parent and RN

  function RnOf(dn: string): string {
    if dn == "" then "" else Last(SplitDn(dn))
  }

  datatype Option<+T> = None | Some(value: T)

  function ParentDn(dn: string): Option<string> {
    var segments := SplitDn(dn);
    if |segments| <= 1 then None else Some(JoinDn(segments[..|segments| - 1]))
  }

  function Last(s: seq<string>): string
    requires s != []
  {
    s[|s| - 1]
  }

  /** A DN is its parent, a slash and its RN; the parent is balanced and one level up. */
  lemma ParentAndRn(dn: string)
    ensures ParentDn(dn).None? <==> Depth(dn) == 0
    ensures ParentDn(dn).None? ==> RnOf(dn) == dn
    ensures ParentDn(dn).Some? ==>
              var p := ParentDn(dn).value;
              dn == Child(p, RnOf(dn)) && Level(p) == 0 && Atomic(RnOf(dn), 0) &&
              Depth(dn) == Depth(p) + 1 && |p| < |dn|
  {
    if dn != "" {
      var segments := SplitDn(dn);
      JoinSplit(dn);
      SplitSegments(dn);
      if |segments| > 1 {
        var init := segments[..|segments| - 1];
        assert segments == init + [Last(segments)];
        JoinConcat(init, [Last(segments)], "/");
        LevelJoin(init);
        SplitJoin(init);
      }
    }
  }

  /** A child built from a balanced parent and an atomic RN gives both back. */
  lemma ChildParts(p: string, rn: string)
    requires Balanced(p) && Atomic(rn, 0)
    ensures SplitDn(Child(p, rn)) == SplitDn(p) + [rn]
    ensures ParentDn(Child(p, rn)) == Some(p) && RnOf(Child(p, rn)) == rn
    ensures Depth(Child(p, rn)) == Depth(p) + 1
    ensures Level(rn) == 0 ==> Balanced(Child(p, rn))
  {
    SplitAtSeparator(p, rn, 0);
    AtomicSplit(rn, 0);
    JoinSplit(p);
    var segments := SplitDn(Child(p, rn));
    assert segments[..|segments| - 1] == SplitDn(p);
    LevelConcat(p + "/", rn);
    LevelConcat(p, "/");
  }

  /** Below a child of `p`: the child itself is never confused with its siblings. */
  lemma BelowChild(a: string, p: string, rn: string)
    requires Balanced(a) && Balanced(p) && Atomic(rn, 0)
    ensures Below(a, Child(p, rn)) <==> a == p || Below(a, p)
  {
    ChildParts(p, rn);
    BelowIsSegmentAncestry(a, Child(p, rn));
    BelowIsSegmentAncestry(a, p);
    JoinSplit(a);
    JoinSplit(p);
    var sa, sp := SplitDn(a), SplitDn(p);
    if sa < sp + [rn] {
      assert sa == (sp + [rn])[..|sa|];
      if |sa| == |sp| { assert sa == sp; }
    }
  }

  // ---- Paths of RNs

  ghost predicate IsPath(path: seq<string>) {
    path != [] && forall i :: 0 <= i < |path| ==> IsRn(path[i])
  }

  /** A path of RNs is recovered from its DN, at any depth; the DN is balanced. */
  lemma PathRoundTrip(path: seq<string>)
    requires IsPath(path)
    ensures Balanced(JoinDn(path)) && SplitDn(JoinDn(path)) == path
  {
    SplitJoin(path);
    LevelJoin(path);
    if |path| > 1 { assert JoinDn(path) == path[0] + "/" + JoinDn(path[1..]); }
  }

  lemma PathInjective(a: seq<string>, b: seq<string>)
    requires IsPath(a) && IsPath(b)
    ensures JoinDn(a) == JoinDn(b) <==> a == b
  {
    PathRoundTrip(a);
    PathRoundTrip(b);
  }

  /** DN ancestry of two declared objects is path ancestry. */
  lemma PathBelow(a: seq<string>, b: seq<string>)
    requires IsPath(a) && IsPath(b)
    ensures Below(JoinDn(a), JoinDn(b)) <==> ProperPrefix(a, b)
  {
    PathRoundTrip(a);
    PathRoundTrip(b);
    BelowIsSegmentAncestry(JoinDn(a), JoinDn(b));
  }

  lemma {:induction false} AtomicConcat(a: string, b: string, level: int)
    ensures Atomic(a + b, level) <==> Atomic(a, level) && Atomic(b, level + Level(a))
  {
    if a == "" {
      assert a + b == b;
    } else {
      assert (a + b)[1..] == a[1..] + b;
      AtomicConcat(a[1..], b, level + Delta(a[0]));
    }
  }
}
