/** Closed-world resolution of references over a design keyed by path (`_resolver.py`). */
module Resolver {
  import opened Text
  import opened Dn
  import Store

  /** The RNs from `uni` down to an object: the identity of a declared node. */
  type Path = seq<string>

  datatype Flavor = ByName | ByDn

  /** A pending reference: a raw-DN escape, a closed-world alias, or a verb with its relation fixed. */
  datatype Bind =
    | ToDn(alias: string, targetCls: string, dn: string, rsCls: string, attrs: map<string, string>)
    | ToName(alias: string, targetCls: string, name: string, attrs: map<string, string>)
    | Verb(alias: string, targetCls: string, name: string, rsCls: string, attrs: map<string, string>)

  /** A declared object: class, primary name, naming attributes, other attributes, references. */
  datatype Decl = Decl(cls: string, name: string, naming: map<string, string>, attrs: map<string, string>, binds: seq<Bind>)

  type Design = map<Path, Decl>

  type Rs = Store.Rs

  /** The generated tables: relation per class pair, concrete subclasses, flavour and construction of relations. */
  datatype Schema = Schema(
    refs: map<(string, string), (string, Flavor)>,
    subclasses: map<string, seq<string>>,
    flavorOf: string -> Flavor,
    build: (string, Flavor, string, map<string, string>) -> Option<Rs>)

  function WireAttrs(n: Decl): map<string, string> { n.naming + n.attrs }

  function TargetClasses(sch: Schema, cls: string): seq<string> {
    [cls] + if cls in sch.subclasses then sch.subclasses[cls] else []
  }

  /** The classes a target may have are listed once each. */
  ghost predicate WfSchema(sch: Schema) {
    forall c, i, j :: 0 <= i < j < |TargetClasses(sch, c)| ==> TargetClasses(sch, c)[i] != TargetClasses(sch, c)[j]
  }

  const ROOT: Path := ["uni"]

  /** Every object hangs from a declared parent, `uni` at the top. */
  ghost predicate WfPaths(d: Design) {
    && ROOT in d
    && forall p :: p in d ==> p != [] && p[0] == "uni" && (|p| > 1 ==> p[..|p| - 1] in d)
  }

  lemma {:induction false} PrefixDeclared(d: Design, p: Path, n: nat)
    requires WfPaths(d) && p in d && 1 <= n <= |p|
    ensures p[..n] in d
    decreases |p|
  {
    if n < |p| {
      assert p[..|p| - 1][..n] == p[..n];
      PrefixDeclared(d, p[..|p| - 1], n);
    } else {
      assert p[..n] == p;
    }
  }

  // ---- The nearest enclosing scope

  /** Length of the longest common prefix. */
  function CommonLen(a: Path, b: Path): (n: nat)
    ensures n <= |a| && n <= |b| && a[..n] == b[..n]
    ensures n < |a| && n < |b| ==> a[n] != b[n]
  {
    if a != [] && b != [] && a[0] == b[0] then
      var n := CommonLen(a[1..], b[1..]);
      assert a[..n + 1] == [a[0]] + a[1..][..n] && b[..n + 1] == [b[0]] + b[1..][..n];
      n + 1
    else 0
  }

  lemma CommonLenIs(a: Path, b: Path, n: nat)
    requires n <= |a| && n <= |b| && a[..n] == b[..n]
    ensures n <= CommonLen(a, b)
  {
    assert forall k :: 0 <= k < n ==> a[k] == a[..n][k] && b[k] == b[..n][k];
  }

  /** A node, then each of its ancestors up to the root. */
  function AncestorsAndSelf(p: Path): seq<Path> {
    if p == [] then [] else [p] + AncestorsAndSelf(p[..|p| - 1])
  }

  lemma {:induction false} AncestorsAt(p: Path)
    ensures |AncestorsAndSelf(p)| == |p|
    ensures forall i :: 0 <= i < |p| ==> AncestorsAndSelf(p)[i] == p[..|p| - i]
  {
    if p != [] {
      var up := p[..|p| - 1];
      AncestorsAt(up);
      forall i | 0 <= i < |p| ensures AncestorsAndSelf(p)[i] == p[..|p| - i] {
        if i > 0 { assert up[..|up| - (i - 1)] == p[..|p| - i]; }
      }
    }
  }

  /** `_common_ancestor_depth`: the distance from the root of the nearest shared ancestor, -1 without any. */
  method CommonAncestorDepth(owner: Path, candidate: Path) returns (depth: int)
    ensures depth == CommonLen(owner, candidate) - 1
  {
    var depthOf: map<Path, nat> := map[];
    for i := 0 to |owner|
      invariant forall p :: p in depthOf <==> 1 <= |p| <= i && p == owner[..|p|]
      invariant forall p :: p in depthOf ==> depthOf[p] == |p| - 1
    {
      depthOf := depthOf[owner[..i + 1] := i];
    }
    var chain := AncestorsAndSelf(candidate);
    AncestorsAt(candidate);
    ghost var n := CommonLen(owner, candidate);
    assert n > 0 ==> chain[|candidate| - n] == candidate[..n] && candidate[..n] in depthOf;
    for i := 0 to |chain|
      invariant forall k :: 0 <= k < i ==> chain[k] !in depthOf
    {
      if chain[i] in depthOf {
        CommonLenIs(owner, candidate, |candidate| - i);
        return depthOf[chain[i]];
      }
    }
    return -1;
  }

  // ---- Looking a target up

  datatype Lookup = Found(target: Path) | Unresolved | Ambiguous

  ghost predicate IsCandidate(sch: Schema, d: Design, cls: string, name: string, p: Path) {
    p in d && name != "" && d[p].name == name && d[p].cls in TargetClasses(sch, cls)
  }

  /** The one candidate nearer to the owner than every other. */
  ghost predicate IsWinner(sch: Schema, d: Design, owner: Path, cls: string, name: string, t: Path) {
    && IsCandidate(sch, d, cls, name, t)
    && forall p :: IsCandidate(sch, d, cls, name, p) && p != t ==> CommonLen(owner, p) < CommonLen(owner, t)
  }

  ghost function LookupTarget(sch: Schema, d: Design, owner: Path, cls: string, name: string): Lookup {
    if t :| IsWinner(sch, d, owner, cls, name, t) then Found(t)
    else if exists p :: IsCandidate(sch, d, cls, name, p) then Ambiguous
    else Unresolved
  }

  lemma WinnerIsFound(sch: Schema, d: Design, owner: Path, cls: string, name: string, t: Path)
    ensures IsWinner(sch, d, owner, cls, name, t) <==> LookupTarget(sch, d, owner, cls, name) == Found(t)
  {
  }

  type Index = map<string, map<string, seq<Path>>>

  function Indexed(index: Index, cls: string, name: string): seq<Path> {
    if cls in index && name in index[cls] then index[cls][name] else []
  }

  /** The nodes of one class and name, in declaration order. */
  function Matching(d: Design, order: seq<Path>, cls: string, name: string): seq<Path>
    requires forall p :: p in order ==> p in d
  {
    if order == [] then []
    else
      var p := order[|order| - 1];
      Matching(d, order[..|order| - 1], cls, name) + if d[p].cls == cls && d[p].name == name && name != "" then [p] else []
  }

  /** `order` lists the design's nodes, each once. */
  ghost predicate Enumerates(order: seq<Path>, d: Design) {
    && (forall p :: p in order <==> p in d)
    && (forall i, j :: 0 <= i < j < |order| ==> order[i] != order[j])
  }

  ghost predicate Indexes(index: Index, d: Design, order: seq<Path>)
    requires forall p :: p in order ==> p in d
  {
    forall c, n :: Indexed(index, c, n) == Matching(d, order, c, n)
  }

  function AddToIndex(index: Index, cls: string, name: string, p: Path): Index {
    var byName := if cls in index then index[cls] else map[];
    index[cls := byName[name := Indexed(index, cls, name) + [p]]]
  }

  lemma IndexSnoc(index: Index, d: Design, order: seq<Path>, p: Path)
    requires (forall q :: q in order ==> q in d) && p in d && Indexes(index, d, order)
    ensures Indexes(if d[p].name == "" then index else AddToIndex(index, d[p].cls, d[p].name, p), d, order + [p])
  {
    assert (order + [p])[..|order|] == order;
    var after := if d[p].name == "" then index else AddToIndex(index, d[p].cls, d[p].name, p);
    forall c, n ensures Indexed(after, c, n) == Matching(d, order + [p], c, n) {
      assert Indexed(index, c, n) == Matching(d, order, c, n);
      assert Matching(d, order, c, n) + [] == Matching(d, order, c, n);
    }
  }

  lemma EmptyIndex(d: Design)
    ensures Indexes(map[], d, [])
  {
  }

  method BuildIndex(d: Design, order: seq<Path>) returns (index: Index)
    requires forall p :: p in order ==> p in d
    ensures Indexes(index, d, order)
  {
    hide Indexes, AddToIndex;
    index := map[];
    EmptyIndex(d);
    assert order[..0] == [];
    for i := 0 to |order|
      invariant Indexes(index, d, order[..i])
    {
      var p := order[i];
      assert order[..i + 1] == order[..i] + [p] && p in order;
      IndexSnoc(index, d, order[..i], p);
      if d[p].name != "" {
        index := AddToIndex(index, d[p].cls, d[p].name, p);
      }
    }
    assert order[..|order|] == order;
  }

  lemma {:induction false} MatchingMember(d: Design, order: seq<Path>, cls: string, name: string)
    requires forall p :: p in order ==> p in d
    ensures forall p :: p in Matching(d, order, cls, name) <==> p in order && d[p].cls == cls && d[p].name == name && name != ""
  {
    if order != [] {
      var init := order[..|order| - 1];
      MatchingMember(d, init, cls, name);
      assert order == init + [order[|order| - 1]];
    }
  }

  lemma {:induction false} MatchingNoRepeat(d: Design, order: seq<Path>, cls: string, name: string)
    requires (forall p :: p in order ==> p in d) && NoRepeat(order)
    ensures NoRepeat(Matching(d, order, cls, name))
  {
    if order != [] {
      var init, last := order[..|order| - 1], order[|order| - 1];
      MatchingNoRepeat(d, init, cls, name);
      MatchingMember(d, init, cls, name);
      forall p | p in Matching(d, init, cls, name) ensures p != last {
        var i :| 0 <= i < |init| && init[i] == p;
        assert order[i] == p;
      }
    }
  }

  /** Every candidate once, class by class. */
  method Candidates(sch: Schema, d: Design, order: seq<Path>, index: Index, cls: string, name: string) returns (found: seq<Path>)
    requires WfSchema(sch) && Enumerates(order, d)
    requires Indexes(index, d, order)
    ensures forall p :: p in found <==> IsCandidate(sch, d, cls, name, p)
    ensures NoRepeat(found)
  {
    var classes := TargetClasses(sch, cls);
    found := [];
    for i := 0 to |classes|
      invariant forall p :: p in found <==> p in d && name != "" && d[p].name == name && d[p].cls in classes[..i]
      invariant NoRepeat(found)
    {
      var more := Indexed(index, classes[i], name);
      MatchingMember(d, order, classes[i], name);
      MatchingNoRepeat(d, order, classes[i], name);
      assert classes[..i + 1] == classes[..i] + [classes[i]];
      forall p, q | p in found && q in more ensures p != q {
        assert d[p].cls in classes[..i];
      }
      ConcatNoRepeat(found, more);
      found := found + more;
    }
    assert classes[..|classes|] == classes;
  }

  /** `_lookup_target`: score every candidate, keep the nearest, refuse a tie. */
  method ComputeLookup(sch: Schema, d: Design, order: seq<Path>, index: Index, owner: Path, cls: string, name: string) returns (r: Lookup)
    requires WfSchema(sch) && Enumerates(order, d)
    requires Indexes(index, d, order)
    ensures r == LookupTarget(sch, d, owner, cls, name)
  {
    var candidates := Candidates(sch, d, order, index, cls, name);
    if candidates == [] {
      return Unresolved;
    }
    var nearest: seq<Path> := [];
    var nearestDepth := -1;
    for i := 0 to |candidates|
      invariant i == 0 ==> nearest == [] && nearestDepth == -1
      invariant i > 0 ==> nearest != []
      invariant forall p :: p in nearest <==> p in candidates[..i] && CommonLen(owner, p) - 1 == nearestDepth
      invariant forall p :: p in candidates[..i] ==> CommonLen(owner, p) - 1 <= nearestDepth
      invariant NoRepeat(nearest)
    {
      var depth := CommonAncestorDepth(owner, candidates[i]);
      assert candidates[..i + 1] == candidates[..i] + [candidates[i]];
      assert candidates[i] !in candidates[..i];
      if nearest == [] || depth > nearestDepth {
        nearest, nearestDepth := [candidates[i]], depth;
      } else if depth == nearestDepth {
        nearest := nearest + [candidates[i]];
      }
    }
    assert candidates[..|candidates|] == candidates;
    assert candidates[0] in candidates;
    if |nearest| > 1 {
      assert nearest[0] in nearest && nearest[1] in nearest;
      return Ambiguous;
    }
    assert nearest == [nearest[0]] && nearest[0] in nearest;
    WinnerIsFound(sch, d, owner, cls, name, nearest[0]);
    return Found(nearest[0]);
  }
}
