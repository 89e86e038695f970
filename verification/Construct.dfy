/** Building the tree and the envelope of a design from what `resolve` returns (`_compiler.py`, `_resolver.py`). */
module Construct {
  import opened Text
  import opened Dn
  import opened Store
  import opened Compiler
  import opened Staged
  import opened Resolver
  import opened References
  import opened Footprint

  // ---- The tree of a map of objects

  function KidPaths(order: seq<Path>, path: Path): (r: seq<Path>)
    ensures forall p :: p in r <==> p in order && |p| == |path| + 1 && p[..|path|] == path
    ensures NoRepeat(order) ==> NoRepeat(r)
  {
    if order == [] then []
    else
      var init, last := order[..|order| - 1], order[|order| - 1];
      assert order == init + [last];
      var before := KidPaths(init, path);
      if |last| == |path| + 1 && last[..|path|] == path then before + [last] else before
  }

  lemma {:induction false} KidsInOrder(order: seq<Path>, path: Path)
    ensures InOrderOf(KidPaths(order, path), order)
  {
    if order != [] {
      var init, last := order[..|order| - 1], order[|order| - 1];
      assert order == init + [last];
      KidsInOrder(init, path);
      InOrderSnoc(KidPaths(init, path), init, last);
    }
  }

  function MaxLen(order: seq<Path>): (n: nat)
    ensures forall p :: p in order ==> |p| <= n
  {
    if order == [] then 0
    else
      var rest := MaxLen(order[1..]);
      assert forall p :: p in order ==> p == order[0] || p in order[1..];
      if |order[0]| > rest then |order[0]| else rest
  }

  /** The tree standing at `path`, children in the order given. */
  function BuildTree(held: Held, order: seq<Path>, path: Path): Node
    requires path in held && path != [] && forall p :: p in order ==> p in held
    decreases MaxLen(order) - |path|
  {
    var kids := KidPaths(order, path);
    assert forall k :: k in kids ==> k in order;
    Node(held[path].cls, path[|path| - 1], held[path].attrs,
         seq(|kids|, i requires 0 <= i < |kids| => assert kids[i] in kids; BuildTree(held, order, kids[i])))
  }

  ghost predicate Lists(order: seq<Path>, held: Held) {
    NoRepeat(order) && forall p :: p in order <==> p in held
  }

  lemma KidTree(held: Held, order: seq<Path>, path: Path, i: nat)
    requires Lists(order, held) && path in held && path != [] && i < |KidPaths(order, path)|
    ensures var kid := KidPaths(order, path)[i];
            var t := BuildTree(held, order, path);
            kid in held && |path| < |kid| <= MaxLen(order) && kid == path + [kid[|kid| - 1]]
            && |t.children| == |KidPaths(order, path)| && t.children[i] == BuildTree(held, order, kid) && t.children[i].rn == kid[|kid| - 1]
  {
    var kid := KidPaths(order, path)[i];
    assert kid in KidPaths(order, path);
    assert kid == kid[..|path|] + [kid[|path|]];
  }

  /** The tree built of a map pictures it. */
  lemma {:induction false} BuiltPictures(held: Held, order: seq<Path>, path: Path)
    requires Lists(order, held) && path in held && path != []
    ensures Pictures(held, path, BuildTree(held, order, path))
    decreases MaxLen(order) - |path|
  {
    var t, kids := BuildTree(held, order, path), KidPaths(order, path);
    assert |t.children| == |kids|;
    hide BuildTree, MaxLen, KidPaths;
    assert held[path] == Obj(t.cls, t.attrs) by { TreeTop(held, order, path); }
    forall c | c in t.children ensures Pictures(held, path + [c.rn], c) {
      var i :| 0 <= i < |t.children| && t.children[i] == c;
      KidTree(held, order, path, i);
      BuiltPictures(held, order, kids[i]);
    }
    forall rn | path + [rn] in held ensures HasRn(t.children, rn) {
      var p := path + [rn];
      assert p[..|path|] == path && p in kids;
      var i :| 0 <= i < |kids| && kids[i] == p;
      KidTree(held, order, path, i);
      assert t.children[i] in t.children && t.children[i].rn == rn;
    }
  }

  lemma TreeTop(held: Held, order: seq<Path>, path: Path)
    requires Lists(order, held) && path in held && path != []
    ensures var t := BuildTree(held, order, path); held[path] == Obj(t.cls, t.attrs) && t.rn == path[|path| - 1]
  {
  }

  /** The children of the built tree stand in the order given. */
  lemma BuiltInOrder(held: Held, order: seq<Path>, path: Path, i: nat, j: nat)
    requires Lists(order, held) && path in held && path != [] && i < j < |BuildTree(held, order, path).children|
    ensures var ts := BuildTree(held, order, path).children; Earlier(order, path + [ts[i].rn], path + [ts[j].rn])
  {
    SameCount(held, order, path);
    KidTree(held, order, path, i);
    KidTree(held, order, path, j);
    KidsInOrder(order, path);
    var kids := KidPaths(order, path);
    assert Earlier(order, kids[i], kids[j]);
    hide BuildTree, KidPaths, Earlier, InOrderOf;
  }

  // ---- Its envelope is well formed

  /** At each object hang relations of RNs of their own, which no child of it has. */
  ghost predicate RelationsFit(held: Held, extras: Compiler.Extras) {
    forall p :: p in held ==> FitAt(held, p, ExtrasOf(extras, JoinDn(p)))
  }

  ghost predicate FitAt(held: Held, p: Path, rs: seq<Rs>) {
    References.DistinctRns(rs) && forall r :: r in rs ==> IsRn(r.rn) && p + [r.rn] !in held
  }

  ghost predicate RnKeys(held: Held) {
    forall p :: p in held ==> IsPath(p)
  }

  lemma {:induction false} CompiledAt(nodes: seq<Node>, dn: string, extras: Compiler.Extras)
    ensures |CompileChildren(nodes, dn, extras)| == |nodes|
    ensures forall i :: 0 <= i < |nodes| ==> CompileChildren(nodes, dn, extras)[i] == CompileEnvelope(nodes[i], Child(dn, nodes[i].rn), extras)
    decreases nodes
  {
    if nodes != [] {
      hide CompileEnvelope;
      CompiledAt(nodes[1..], dn, extras);
      assert CompileChildren(nodes, dn, extras)[1..] == CompileChildren(nodes[1..], dn, extras);
    }
  }

  lemma {:induction false} RsEnvsAt(rs: seq<Rs>)
    ensures |RsEnvs(rs)| == |rs| && forall i :: 0 <= i < |rs| ==> RsEnvs(rs)[i] == RsEnv(rs[i])
  {
    if rs != [] {
      RsEnvsAt(rs[1..]);
      assert RsEnvs(rs)[1..] == RsEnvs(rs[1..]);
    }
  }

  lemma EnvelopeParts(node: Node, dn: string, extras: Compiler.Extras)
    ensures var e := CompileEnvelope(node, dn, extras);
            e.rn == node.rn && e.children == CompileChildren(node.children, dn, extras) + RsEnvs(ExtrasOf(extras, dn))
  {
  }

  lemma EnvIs(e: Env, inner: seq<Env>, rest: seq<Env>)
    requires IsRn(e.rn) && e.children == inner + rest && Compiler.DistinctRns(inner + rest)
    requires forall i :: 0 <= i < |inner| ==> WfEnv(inner[i])
    requires forall i :: 0 <= i < |rest| ==> WfEnv(rest[i])
    ensures WfEnv(e)
  {
  }

  lemma LeafIsWf(r: Rs)
    requires IsRn(r.rn)
    ensures WfEnv(RsEnv(r))
  {
  }

  lemma EnvelopeRnIs(node: Node, dn: string, extras: Compiler.Extras)
    ensures CompileEnvelope(node, dn, extras).rn == node.rn
  {
  }

  lemma {:induction false} BuiltWf(held: Held, order: seq<Path>, path: Path, extras: Compiler.Extras)
    requires Lists(order, held) && RnKeys(held) && RelationsFit(held, extras) && path in held && path != []
    ensures WfEnv(CompileEnvelope(BuildTree(held, order, path), JoinDn(path), extras))
    decreases MaxLen(order) - |path|
  {
    hide *;
    var kids := KidPaths(order, path);
    forall i | 0 <= i < |kids| ensures KidWf(held, order, kids[i], path, extras) {
      KidTree(held, order, path, i);
      BuiltWf(held, order, kids[i], extras);
      KidIsWf(held, order, kids[i], path, extras);
    }
    KidsToWf(held, order, path, extras);
  }

  ghost predicate KidWf(held: Held, order: seq<Path>, kid: Path, path: Path, extras: Compiler.Extras) {
    Lists(order, held) && kid in held && kid != [] && WfEnv(CompileEnvelope(BuildTree(held, order, kid), JoinDn(kid), extras))
  }

  lemma KidIsWf(held: Held, order: seq<Path>, kid: Path, path: Path, extras: Compiler.Extras)
    requires Lists(order, held) && kid in held && kid != [] && WfEnv(CompileEnvelope(BuildTree(held, order, kid), JoinDn(kid), extras))
    ensures KidWf(held, order, kid, path, extras)
  {
  }

  lemma KidsToWf(held: Held, order: seq<Path>, path: Path, extras: Compiler.Extras)
    requires Lists(order, held) && RnKeys(held) && RelationsFit(held, extras) && path in held && path != []
    requires forall i :: 0 <= i < |KidPaths(order, path)| ==> KidWf(held, order, KidPaths(order, path)[i], path, extras)
    ensures WfEnv(CompileEnvelope(BuildTree(held, order, path), JoinDn(path), extras))
  {
    var t, kids, dn := BuildTree(held, order, path), KidPaths(order, path), JoinDn(path);
    hide *;
    var inner, rs := CompileChildren(t.children, dn, extras), ExtrasOf(extras, dn);
    SameCount(held, order, path);
    KidsOnce(held, order, path);
    CompiledAt(t.children, dn, extras);
    RsEnvsAt(rs);
    EnvelopeParts(t, dn, extras);
    FitsAt(held, extras, path);
    forall i | 0 <= i < |inner| ensures WfEnv(inner[i]) && inner[i].rn == kids[i][|path|] && path + [inner[i].rn] in held {
      KidEnvelope(held, order, path, extras, i);
    }
    forall i | 0 <= i < |rs| ensures WfEnv(RsEnvs(rs)[i]) { RsIsWf(held, path, rs, i); }
    RnsApart(held, path, inner, rs, kids);
    RootRn(held, order, path);
    EnvIs(CompileEnvelope(t, dn, extras), inner, RsEnvs(rs));
  }

  lemma SameCount(held: Held, order: seq<Path>, path: Path)
    requires Lists(order, held) && path in held && path != []
    ensures |BuildTree(held, order, path).children| == |KidPaths(order, path)|
  {
  }

  lemma RootRn(held: Held, order: seq<Path>, path: Path)
    requires Lists(order, held) && RnKeys(held) && path in held && path != []
    ensures IsRn(BuildTree(held, order, path).rn)
  {
    TreeTop(held, order, path);
    assert path[|path| - 1] in path;
  }

  lemma RsIsWf(held: Held, path: Path, rs: seq<Rs>, i: nat)
    requires FitAt(held, path, rs) && i < |rs| == |RsEnvs(rs)| && RsEnvs(rs)[i] == RsEnv(rs[i])
    ensures WfEnv(RsEnvs(rs)[i])
  {
    assert rs[i] in rs;
    LeafIsWf(rs[i]);
  }

  /** The envelope of the child at `i`. */
  lemma KidEnvelope(held: Held, order: seq<Path>, path: Path, extras: Compiler.Extras, i: nat)
    requires Lists(order, held) && RnKeys(held) && path in held && path != [] && i < |KidPaths(order, path)|
    requires KidWf(held, order, KidPaths(order, path)[i], path, extras)
    ensures var t, dn := BuildTree(held, order, path), JoinDn(path);
            i < |t.children| && var e := CompileEnvelope(t.children[i], Child(dn, t.children[i].rn), extras);
            |path| < |KidPaths(order, path)[i]| && WfEnv(e) && e.rn == KidPaths(order, path)[i][|path|] && path + [e.rn] in held
  {
    KidTree(held, order, path, i);
    KidAt(held, order, path, i);
    var kid, t := KidPaths(order, path)[i], BuildTree(held, order, path);
    hide Lists, RnKeys, BuildTree, KidPaths, CompileEnvelope, WfEnv;
    assert kid[|kid| - 1] == kid[|path|];
    KidDn(held, path, kid);
    EnvelopeRnIs(t.children[i], Child(JoinDn(path), t.children[i].rn), extras);
  }

  lemma KidAt(held: Held, order: seq<Path>, path: Path, i: nat)
    requires i < |KidPaths(order, path)|
    ensures |KidPaths(order, path)[i]| == |path| + 1
  {
    assert KidPaths(order, path)[i] in KidPaths(order, path);
  }

  lemma KidDn(held: Held, path: Path, kid: Path)
    requires RnKeys(held) && path in held && kid in held && path != [] && kid == path + [kid[|kid| - 1]]
    ensures JoinDn(kid) == Child(JoinDn(path), kid[|kid| - 1])
  {
    assert kid[|kid| - 1] in kid;
    ChildPath(path, kid[|kid| - 1]);
  }

  lemma FitsAt(held: Held, extras: Compiler.Extras, path: Path)
    requires RelationsFit(held, extras) && path in held
    ensures FitAt(held, path, ExtrasOf(extras, JoinDn(path)))
  {
  }

  lemma KidsOnce(held: Held, order: seq<Path>, path: Path)
    requires Lists(order, held)
    ensures NoRepeat(KidPaths(order, path)) && forall k :: k in KidPaths(order, path) ==> |k| == |path| + 1 && k[..|path|] == path
  {
  }

  lemma RnsApart(held: Held, path: Path, inner: seq<Env>, rs: seq<Rs>, kids: seq<Path>)
    requires |inner| == |kids| && NoRepeat(kids) && FitAt(held, path, rs) && |RsEnvs(rs)| == |rs|
    requires forall k :: k in kids ==> |k| == |path| + 1 && k[..|path|] == path
    requires forall i :: 0 <= i < |kids| ==> inner[i].rn == kids[i][|path|] && path + [inner[i].rn] in held
    requires forall i :: 0 <= i < |rs| ==> RsEnvs(rs)[i] == RsEnv(rs[i])
    ensures Compiler.DistinctRns(inner + RsEnvs(rs))
  {
    hide RsEnvs;
    var all := inner + RsEnvs(rs);
    forall i, j | 0 <= i < j < |all| ensures all[i].rn != all[j].rn {
      if j < |inner| {
        assert kids[i] in kids && kids[j] in kids;
        assert kids[i] == path + [kids[i][|path|]] && kids[j] == path + [kids[j][|path|]];
      } else if i < |inner| {
        assert rs[j - |inner|] in rs;
      }
    }
  }

  // ---- The push input of a design

  /** The relations `resolve` returns, by the DN of the object they hang from. */
  function ByDn(d: Design, found: References.Extras): Compiler.Extras {
    map dn | dn in (set p | p in d :: JoinDn(p)) :: At(found, SplitDn(dn))
  }

  lemma ByDnAt(d: Design, found: References.Extras, p: Path)
    requires p in d && IsPath(p)
    ensures ExtrasOf(ByDn(d, found), JoinDn(p)) == At(found, p)
  {
    PathRoundTrip(p);
    assert JoinDn(p) in (set q | q in d :: JoinDn(q));
  }

  /** The RNs of declared objects and of relations are RNs. */
  ghost predicate GoodRns(sch: Schema, d: Design) {
    (forall p :: p in d ==> IsPath(p)) && forall land, rs :: Emitted(sch, d, land, rs) ==> IsRn(rs.rn)
  }

  lemma DesignFits(sch: Schema, d: Design, found: References.Extras)
    requires GoodRns(sch, d) && Completes(sch, d, found)
    ensures RelationsFit(HeldBy(d), ByDn(d, found)) && RnKeys(HeldBy(d))
    ensures forall p :: p in d ==> NodeCompleted(sch, d, p, ExtrasOf(ByDn(d, found), JoinDn(p)))
  {
    hide Emitted, ByDn, IsPath;
    forall p | p in d
      ensures FitAt(HeldBy(d), p, ExtrasOf(ByDn(d, found), JoinDn(p))) && NodeCompleted(sch, d, p, ExtrasOf(ByDn(d, found), JoinDn(p)))
    {
      ByDnAt(d, found, p);
      assert NodeCompleted(sch, d, p, At(found, p));
    }
  }

  lemma RootTree(d: Design, order: seq<Path>)
    requires WfPaths(d) && Enumerates(order, d)
    ensures Lists(order, HeldBy(d)) && ROOT in HeldBy(d) && BuildTree(HeldBy(d), order, ROOT).rn == "uni"
  {
    assert Lists(order, HeldBy(d));
    TreeTop(HeldBy(d), order, ROOT);
  }

  /** The tree of a design with what `resolve` returns for it is a push input of the design. */
  lemma DesignCompiles(sch: Schema, d: Design, order: seq<Path>, found: References.Extras)
    requires WfPaths(d) && GoodRns(sch, d) && Enumerates(order, d) && Completes(sch, d, found)
    ensures ROOT in HeldBy(d) && Lists(order, HeldBy(d))
    ensures Compiled(sch, d, BuildTree(HeldBy(d), order, ROOT), ByDn(d, found))
  {
    UniIsGood();
    assert JoinDn(ROOT) == "uni" && ROOT != [];
    RootTree(d, order);
    var root := BuildTree(HeldBy(d), order, ROOT);
    hide *;
    DesignFits(sch, d, found);
    BuiltPictures(HeldBy(d), order, ROOT);
    BuiltWf(HeldBy(d), order, ROOT, ByDn(d, found));
    CompiledIs(sch, d, root, ByDn(d, found));
  }

  lemma CompiledIs(sch: Schema, d: Design, root: Node, extras: Compiler.Extras)
    requires WfPaths(d) && root.rn == "uni" && WfEnv(CompileEnvelope(root, "uni", extras)) && Pictures(HeldBy(d), ROOT, root)
    requires forall p :: p in d ==> NodeCompleted(sch, d, p, ExtrasOf(extras, JoinDn(p)))
    ensures Compiled(sch, d, root, extras)
  {
  }

  /** `resolve`, then `compile_envelope` from the root: the envelope writes exactly the wire of the design. */
  method CompileDesign(sch: Schema, d: Design, order: seq<Path>) returns (r: Option<Env>)
    requires WfSchema(sch) && WfPaths(d) && GoodRns(sch, d) && Enumerates(order, d)
    ensures r.Some? <==> Resolves(sch, d)
    ensures r.Some? ==> WfEnv(r.value) && r.value.rn == "uni"
    ensures r.Some? ==> forall w :: w in Writes(r.value, "") <==> exists q :: w.dn == JoinDn(q) && OnWire(sch, d, q, w.cls, w.attrs)
  {
    var found := Resolve(sch, d, order);
    if found.None? { return None; }
    DesignCompiles(sch, d, order, found.value);
    var root := BuildTree(HeldBy(d), order, ROOT);
    var extras := ByDn(d, found.value);
    assert WfDesign(root, extras);
    CompiledStands(sch, d, root, extras);
    hide *;
    forall w ensures w in StrictWrites(root, extras) <==> exists q :: w.dn == JoinDn(q) && OnWire(sch, d, q, w.cls, w.attrs) {
      EnvelopeIsTheWire(sch, d, root, extras, w);
    }
    RootEnvelope(root, extras);
    r := Some(CompileEnvelope(root, "uni", extras));
  }

  lemma RootEnvelope(root: Node, extras: Compiler.Extras)
    requires WfDesign(root, extras)
    ensures WfEnv(CompileEnvelope(root, "uni", extras)) && CompileEnvelope(root, "uni", extras).rn == "uni"
  {
  }
}
