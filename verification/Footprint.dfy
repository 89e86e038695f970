/** What the one envelope of a design writes, object by object (`_compiler.py`, `_compose.py`). */
module Footprint {
  import opened Text
  import opened Dn
  import opened Store
  import opened Compiler
  import opened Staged
  import opened Resolver
  import opened References
  import opened Slice
  import W = WavePool

  // ---- A tree of objects and the writes of its envelope

  /** Objects by the path of RNs that leads to them. */
  type Held = map<Path, Obj>

  ghost predicate HasRn(nodes: seq<Node>, rn: string) {
    exists c :: c in nodes && c.rn == rn
  }

  /** The tree under `node`, standing at `path`, holds the objects of the map from there on, and no others. */
  ghost predicate Pictures(held: Held, path: Path, node: Node)
    decreases node
  {
    && path in held && held[path] == Obj(node.cls, node.attrs)
    && (forall c :: c in node.children ==> Pictures(held, path + [c.rn], c))
    && (forall rn :: path + [rn] in held ==> HasRn(node.children, rn))
  }

  ghost predicate Rooted(held: Held) {
    forall p :: p in held ==> p != [] && (|p| > 1 ==> p[..|p| - 1] in held)
  }

  lemma {:induction false} PrefixHeld(held: Held, p: Path, n: nat)
    requires Rooted(held) && p in held && 1 <= n <= |p|
    ensures p[..n] in held
    decreases |p|
  {
    if n < |p| {
      assert p[..|p| - 1][..n] == p[..n];
      PrefixHeld(held, p[..|p| - 1], n);
    } else {
      assert p[..n] == p;
    }
  }

  function OwnWrite(p: Path, o: Obj): Write { Write(JoinDn(p), o.cls, o.attrs) }

  function RsWriteAt(land: Path, r: Rs): Write { Write(Child(JoinDn(land), r.rn), r.cls, r.attrs) }

  lemma ChildPath(path: Path, rn: string)
    requires path != []
    ensures JoinDn(path + [rn]) == Child(JoinDn(path), rn)
  {
    JoinConcat(path, [rn], "/");
  }

  lemma {:induction false} ChildWrites(nodes: seq<Node>, dn: string, extras: Compiler.Extras, c: Node)
    requires c in nodes
    ensures forall w :: w in Writes(CompileEnvelope(c, Child(dn, c.rn), extras), dn) ==> w in WritesAll(CompileChildren(nodes, dn, extras), dn)
    decreases nodes
  {
    hide CompileEnvelope, Writes;
    var all := CompileChildren(nodes, dn, extras);
    assert all[1..] == CompileChildren(nodes[1..], dn, extras);
    if c != nodes[0] { ChildWrites(nodes[1..], dn, extras, c); }
  }

  lemma {:induction false} WriteOfChild(nodes: seq<Node>, dn: string, extras: Compiler.Extras, w: Write) returns (c: Node)
    requires w in WritesAll(CompileChildren(nodes, dn, extras), dn)
    ensures c in nodes && w in Writes(CompileEnvelope(c, Child(dn, c.rn), extras), dn)
    decreases nodes
  {
    hide CompileEnvelope, Writes;
    var all := CompileChildren(nodes, dn, extras);
    assert nodes != [] && all[1..] == CompileChildren(nodes[1..], dn, extras);
    c := nodes[0];
    if w !in Writes(CompileEnvelope(c, Child(dn, c.rn), extras), dn) { c := WriteOfChild(nodes[1..], dn, extras, w); }
  }

  lemma {:induction false} WriteOfRs(rs: seq<Rs>, dn: string, w: Write) returns (r: Rs)
    requires dn != "" && w in WritesAll(RsEnvs(rs), dn)
    ensures r in rs && w == Write(Child(dn, r.rn), r.cls, r.attrs)
  {
    r := rs[0];
    assert Writes(RsEnv(r), dn) == [Write(Child(dn, r.rn), r.cls, r.attrs)];
    if w !in Writes(RsEnv(r), dn) { r := WriteOfRs(rs[1..], dn, w); }
  }

  lemma NodeEnvelope(node: Node, dn: string, parentDn: string, extras: Compiler.Extras)
    requires EnvDn(CompileEnvelope(node, dn, extras), parentDn) == dn
    ensures Writes(CompileEnvelope(node, dn, extras), parentDn) ==
            [Write(dn, node.cls, node.attrs)] +
            (WritesAll(CompileChildren(node.children, dn, extras), dn) + WritesAll(RsEnvs(ExtrasOf(extras, dn)), dn))
  {
    WritesAllConcat(CompileChildren(node.children, dn, extras), RsEnvs(ExtrasOf(extras, dn)), dn);
  }

  /** `node` stands at `path` in a well-formed envelope posted under `parentDn`. */
  ghost predicate Stands(held: Held, path: Path, node: Node, parentDn: string, extras: Compiler.Extras) {
    && Rooted(held) && Pictures(held, path, node) && IsPath(path)
    && WfEnv(CompileEnvelope(node, JoinDn(path), extras))
    && EnvDn(CompileEnvelope(node, JoinDn(path), extras), parentDn) == JoinDn(path)
  }

  lemma ChildStands(held: Held, path: Path, node: Node, parentDn: string, extras: Compiler.Extras, c: Node)
    requires Stands(held, path, node, parentDn, extras) && c in node.children
    ensures Stands(held, path + [c.rn], c, JoinDn(path), extras) && JoinDn(path + [c.rn]) == Child(JoinDn(path), c.rn)
  {
    var dn := JoinDn(path);
    PathRoundTrip(path);
    EnvelopeRns(node, dn, extras);
    ChildEnvelope(node.children, dn, extras, c);
    ChildPath(path, c.rn);
  }

  lemma {:induction false} ChildEnvelope(nodes: seq<Node>, dn: string, extras: Compiler.Extras, c: Node)
    requires c in nodes && forall e :: e in CompileChildren(nodes, dn, extras) ==> WfEnv(e)
    ensures WfEnv(CompileEnvelope(c, Child(dn, c.rn), extras)) && IsRn(c.rn)
    decreases nodes
  {
    var all := CompileChildren(nodes, dn, extras);
    hide WfEnv;
    assert all[1..] == CompileChildren(nodes[1..], dn, extras);
    if c != nodes[0] {
      ChildEnvelope(nodes[1..], dn, extras, c);
    } else {
      assert all[0] in all;
      EnvelopeRn(c, Child(dn, c.rn), extras);
    }
  }

  lemma EnvelopeRn(c: Node, dn: string, extras: Compiler.Extras)
    requires WfEnv(CompileEnvelope(c, dn, extras))
    ensures IsRn(c.rn)
  {
  }

  /** Each object of the tree is written, at a path of RNs, and so are its relations. */
  lemma {:induction false} EnvelopeHolds(held: Held, path: Path, node: Node, parentDn: string, extras: Compiler.Extras, p: Path)
    requires Stands(held, path, node, parentDn, extras) && p in held && path <= p
    ensures IsPath(p) && OwnWrite(p, held[p]) in Writes(CompileEnvelope(node, JoinDn(path), extras), parentDn)
    ensures forall r :: r in ExtrasOf(extras, JoinDn(p)) ==>
              IsRn(r.rn) && RsWriteAt(p, r) in Writes(CompileEnvelope(node, JoinDn(path), extras), parentDn)
    decreases node
  {
    var dn := JoinDn(path);
    PathRoundTrip(path);
    NodeEnvelope(node, dn, parentDn, extras);
    hide CompileEnvelope, Writes, WritesAll, WfEnv, RsEnvs;
    if p == path {
      EnvelopeRns(node, dn, extras);
      forall r | r in ExtrasOf(extras, dn) ensures RsWriteAt(p, r) in Writes(CompileEnvelope(node, dn, extras), parentDn) {
        RsWrite(ExtrasOf(extras, dn), dn, r);
      }
    } else {
      var rn := p[|path|];
      PrefixHeld(held, p, |path| + 1);
      assert p[..|path| + 1] == path + [rn];
      var c :| c in node.children && c.rn == rn;
      ChildStands(held, path, node, parentDn, extras, c);
      EnvelopeHolds(held, path + [rn], c, dn, extras, p);
      ChildWrites(node.children, dn, extras, c);
    }
  }

  /** A write is that of an object at this path, or of a relation attached to the object above it. */
  ghost predicate Wrote(held: Held, extras: Compiler.Extras, q: Path, w: Write) {
    && IsPath(q) && w.dn == JoinDn(q)
    && ((q in held && w == OwnWrite(q, held[q])) ||
        (q[..|q| - 1] in held && exists r :: r in ExtrasOf(extras, JoinDn(q[..|q| - 1])) && r.rn == q[|q| - 1] && w == RsWriteAt(q[..|q| - 1], r)))
  }

  lemma {:induction false} EnvelopeFrom(held: Held, path: Path, node: Node, parentDn: string, extras: Compiler.Extras, w: Write) returns (q: Path)
    requires Stands(held, path, node, parentDn, extras) && w in Writes(CompileEnvelope(node, JoinDn(path), extras), parentDn)
    ensures path <= q && Wrote(held, extras, q, w)
    decreases node
  {
    hide *;
    var dn := JoinDn(path);
    StandsParts(held, path, node, parentDn, extras);
    NodeEnvelope(node, dn, parentDn, extras);
    if w == Write(dn, node.cls, node.attrs) {
      q := path;
      WroteOwn(held, extras, path, node, w);
    } else if w in WritesAll(CompileChildren(node.children, dn, extras), dn) {
      var c := WriteOfChild(node.children, dn, extras, w);
      ChildStands(held, path, node, parentDn, extras, c);
      q := EnvelopeFrom(held, path + [c.rn], c, dn, extras, w);
    } else {
      var r := WriteOfRs(ExtrasOf(extras, dn), dn, w);
      EnvelopeRns(node, dn, extras);
      q := path + [r.rn];
      WroteRelation(held, extras, path, r, w);
    }
  }

  lemma StandsParts(held: Held, path: Path, node: Node, parentDn: string, extras: Compiler.Extras)
    requires Stands(held, path, node, parentDn, extras)
    ensures IsPath(path) && JoinDn(path) != "" && path in held && held[path] == Obj(node.cls, node.attrs)
    ensures WfEnv(CompileEnvelope(node, JoinDn(path), extras))
    ensures EnvDn(CompileEnvelope(node, JoinDn(path), extras), parentDn) == JoinDn(path)
  {
    PathRoundTrip(path);
  }

  lemma WroteOwn(held: Held, extras: Compiler.Extras, path: Path, node: Node, w: Write)
    requires IsPath(path) && path in held && held[path] == Obj(node.cls, node.attrs) && w == Write(JoinDn(path), node.cls, node.attrs)
    ensures Wrote(held, extras, path, w)
  {
  }

  lemma WroteRelation(held: Held, extras: Compiler.Extras, path: Path, r: Rs, w: Write)
    requires IsPath(path) && path in held && IsRn(r.rn) && r in ExtrasOf(extras, JoinDn(path))
    requires w == Write(Child(JoinDn(path), r.rn), r.cls, r.attrs)
    ensures Wrote(held, extras, path + [r.rn], w)
  {
    var q := path + [r.rn];
    ChildPath(path, r.rn);
    assert q[..|q| - 1] == path && q[|q| - 1] == r.rn && w == RsWriteAt(path, r);
    hide ExtrasOf;
  }

  lemma RootStands(held: Held, root: Node, extras: Compiler.Extras)
    requires WfDesign(root, extras) && Rooted(held) && Pictures(held, ROOT, root)
    ensures JoinDn(ROOT) == "uni" && Stands(held, ROOT, root, "", extras)
    ensures StrictWrites(root, extras) == Writes(CompileEnvelope(root, "uni", extras), "")
  {
    UniIsGood();
    assert JoinDn(ROOT) == "uni";
  }

  // ---- The envelope of a design

  /** The objects of a design. */
  function HeldBy(d: Design): Held { map p | p in d :: Obj(d[p].cls, WireAttrs(d[p])) }

  /** A design and the push input made of it: its tree, and the relations `resolve` attaches by node. */
  ghost predicate Compiled(sch: Schema, d: Design, root: Node, extras: Compiler.Extras) {
    && WfPaths(d) && WfDesign(root, extras) && Pictures(HeldBy(d), ROOT, root)
    && forall p :: p in d ==> NodeCompleted(sch, d, p, ExtrasOf(extras, JoinDn(p)))
  }

  lemma CompiledStands(sch: Schema, d: Design, root: Node, extras: Compiler.Extras)
    requires Compiled(sch, d, root, extras)
    ensures Stands(HeldBy(d), ROOT, root, "", extras) && JoinDn(ROOT) == "uni"
    ensures StrictWrites(root, extras) == Writes(CompileEnvelope(root, "uni", extras), "")
    ensures forall p :: p in d ==> ROOT <= p
  {
    hide Pictures, WfDesign;
    RootStands(HeldBy(d), root, extras);
  }

  lemma LandsInDesign(sch: Schema, d: Design, land: Path, rs: Rs)
    requires Emitted(sch, d, land, rs)
    ensures land in d
  {
    var p, b :| p in d && b in d[p].binds && Emit(sch, d, p, b) == Emits(land, rs);
    if !b.ToDn? {
      assert LookupTarget(sch, d, p, b.targetCls, b.name).Found?;
      WinnerIsFound(sch, d, p, b.targetCls, b.name, LookupTarget(sch, d, p, b.targetCls, b.name).target);
    }
  }

  lemma WroteIsOnWire(sch: Schema, d: Design, extras: Compiler.Extras, q: Path, w: Write)
    requires forall p :: p in d ==> NodeCompleted(sch, d, p, ExtrasOf(extras, JoinDn(p)))
    requires Wrote(HeldBy(d), extras, q, w)
    ensures IsPath(q) && w.dn == JoinDn(q) && OnWire(sch, d, q, w.cls, w.attrs)
  {
    hide Emitted, IsPath;
    if !(q in d && w == OwnWrite(q, HeldBy(d)[q])) {
      var land := q[..|q| - 1];
      var r :| r in ExtrasOf(extras, JoinDn(land)) && r.rn == q[|q| - 1] && w == RsWriteAt(land, r);
      assert NodeCompleted(sch, d, land, ExtrasOf(extras, JoinDn(land)));
      assert Emitted(sch, d, land, r) && q == land + [r.rn];
      assert EmitsAt(sch, d, q, w.cls, w.attrs);
    }
  }

  lemma CompiledExtras(sch: Schema, d: Design, root: Node, extras: Compiler.Extras)
    requires Compiled(sch, d, root, extras)
    ensures forall p :: p in d ==> NodeCompleted(sch, d, p, ExtrasOf(extras, JoinDn(p)))
  {
  }

  /** What the envelope writes is on the wire of the design, at a path of RNs. */
  lemma WriteIsOnWire(sch: Schema, d: Design, root: Node, extras: Compiler.Extras, w: Write) returns (q: Path)
    requires Compiled(sch, d, root, extras) && w in StrictWrites(root, extras)
    ensures IsPath(q) && w.dn == JoinDn(q) && OnWire(sch, d, q, w.cls, w.attrs)
  {
    hide *;
    CompiledStands(sch, d, root, extras);
    CompiledExtras(sch, d, root, extras);
    q := EnvelopeFrom(HeldBy(d), ROOT, root, "", extras, w);
    WroteIsOnWire(sch, d, extras, q, w);
  }

  /** A relation of the wire that no object of the design restates is attached to the object it lands on. */
  lemma RelationAttached(sch: Schema, d: Design, extras: Compiler.Extras, q: Path, cls: string, attrs: map<string, string>) returns (land: Path, rs: Rs)
    requires forall p :: p in d ==> NodeCompleted(sch, d, p, ExtrasOf(extras, JoinDn(p)))
    requires CollisionFree(sch, d) && EmitsAt(sch, d, q, cls, attrs) && !OwnWire(d, q, cls, attrs)
    ensures land in d && rs in ExtrasOf(extras, JoinDn(land)) && q == land + [rs.rn] && cls == rs.cls && attrs == rs.attrs
  {
    hide Emitted;
    land, rs :| Emitted(sch, d, land, rs) && q == land + [rs.rn] && cls == rs.cls && attrs == rs.attrs;
    LandsInDesign(sch, d, land, rs);
    assert NodeCompleted(sch, d, land, ExtrasOf(extras, JoinDn(land)));
  }

  /** What is on the wire of a design that resolves is written, at a path of RNs. */
  lemma WireIsWritten(sch: Schema, d: Design, root: Node, extras: Compiler.Extras, q: Path, cls: string, attrs: map<string, string>)
    requires Compiled(sch, d, root, extras) && Resolves(sch, d) && OnWire(sch, d, q, cls, attrs)
    ensures IsPath(q) && Write(JoinDn(q), cls, attrs) in StrictWrites(root, extras)
  {
    hide *;
    CompiledStands(sch, d, root, extras);
    CompiledExtras(sch, d, root, extras);
    WireKinds(sch, d, q, cls, attrs);
    if OwnWire(d, q, cls, attrs) {
      OwnWireIs(d, q, cls, attrs);
      EnvelopeHolds(HeldBy(d), ROOT, root, "", extras, q);
    } else {
      var land, rs := RelationAttached(sch, d, extras, q, cls, attrs);
      HoldsDesign(d, land);
      EnvelopeHolds(HeldBy(d), ROOT, root, "", extras, land);
      RelationPath(land, rs);
    }
  }

  lemma WireKinds(sch: Schema, d: Design, q: Path, cls: string, attrs: map<string, string>)
    requires Resolves(sch, d) && OnWire(sch, d, q, cls, attrs)
    ensures CollisionFree(sch, d) && (OwnWire(d, q, cls, attrs) || EmitsAt(sch, d, q, cls, attrs))
  {
  }

  lemma HoldsDesign(d: Design, p: Path)
    ensures p in HeldBy(d) <==> p in d
  {
  }

  lemma OwnWireIs(d: Design, q: Path, cls: string, attrs: map<string, string>)
    requires OwnWire(d, q, cls, attrs)
    ensures q in d && q in HeldBy(d) && OwnWrite(q, HeldBy(d)[q]) == Write(JoinDn(q), cls, attrs)
  {
  }

  lemma RelationPath(land: Path, rs: Rs)
    requires IsPath(land) && IsRn(rs.rn)
    ensures IsPath(land + [rs.rn]) && RsWriteAt(land, rs) == Write(JoinDn(land + [rs.rn]), rs.cls, rs.attrs)
  {
    ChildPath(land, rs.rn);
  }

  /** The one envelope of a design that resolves writes exactly the wire of the design. */
  lemma EnvelopeIsTheWire(sch: Schema, d: Design, root: Node, extras: Compiler.Extras, w: Write)
    requires Compiled(sch, d, root, extras) && Resolves(sch, d)
    ensures w in StrictWrites(root, extras) <==> exists q :: w.dn == JoinDn(q) && OnWire(sch, d, q, w.cls, w.attrs)
  {
    hide Compiled, Resolves, OnWire, StrictWrites;
    if w in StrictWrites(root, extras) {
      var q := WriteIsOnWire(sch, d, root, extras, w);
    }
    if q :| w.dn == JoinDn(q) && OnWire(sch, d, q, w.cls, w.attrs) {
      WireIsWritten(sch, d, root, extras, q, w.cls, w.attrs);
    }
  }

  // ---- The envelope of a slice

  lemma InsideIsBelow(at: Path, q: Path)
    requires IsPath(at) && IsPath(q)
    ensures AtOrBelow(JoinDn(q), JoinDn(at)) <==> Inside(at, q)
  {
    PathBelow(at, q);
    PathInjective(at, q);
  }

  lemma DesignPath(sch: Schema, d: Design, root: Node, extras: Compiler.Extras, p: Path)
    requires Compiled(sch, d, root, extras) && p in d
    ensures IsPath(p)
  {
    CompiledStands(sch, d, root, extras);
    hide StrictWrites, Writes, CompileEnvelope, Stands, WfDesign, Pictures;
    EnvelopeHolds(HeldBy(d), ROOT, root, "", extras, p);
  }

  /**
   * The envelope of a slice writes at or below the sliced DN exactly what the envelope of the source
   * writes there, and beside it only the ancestors, by their naming attributes.
   */
  lemma SlicePayload(sch: Schema, d: Design, at: Path, s: Design, root: Node, extras: Compiler.Extras,
                     sliced: Node, slicedExtras: Compiler.Extras, w: Write)
    requires Sliceable(sch, d, at) && IsSlice(sch, d, at, s)
    requires Compiled(sch, d, root, extras) && Compiled(sch, s, sliced, slicedExtras)
    ensures AtOrBelow(w.dn, JoinDn(at)) ==> (w in StrictWrites(sliced, slicedExtras) <==> w in StrictWrites(root, extras))
    ensures !AtOrBelow(w.dn, JoinDn(at)) ==>
              (w in StrictWrites(sliced, slicedExtras) <==>
               exists p :: p < at && p in d && w == Write(JoinDn(p), d[p].cls, d[p].naming))
  {
    SliceResolves(sch, d, at, s);
    DesignPath(sch, d, root, extras, at);
    assert Resolves(sch, d);
    hide Compiled, Resolves, OnWire, StrictWrites, Sliceable, IsSlice, AtOrBelow;
    if w in StrictWrites(sliced, slicedExtras) {
      var q := WriteIsOnWire(sch, s, sliced, slicedExtras, w);
      InsideIsBelow(at, q);
      if Inside(at, q) {
        SliceKeepsTheWire(sch, d, at, s, q, w.cls, w.attrs);
        WireIsWritten(sch, d, root, extras, q, w.cls, w.attrs);
      } else {
        SliceWritesNothingElse(sch, d, at, s, q, w.cls, w.attrs);
      }
    }
    if w in StrictWrites(root, extras) && AtOrBelow(w.dn, JoinDn(at)) {
      var q := WriteIsOnWire(sch, d, root, extras, w);
      InsideIsBelow(at, q);
      SliceKeepsTheWire(sch, d, at, s, q, w.cls, w.attrs);
      WireIsWritten(sch, s, sliced, slicedExtras, q, w.cls, w.attrs);
    }
    if p :| p < at && p in d && w == Write(JoinDn(p), d[p].cls, d[p].naming) {
      SliceWritesNothingElse(sch, d, at, s, p, w.cls, w.attrs);
      WireIsWritten(sch, s, sliced, slicedExtras, p, w.cls, w.attrs);
    }
  }

  // ---- The root carries no relation

  /** The vocabulary curates no alias and no verb on `polUni`, and it has no naming property. */
  ghost predicate PlainRoot(d: Design) {
    ROOT in d && d[ROOT].binds == [] && d[ROOT].name == ""
  }

  lemma NothingLandsOnRoot(sch: Schema, d: Design, rs: Rs)
    requires PlainRoot(d)
    ensures !Emitted(sch, d, ROOT, rs)
  {
    forall p, b | p in d && b in d[p].binds ensures Emit(sch, d, p, b) != Emits(ROOT, rs) {
      if !b.ToDn? && LookupTarget(sch, d, p, b.targetCls, b.name).Found? {
        WinnerIsFound(sch, d, p, b.targetCls, b.name, LookupTarget(sch, d, p, b.targetCls, b.name).target);
      }
    }
  }

  lemma RootHasNoExtras(sch: Schema, d: Design, root: Node, extras: Compiler.Extras)
    requires Compiled(sch, d, root, extras) && PlainRoot(d)
    ensures ExtrasOf(extras, "uni") == []
  {
    var list := ExtrasOf(extras, "uni");
    CompiledStands(sch, d, root, extras);
    assert NodeCompleted(sch, d, ROOT, list);
    hide Emitted;
    forall rs ensures rs !in list { NothingLandsOnRoot(sch, d, rs); }
    EmptyOrNot(list);
  }

  lemma EmptyOrNot<T>(s: seq<T>)
    ensures s == [] || exists x :: x in s
  {
    assert s == [] || s[0] in s;
  }

  /** What a strict push writes and a staged one does not: `uni` and the carriers. */
  function PathOnly(t: Tables, root: Node): seq<Write> {
    [Write("uni", root.cls, root.attrs)] + CarriersWrites(t, root.children, "uni")
  }

  /**
   * A staged push in which nothing fails leaves, under any schedule, the store of the one strict POST at
   * every DN but `uni` and the carriers, and what was there at those.
   */
  lemma StagedIsStrict(t: Tables, sch: Schema, d: Design, root: Node, extras: Compiler.Extras, c: W.Config, steps: seq<W.Step>, dn: string)
    requires Compiled(sch, d, root, extras) && PlainRoot(d) && c.ops == CompileOps(t, root, extras)
    requires forall op :: op in c.ops ==> c.exec(op).None?
    requires W.Run(c, steps).Some? && W.Finished(c, W.Run(c, steps).value)
    ensures var staged := W.Run(c, steps).value.store;
            if Touches(PathOnly(t, root), dn)
            then SameAt(staged, c.store, dn)
            else SameAt(staged, Apply(c.store, StrictWrites(root, extras)), dn)
  {
    RootHasNoExtras(sch, d, root, extras);
    assert Unstaged(t, root, extras) == PathOnly(t, root);
    hide Unstaged, PathOnly, CompileOps, StrictWrites, Pictures, W.Run;
    StagedRefinesStrict(t, root, extras, c, steps, dn);
  }
}
