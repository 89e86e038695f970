/** The one envelope of a merged design, and those of its sources (`_compose.py`, `_compiler.py`). */
module MergedPayload {
  import opened Text
  import opened Dn
  import opened Store
  import opened Compiler
  import opened Merge
  import opened MergeMeaning
  import opened MergePush
  import opened Footprint
  import opened Construct
  import S = Staged

  const NO_RELATIONS: Compiler.Extras := map[]

  /** The tree of a source that declares no reference. */
  function NodeOf(m: Models, s: Source, dn: string): Node
    decreases s, 0
  {
    Node(s.cls, s.rn, WriteOf(m, Decln(dn, s.cls, s.typed, s.raw, s.binds)).attrs, NodesOf(m, s.children, dn))
  }

  function NodesOf(m: Models, ns: seq<Source>, at: string): seq<Node>
    decreases ns
  {
    if ns == [] then []
    else
      assert ns[|ns| - 1] in ns;
      NodesOf(m, ns[..|ns| - 1], at) + [NodeOf(m, ns[|ns| - 1], Child(at, ns[|ns| - 1].rn))]
  }

  lemma {:induction false} CompileSnoc(nodes: seq<Node>, n: Node, dn: string)
    ensures CompileChildren(nodes + [n], dn, NO_RELATIONS) ==
            CompileChildren(nodes, dn, NO_RELATIONS) + [CompileEnvelope(n, Child(dn, n.rn), NO_RELATIONS)]
    decreases |nodes|
  {
    if nodes == [] {
      assert [] + [n] == [n] && [n][1..] == [];
    } else {
      hide CompileEnvelope;
      assert (nodes + [n])[1..] == nodes[1..] + [n];
      CompileSnoc(nodes[1..], n, dn);
    }
  }

  lemma PushSplit(m: Models, a: seq<Decln>, b: seq<Decln>)
    ensures PushWrites(m, a + b) == PushWrites(m, a) + PushWrites(m, b)
  {
  }

  /** The envelope of a source writes its declarations, in order. */
  lemma {:induction false} SourceWrites(m: Models, s: Source, dn: string, parentDn: string)
    requires dn != "" && EnvDn(CompileEnvelope(NodeOf(m, s, dn), dn, NO_RELATIONS), parentDn) == dn
    ensures Writes(CompileEnvelope(NodeOf(m, s, dn), dn, NO_RELATIONS), parentDn) == PushWrites(m, Declared(s, dn))
    decreases s, 0
  {
    var own := Decln(dn, s.cls, s.typed, s.raw, s.binds);
    NodeEnvelope(NodeOf(m, s, dn), dn, parentDn, NO_RELATIONS);
    SourcesWrite(m, s.children, dn);
    hide Writes, WritesAll, CompileChildren, CompileEnvelope, DeclaredAll, NodesOf;
    assert RsEnvs(ExtrasOf(NO_RELATIONS, dn)) == [];
    NoWrites(dn);
    PushSplit(m, [own], DeclaredAll(s.children, dn));
    assert PushWrites(m, [own]) == [WriteOf(m, own)];
  }

  lemma NoWrites(dn: string)
    ensures WritesAll([], dn) == []
  {
  }

  lemma {:induction false} SourcesWrite(m: Models, ns: seq<Source>, at: string)
    requires at != ""
    ensures WritesAll(CompileChildren(NodesOf(m, ns, at), at, NO_RELATIONS), at) == PushWrites(m, DeclaredAll(ns, at))
    decreases ns
  {
    if ns != [] {
      var init, last := ns[..|ns| - 1], ns[|ns| - 1];
      var dn := Child(at, last.rn);
      assert last in ns;
      SourcesWrite(m, init, at);
      var e := CompileEnvelope(NodeOf(m, last, dn), dn, NO_RELATIONS);
      assert EnvDn(e, at) == dn;
      SourceWrites(m, last, dn, at);
      CompileSnoc(NodesOf(m, init, at), NodeOf(m, last, dn), at);
      hide Writes, CompileChildren, CompileEnvelope, NodeOf, Declared;
      WritesAllConcat(CompileChildren(NodesOf(m, init, at), at, NO_RELATIONS), [e], at);
      assert WritesAll([e], at) == Writes(e, at);
      PushSplit(m, DeclaredAll(init, at), Declared(last, dn));
    }
  }

  // ---- Declared objects hang from declared objects

  ghost predicate WfSource(s: Source)
    decreases s
  {
    IsRn(s.rn) && forall c :: c in s.children ==> WfSource(c)
  }

  /** The DN is the top, or that of a child of a declared object. */
  ghost predicate Hangs(ds: seq<Decln>, top: string, dn: string) {
    dn == top || exists e, rn :: e in ds && Balanced(e.dn) && IsRn(rn) && dn == Child(e.dn, rn)
  }

  lemma HangsMore(ds: seq<Decln>, es: seq<Decln>, top: string, dn: string)
    requires Hangs(ds, top, dn) && forall d :: d in ds ==> d in es
    ensures Hangs(es, top, dn)
  {
  }

  lemma {:induction false} DeclaredHangs(s: Source, dn: string)
    requires WfSource(s) && Balanced(dn)
    ensures forall d :: d in Declared(s, dn) ==> Balanced(d.dn) && Hangs(Declared(s, dn), dn, d.dn)
    decreases s, 0
  {
    var own := Decln(dn, s.cls, s.typed, s.raw, s.binds);
    AllHang(s.children, dn, own);
    hide DeclaredAll, Hangs;
    assert Declared(s, dn) == [own] + DeclaredAll(s.children, dn);
    assert own in Declared(s, dn);
    assert Hangs(Declared(s, dn), dn, dn) by { TopHangs(Declared(s, dn), dn); }
  }

  lemma TopHangs(ds: seq<Decln>, top: string)
    ensures Hangs(ds, top, top)
  {
  }

  lemma {:induction false} AllHang(ns: seq<Source>, at: string, own: Decln)
    requires (forall n :: n in ns ==> WfSource(n)) && Balanced(at) && own.dn == at
    ensures forall d :: d in DeclaredAll(ns, at) ==> Balanced(d.dn) && Hangs([own] + DeclaredAll(ns, at), at, d.dn)
    decreases ns
  {
    if ns != [] {
      var init, last := ns[..|ns| - 1], ns[|ns| - 1];
      var dn := Child(at, last.rn);
      assert last in ns && forall n :: n in init ==> n in ns;
      AllHang(init, at, own);
      ChildParts(at, last.rn);
      DeclaredHangs(last, dn);
      var some, more := [own] + DeclaredAll(init, at), Declared(last, dn);
      var all := [own] + DeclaredAll(ns, at);
      assert all == some + more;
      hide Declared, DeclaredAll, Hangs, WfSource;
      forall d | d in DeclaredAll(ns, at) ensures Balanced(d.dn) && Hangs(all, at, d.dn) {
        if d in DeclaredAll(init, at) {
          HangsMore(some, all, at, d.dn);
        } else {
          HangsThrough(more, all, own, last.rn, d.dn);
        }
      }
    }
  }

  lemma HangsThrough(ds: seq<Decln>, es: seq<Decln>, own: Decln, rn: string, dn: string)
    requires Hangs(ds, Child(own.dn, rn), dn) && (forall d :: d in ds ==> d in es) && own in es && Balanced(own.dn) && IsRn(rn)
    ensures Hangs(es, own.dn, dn)
  {
  }

  // ---- The tree of the merge

  /** The objects of a merge, as its pushes write them. */
  function HeldMerged(m: Models, byDn: Merged): Held {
    map p | p in (set dn | dn in byDn :: SplitDn(dn)) && JoinDn(p) in byDn :: Obj(byDn[JoinDn(p)].cls, WriteOf(m, byDn[JoinDn(p)]).attrs)
  }

  lemma HeldAt(m: Models, byDn: Merged, dn: string)
    requires dn in byDn
    ensures SplitDn(dn) in HeldMerged(m, byDn) && JoinDn(SplitDn(dn)) == dn
    ensures HeldMerged(m, byDn)[SplitDn(dn)] == Obj(byDn[dn].cls, WriteOf(m, byDn[dn]).attrs)
  {
    JoinSplit(dn);
    assert SplitDn(dn) in (set x | x in byDn :: SplitDn(x));
  }

  lemma HeldFrom(m: Models, byDn: Merged, p: seq<string>) returns (dn: string)
    requires p in HeldMerged(m, byDn)
    ensures dn in byDn && p == SplitDn(dn) && dn == JoinDn(p)
    ensures HeldMerged(m, byDn)[p] == Obj(byDn[dn].cls, WriteOf(m, byDn[dn]).attrs)
  {
    dn :| dn in byDn && p == SplitDn(dn);
    JoinSplit(dn);
  }

  /** The tree of a merge: the merged objects, each under the object its DN says. */
  ghost predicate MergedTree(m: Models, byDn: Merged, root: Node) {
    S.WfDesign(root, NO_RELATIONS) && Pictures(HeldMerged(m, byDn), ["uni"], root)
  }

  ghost predicate Anchored(ds: seq<Decln>) {
    forall d :: d in ds ==> Hangs(ds, "uni", d.dn)
  }

  lemma UniSegment()
    ensures SplitDn("uni") == ["uni"] && JoinDn(["uni"]) == "uni" && Balanced("uni")
  {
    S.UniIsGood();
    AtomicSplit("uni", 0);
  }

  lemma UpHeld(m: Models, byDn: Merged, ds: seq<Decln>, p: seq<string>)
    requires Represents(m, byDn, ds) && Anchored(ds) && p in HeldMerged(m, byDn)
    ensures p == ["uni"] || (|p| > 1 && IsRn(p[|p| - 1]) && p[..|p| - 1] in HeldMerged(m, byDn))
  {
    UniSegment();
    var dn := HeldFrom(m, byDn, p);
    if dn != "uni" {
      assert DeclaresAt(ds, dn);
      var d :| d in ds && d.dn == dn;
      assert Hangs(ds, "uni", d.dn);
      var e, rn :| e in ds && Balanced(e.dn) && IsRn(rn) && dn == Child(e.dn, rn);
      ChildParts(e.dn, rn);
      assert e.dn in byDn;
      HeldAt(m, byDn, e.dn);
      assert p[..|p| - 1] == SplitDn(e.dn);
    }
  }

  lemma MergedRooted(m: Models, byDn: Merged, ds: seq<Decln>)
    requires Represents(m, byDn, ds) && Anchored(ds)
    ensures Rooted(HeldMerged(m, byDn)) && forall p :: p in HeldMerged(m, byDn) ==> ["uni"] <= p
  {
    hide Represents, Anchored, HeldMerged;
    var held := HeldMerged(m, byDn);
    forall p | p in held ensures p != [] && (|p| > 1 ==> p[..|p| - 1] in held) { UpHeld(m, byDn, ds, p); }
    forall p | p in held ensures ["uni"] <= p {
      UpHeld(m, byDn, ds, p);
      PrefixHeld(held, p, 1);
      UpHeld(m, byDn, ds, p[..1]);
      assert p[..1] == ["uni"];
    }
  }

  /** The envelope of a merge writes each merged object once. */
  lemma MergedPayloadWrites(m: Models, byDn: Merged, ds: seq<Decln>, root: Node)
    requires Represents(m, byDn, ds) && Anchored(ds) && MergedTree(m, byDn, root)
    ensures MergedWrites(m, byDn, S.StrictWrites(root, NO_RELATIONS))
  {
    var held, ws := HeldMerged(m, byDn), S.StrictWrites(root, NO_RELATIONS);
    S.StrictIsStagedAndRest(Tables({}, {}), root, NO_RELATIONS);
    MergedRooted(m, byDn, ds);
    RootStands(held, root, NO_RELATIONS);
    OwnDns(m, byDn, ds);
    hide *;
    forall w | w in ws ensures w.dn in byDn && w == WriteOf(m, byDn[w.dn]) { WrittenIsMerged(m, byDn, root, w); }
    forall dn | dn in byDn ensures WriteOf(m, byDn[dn]) in ws {
      HeldAt(m, byDn, dn);
      MergedIsWritten(m, byDn, root, dn);
    }
    MergedWritesIs(m, byDn, ws);
  }

  lemma MergedWritesIs(m: Models, byDn: Merged, ws: seq<Write>)
    requires DistinctDns(ws) && (forall w :: w in ws ==> w.dn in byDn && w == WriteOf(m, byDn[w.dn]))
    requires forall dn :: dn in byDn ==> WriteOf(m, byDn[dn]) in ws
    ensures MergedWrites(m, byDn, ws)
  {
  }

  lemma WrittenIsMerged(m: Models, byDn: Merged, root: Node, w: Write)
    requires Stands(HeldMerged(m, byDn), ["uni"], root, "", NO_RELATIONS) && w in Writes(CompileEnvelope(root, "uni", NO_RELATIONS), "")
    requires forall dn :: dn in byDn ==> byDn[dn].dn == dn
    ensures w.dn in byDn && w == WriteOf(m, byDn[w.dn])
  {
    UniSegment();
    hide *;
    var q := EnvelopeFrom(HeldMerged(m, byDn), ["uni"], root, "", NO_RELATIONS, w);
    NoRelationWrote(HeldMerged(m, byDn), q, w);
    var dn := HeldFrom(m, byDn, q);
    WriteOfParts(m, byDn[dn]);
  }

  lemma NoRelationWrote(held: Held, q: seq<string>, w: Write)
    requires Wrote(held, NO_RELATIONS, q, w)
    ensures q in held && w == Write(JoinDn(q), held[q].cls, held[q].attrs)
  {
  }

  lemma MergedIsWritten(m: Models, byDn: Merged, root: Node, dn: string)
    requires Stands(HeldMerged(m, byDn), ["uni"], root, "", NO_RELATIONS) && dn in byDn && ["uni"] <= SplitDn(dn)
    requires byDn[dn].dn == dn
    ensures WriteOf(m, byDn[dn]) in Writes(CompileEnvelope(root, "uni", NO_RELATIONS), "")
  {
    UniSegment();
    HeldAt(m, byDn, dn);
    hide Stands, HeldMerged, Writes, CompileEnvelope, WriteOf;
    EnvelopeHolds(HeldMerged(m, byDn), ["uni"], root, "", NO_RELATIONS, SplitDn(dn));
    WriteOfParts(m, byDn[dn]);
  }

  lemma OwnDns(m: Models, byDn: Merged, ds: seq<Decln>)
    requires Represents(m, byDn, ds)
    ensures forall dn :: dn in byDn ==> byDn[dn].dn == dn
  {
  }

  lemma SourceAnchored(s: Source)
    requires WfSource(s)
    ensures Anchored(Declared(s, "uni"))
  {
    UniSegment();
    DeclaredHangs(s, "uni");
  }

  lemma AnchoredTogether(a: seq<Decln>, b: seq<Decln>)
    requires Anchored(a) && Anchored(b)
    ensures Anchored(a + b)
  {
    hide Hangs;
    forall d | d in a + b ensures Hangs(a + b, "uni", d.dn) {
      if d in a { HangsMore(a, a + b, "uni", d.dn); } else { HangsMore(b, a + b, "uni", d.dn); }
    }
  }

  lemma SourcePayload(m: Models, s: Source)
    requires s.rn == "uni"
    ensures S.StrictWrites(NodeOf(m, s, "uni"), NO_RELATIONS) == PushWrites(m, Declared(s, "uni"))
  {
    S.UniIsGood();
    SourceWrites(m, s, "uni", "");
  }

  /** The store after the designs have been posted one after the other. */
  function PushEach(m: Models, objects: Objects, designs: seq<Source>): Objects {
    if designs == [] then objects
    else Apply(PushEach(m, objects, designs[..|designs| - 1]), S.StrictWrites(NodeOf(m, designs[|designs| - 1], "uni"), NO_RELATIONS))
  }

  lemma {:induction false} PushedEach(m: Models, objects: Objects, designs: seq<Source>)
    requires forall s :: s in designs ==> s.rn == "uni"
    ensures PushEach(m, objects, designs) == Apply(objects, PushWrites(m, AllDeclared(designs)))
  {
    if designs != [] {
      var init, last := designs[..|designs| - 1], designs[|designs| - 1];
      PushedEach(m, objects, init);
      SourcePayload(m, last);
      hide PushWrites, NodeOf, S.StrictWrites, Declared, Apply;
      PushConcat(m, objects, AllDeclared(init), Declared(last, "uni"));
    }
  }

  lemma {:induction false} DesignsAnchored(designs: seq<Source>)
    requires forall s :: s in designs ==> WfSource(s)
    ensures Anchored(AllDeclared(designs))
  {
    if designs != [] {
      var init, last := designs[..|designs| - 1], designs[|designs| - 1];
      DesignsAnchored(init);
      SourceAnchored(last);
      hide Anchored, Declared;
      AnchoredTogether(AllDeclared(init), Declared(last, "uni"));
    }
  }

  lemma FirstDeclaresRoot(designs: seq<Source>)
    requires designs != []
    ensures DeclaresAt(AllDeclared(designs), "uni")
  {
    var last := designs[|designs| - 1];
    assert Declared(last, "uni")[0] in AllDeclared(designs);
  }

  /**
   * Posting the envelope of a conflict-free merge leaves, in any store, what posting the envelopes of
   * its sources one after the other leaves, values compared as they coerce.
   */
  lemma MergedPayloadMeansAll(m: Models, objects: Objects, designs: seq<Source>, root: Node)
    requires designs != [] && forall s :: s in designs ==> WfSource(s) && s.rn == "uni"
    requires Fold(m, EMPTY, AllDeclared(designs)).ok && NamingApart(m, AllDeclared(designs))
    requires MergedTree(m, Fold(m, EMPTY, AllDeclared(designs)).byDn, root)
    ensures CanonStore(m, Apply(objects, S.StrictWrites(root, NO_RELATIONS))) == CanonStore(m, PushEach(m, objects, designs))
  {
    var ds := AllDeclared(designs);
    hide *;
    DesignsAnchored(designs);
    FirstDeclaresRoot(designs);
    PushedEach(m, objects, designs);
    MergeRepresents(m, ds);
    MergedPayloadWrites(m, Fold(m, EMPTY, ds).byDn, ds, root);
    MergeMeansSequentialPush(m, objects, ds, S.StrictWrites(root, NO_RELATIONS));
  }

  /**
   * Posting the envelope of a conflict-free merge of two designs leaves, in any store, what posting the
   * envelopes of the two leaves, in either order, values compared as they coerce.
   */
  lemma MergedPayloadMeansBoth(m: Models, objects: Objects, a: Source, b: Source, root: Node)
    requires WfSource(a) && WfSource(b) && a.rn == "uni" && b.rn == "uni"
    requires Fold(m, EMPTY, AllDeclared([a, b])).ok && NamingApart(m, AllDeclared([a, b]))
    requires MergedTree(m, Fold(m, EMPTY, AllDeclared([a, b])).byDn, root)
    ensures var x, y := S.StrictWrites(NodeOf(m, a, "uni"), NO_RELATIONS), S.StrictWrites(NodeOf(m, b, "uni"), NO_RELATIONS);
            CanonStore(m, Apply(objects, S.StrictWrites(root, NO_RELATIONS))) ==
            CanonStore(m, Apply(Apply(objects, x), y)) == CanonStore(m, Apply(Apply(objects, y), x))
  {
    var ds := AllDeclared([a, b]);
    SourcePayload(m, a);
    SourcePayload(m, b);
    SourceAnchored(a);
    SourceAnchored(b);
    DeclaredOfTwo(a, b);
    hide *;
    AnchoredTogether(Declared(a, "uni"), Declared(b, "uni"));
    MergeRepresents(m, ds);
    MergedPayloadWrites(m, Fold(m, EMPTY, ds).byDn, ds, root);
    MergeOfTwo(m, objects, a, b, S.StrictWrites(root, NO_RELATIONS));
  }

  // ---- Building the tree of a merge

  /** The paths of the declared objects, each where it is first declared. */
  function Firsts(ds: seq<Decln>): (r: seq<seq<string>>)
    ensures NoRepeat(r)
    ensures forall d :: d in ds ==> SplitDn(d.dn) in r
    ensures forall p :: p in r ==> exists d :: d in ds && SplitDn(d.dn) == p
  {
    if ds == [] then []
    else
      var init, last := ds[..|ds| - 1], ds[|ds| - 1];
      var before, p := Firsts(init), SplitDn(last.dn);
      assert ds == init + [last];
      if p in before then before else before + [p]
  }

  /** Some object is declared at `p` before any is at `q`. */
  ghost predicate DeclaredBefore(ds: seq<Decln>, p: seq<string>, q: seq<string>) {
    exists a :: 0 <= a < |ds| && SplitDn(ds[a].dn) == p && forall k :: 0 <= k <= a ==> SplitDn(ds[k].dn) != q
  }

  lemma StillBefore(ds: seq<Decln>, d: Decln, p: seq<string>, q: seq<string>)
    requires DeclaredBefore(ds, p, q)
    ensures DeclaredBefore(ds + [d], p, q)
  {
    hide SplitDn;
    var a :| 0 <= a < |ds| && SplitDn(ds[a].dn) == p && forall k :: 0 <= k <= a ==> SplitDn(ds[k].dn) != q;
    assert (ds + [d])[a] == ds[a];
  }

  lemma LastComesAfter(ds: seq<Decln>, d: Decln, p: seq<string>)
    requires (exists e :: e in ds && SplitDn(e.dn) == p) && forall e :: e in ds ==> SplitDn(e.dn) != SplitDn(d.dn)
    ensures DeclaredBefore(ds + [d], p, SplitDn(d.dn))
  {
    hide SplitDn;
    var e :| e in ds && SplitDn(e.dn) == p;
    var a :| 0 <= a < |ds| && ds[a] == e;
    assert (ds + [d])[a] == e;
    forall k | 0 <= k <= a ensures SplitDn((ds + [d])[k].dn) != SplitDn(d.dn) { assert (ds + [d])[k] == ds[k] && ds[k] in ds; }
  }

  /** An object first declared before another comes before it. */
  lemma {:induction false} FirstsInOrder(ds: seq<Decln>, i: nat, j: nat)
    requires i < j < |Firsts(ds)|
    ensures DeclaredBefore(ds, Firsts(ds)[i], Firsts(ds)[j])
  {
    var init, last := ds[..|ds| - 1], ds[|ds| - 1];
    assert ds == init + [last];
    var before, all := Firsts(init), Firsts(ds);
    assert all == before || (all == before + [SplitDn(last.dn)] && SplitDn(last.dn) !in before);
    assert forall e :: e in init ==> SplitDn(e.dn) in before;
    hide SplitDn, Firsts, DeclaredBefore;
    if j < |before| {
      FirstsInOrder(init, i, j);
      StillBefore(init, last, before[i], before[j]);
    } else {
      assert before[i] in before;
      LastComesAfter(init, last, before[i]);
    }
  }

  lemma FirstsListed(m: Models, byDn: Merged, ds: seq<Decln>)
    requires Represents(m, byDn, ds) && DeclaresAt(ds, "uni")
    ensures Lists(Firsts(ds), HeldMerged(m, byDn))
  {
    var held := HeldMerged(m, byDn);
    hide HeldMerged;
    forall p | p in Firsts(ds) ensures p in held {
      var d :| d in ds && SplitDn(d.dn) == p;
      HeldAt(m, byDn, d.dn);
    }
    forall p | p in held ensures p in Firsts(ds) {
      var dn := HeldFrom(m, byDn, p);
      assert DeclaresAt(ds, dn);
    }
  }

  lemma UniHeld(m: Models, byDn: Merged)
    requires RootKept(byDn)
    ensures ["uni"] in HeldMerged(m, byDn)
  {
    UniSegment();
    HeldAt(m, byDn, "uni");
  }

  /** Merged objects stand at paths of RNs. */
  lemma {:induction false} HeldIsPath(m: Models, byDn: Merged, ds: seq<Decln>, p: seq<string>)
    requires Represents(m, byDn, ds) && Anchored(ds) && p in HeldMerged(m, byDn)
    ensures IsPath(p)
    decreases |p|
  {
    hide Represents, Anchored, HeldMerged;
    S.UniIsGood();
    UpHeld(m, byDn, ds, p);
    if p != ["uni"] { HeldIsPath(m, byDn, ds, p[..|p| - 1]); }
  }

  /** The tree `merge` returns: the merged objects, each first declared first, under the object above it. */
  function TreeOf(m: Models, byDn: Merged, ds: seq<Decln>): Node
    requires Represents(m, byDn, ds) && DeclaresAt(ds, "uni")
  {
    FirstsListed(m, byDn, ds);
    UniHeld(m, byDn);
    BuildTree(HeldMerged(m, byDn), Firsts(ds), ["uni"])
  }

  lemma TreeIsMerged(m: Models, byDn: Merged, ds: seq<Decln>)
    requires Represents(m, byDn, ds) && DeclaresAt(ds, "uni") && Anchored(ds)
    ensures MergedTree(m, byDn, TreeOf(m, byDn, ds))
  {
    var held, order := HeldMerged(m, byDn), Firsts(ds);
    FirstsListed(m, byDn, ds);
    UniHeld(m, byDn);
    UniSegment();
    var root := BuildTree(held, order, ["uni"]);
    assert TreeOf(m, byDn, ds) == root;
    forall p | p in held ensures IsPath(p) { HeldIsPath(m, byDn, ds, p); }
    hide *;
    NothingHangs(held);
    BuiltPictures(held, order, ["uni"]);
    BuiltWf(held, order, ["uni"], NO_RELATIONS);
    TreeTop(held, order, ["uni"]);
    MergedTreeIs(m, byDn, root);
  }

  lemma NothingHangs(held: Held)
    requires forall p :: p in held ==> IsPath(p)
    ensures RnKeys(held) && RelationsFit(held, NO_RELATIONS)
  {
  }

  lemma MergedTreeIs(m: Models, byDn: Merged, root: Node)
    requires root.rn == "uni" && WfEnv(CompileEnvelope(root, "uni", NO_RELATIONS)) && Pictures(HeldMerged(m, byDn), ["uni"], root)
    ensures MergedTree(m, byDn, root)
  {
  }

  /**
   * `merge`, then `compile_envelope`: an envelope exactly when there are two designs and no
   * contradiction, and posting it leaves what posting the designs in turn leaves.
   */
  method CompileMerged(m: Models, designs: seq<Source>) returns (r: Option<Env>)
    requires forall s :: s in designs ==> WfSource(s) && s.rn == "uni" && s.cls == "polUni"
    ensures r.Some? <==> |designs| >= 2 && Fold(m, EMPTY, AllDeclared(designs)).ok
    ensures r.Some? && NamingApart(m, AllDeclared(designs)) ==>
              forall objects: Objects :: CanonStore(m, Apply(objects, Writes(r.value, ""))) == CanonStore(m, PushEach(m, objects, designs))
  {
    var merged := MergeDesigns(m, designs);
    if !merged.MergedInto? { return None; }
    var ds := AllDeclared(designs);
    FirstDeclaresRoot(designs);
    DesignsAnchored(designs);
    MergeRepresents(m, ds);
    TreeIsMerged(m, merged.byDn, ds);
    var root := TreeOf(m, merged.byDn, ds);
    hide *;
    if NamingApart(m, ds) {
      forall objects: Objects
        ensures CanonStore(m, Apply(objects, S.StrictWrites(root, NO_RELATIONS))) == CanonStore(m, PushEach(m, objects, designs))
      {
        MergedPayloadMeansAll(m, objects, designs, root);
      }
    }
    MergedEnvelope(m, merged.byDn, root);
    r := Some(CompileEnvelope(root, "uni", NO_RELATIONS));
  }

  lemma MergedEnvelope(m: Models, byDn: Merged, root: Node)
    requires MergedTree(m, byDn, root)
    ensures S.StrictWrites(root, NO_RELATIONS) == Writes(CompileEnvelope(root, "uni", NO_RELATIONS), "")
  {
    S.UniIsGood();
  }
}
