/** Ingesting a merged design and ingesting its sources in turn leave the same store (`_compose.py`). */
module MergePush {
  import opened Text
  import opened Dn
  import opened Store
  import opened Merge
  import opened MergeMeaning

  /** The upsert of one declared object; the raw channel is merged last. */
  function WriteOf(m: Models, d: Decln): Write {
    Write(d.dn, d.cls, m.naming(d.cls, d.dn) + d.typed + d.raw)
  }

  /** A push writes each attribute once: the raw value if there is one, then the typed one, then the naming. */
  lemma WriteOfSays(m: Models, d: Decln, wire: string)
    ensures WriteOf(m, d).dn == d.dn && WriteOf(m, d).cls == d.cls
    ensures wire in WriteOf(m, d).attrs <==> wire in d.raw || wire in d.typed || wire in m.naming(d.cls, d.dn)
    ensures wire in WriteOf(m, d).attrs ==>
              WriteOf(m, d).attrs[wire] == if wire in d.raw then d.raw[wire] else if wire in d.typed then d.typed[wire] else m.naming(d.cls, d.dn)[wire]
  {
  }

  function PushWrites(m: Models, ds: seq<Decln>): seq<Write> {
    seq(|ds|, i requires 0 <= i < |ds| => WriteOf(m, ds[i]))
  }

  /** A store read through the coercion of every value. */
  function CanonObj(m: Models, o: Obj): Obj {
    Obj(o.cls, map wire | wire in o.attrs :: m.canon(o.cls, wire, o.attrs[wire]))
  }

  function CanonStore(m: Models, objects: Objects): Objects {
    map dn | dn in objects :: CanonObj(m, objects[dn])
  }

  // ---- What a list of consistent upserts leaves

  ghost predicate Consistent2(m: Models, v: Write, w: Write) {
    v.dn == w.dn ==> v.cls == w.cls && forall wire :: wire in v.attrs && wire in w.attrs ==> Agree(m, v.cls, wire, v.attrs[wire], w.attrs[wire])
  }

  ghost predicate Consistent(m: Models, ws: seq<Write>) {
    forall v, w :: v in ws && w in ws ==> Consistent2(m, v, w)
  }

  /** The object says what the upsert says. */
  ghost predicate Shows(m: Models, o: Obj, w: Write) {
    o.cls == w.cls && forall wire :: wire in w.attrs ==> wire in o.attrs && Agree(m, w.cls, wire, o.attrs[wire], w.attrs[wire])
  }

  lemma ApplySnoc(objects: Objects, ws: seq<Write>, w: Write)
    ensures Apply(objects, ws + [w]) == Upsert(Apply(objects, ws), w)
  {
    ApplyConcat(objects, ws, [w]);
    assert Apply(Apply(objects, ws), [w]) == Apply(Upsert(Apply(objects, ws), w), []) by { assert [w][1..] == []; }
  }

  lemma ConsistentInit(m: Models, ws: seq<Write>, w: Write)
    requires Consistent(m, ws + [w])
    ensures Consistent(m, ws) && forall v :: v in ws ==> Consistent2(m, v, w) && Consistent2(m, w, v)
  {
    assert forall v :: v in ws ==> v in ws + [w];
    assert w in ws + [w];
  }

  lemma {:induction false} AppliedShows(m: Models, objects: Objects, ws: seq<Write>, w: Write)
    requires Consistent(m, ws) && w in ws
    ensures w.dn in Apply(objects, ws) && Shows(m, Apply(objects, ws)[w.dn], w)
    decreases |ws|
  {
    var init, last := ws[..|ws| - 1], ws[|ws| - 1];
    assert ws == init + [last];
    ConsistentInit(m, init, last);
    ApplySnoc(objects, init, last);
    hide Apply, Consistent;
    if w in init {
      AppliedShows(m, objects, init, w);
      assert Consistent2(m, last, w);
    }
  }

  /** The upserts leave alone what none of them sets. */
  lemma {:induction false} AppliedElsewhere(objects: Objects, ws: seq<Write>, dn: string, wire: string)
    requires forall w :: w in ws && w.dn == dn ==> wire !in w.attrs
    ensures dn in Apply(objects, ws) <==> dn in objects || Touches(ws, dn)
    ensures dn in Apply(objects, ws) ==>
              (wire in Apply(objects, ws)[dn].attrs <==> dn in objects && wire in objects[dn].attrs)
    ensures dn in Apply(objects, ws) && wire in Apply(objects, ws)[dn].attrs ==> Apply(objects, ws)[dn].attrs[wire] == objects[dn].attrs[wire]
    ensures dn in Apply(objects, ws) && !Touches(ws, dn) ==> Apply(objects, ws)[dn] == objects[dn]
    decreases |ws|
  {
    if ws != [] {
      var init, last := ws[..|ws| - 1], ws[|ws| - 1];
      assert ws == init + [last];
      assert last in ws && forall w :: w in init ==> w in ws;
      AppliedElsewhere(objects, init, dn, wire);
      ApplySnoc(objects, init, last);
      TouchesSnoc(init, last, dn);
      hide Apply, Touches;
    }
  }

  lemma TouchesSnoc(ws: seq<Write>, w: Write, dn: string)
    ensures Touches(ws + [w], dn) <==> Touches(ws, dn) || w.dn == dn
  {
    if Touches(ws, dn) { var v :| v in ws && v.dn == dn; assert v in ws + [w]; }
    if w.dn == dn { assert w in ws + [w]; }
  }

  // ---- Two lists saying the same

  /** Some upsert of the list sets the attribute of the object to an agreeing value. */
  ghost predicate SaysValue(m: Models, ws: seq<Write>, dn: string, cls: string, wire: string, value: string) {
    exists v :: v in ws && v.dn == dn && v.cls == cls && wire in v.attrs && Agree(m, cls, wire, v.attrs[wire], value)
  }

  ghost predicate SaysClass(ws: seq<Write>, dn: string, cls: string) {
    exists v :: v in ws && v.dn == dn && v.cls == cls
  }

  ghost predicate Says(m: Models, ws: seq<Write>, w: Write) {
    && SaysClass(ws, w.dn, w.cls)
    && forall wire :: wire in w.attrs ==> SaysValue(m, ws, w.dn, w.cls, wire, w.attrs[wire])
  }

  ghost predicate SameSayings(m: Models, a: seq<Write>, b: seq<Write>) {
    (forall w :: w in a ==> Says(m, b, w)) && (forall w :: w in b ==> Says(m, a, w))
  }

  lemma TouchedAlike(m: Models, a: seq<Write>, b: seq<Write>, dn: string)
    requires forall w :: w in a ==> Says(m, b, w)
    ensures Touches(a, dn) ==> Touches(b, dn)
  {
    if Touches(a, dn) {
      var w :| w in a && w.dn == dn;
      assert SaysClass(b, w.dn, w.cls);
    }
  }

  lemma SameAt(m: Models, objects: Objects, a: seq<Write>, b: seq<Write>, dn: string, wire: string)
    requires Consistent(m, a) && Consistent(m, b) && SameSayings(m, a, b)
    ensures var x, y := Apply(objects, a), Apply(objects, b);
            && (dn in x <==> dn in y)
            && (dn in x ==> x[dn].cls == y[dn].cls && (wire in x[dn].attrs <==> wire in y[dn].attrs))
            && (dn in x && wire in x[dn].attrs ==> Agree(m, x[dn].cls, wire, x[dn].attrs[wire], y[dn].attrs[wire]))
  {
    TouchedAlike(m, a, b, dn);
    TouchedAlike(m, b, a, dn);
    PresentAndClass(m, objects, a, b, dn);
    if w :| w in a && w.dn == dn && wire in w.attrs {
      SaidAt(m, objects, a, b, w, wire);
    } else if w :| w in b && w.dn == dn && wire in w.attrs {
      SaidAt(m, objects, b, a, w, wire);
    } else {
      hide Apply, Consistent, SameSayings;
      AppliedElsewhere(objects, a, dn, wire);
      AppliedElsewhere(objects, b, dn, wire);
    }
  }

  lemma SaidAt(m: Models, objects: Objects, a: seq<Write>, b: seq<Write>, w: Write, wire: string)
    requires Consistent(m, a) && Consistent(m, b) && Says(m, b, w) && w in a && wire in w.attrs
    ensures var x, y := Apply(objects, a), Apply(objects, b);
            && w.dn in x && w.dn in y && x[w.dn].cls == y[w.dn].cls
            && wire in x[w.dn].attrs && wire in y[w.dn].attrs
            && Agree(m, x[w.dn].cls, wire, x[w.dn].attrs[wire], y[w.dn].attrs[wire])
  {
    assert SaysValue(m, b, w.dn, w.cls, wire, w.attrs[wire]);
    var v :| v in b && v.dn == w.dn && v.cls == w.cls && wire in v.attrs && Agree(m, w.cls, wire, v.attrs[wire], w.attrs[wire]);
    hide Apply, Consistent, SaysValue;
    AppliedShows(m, objects, a, w);
    AppliedShows(m, objects, b, v);
  }

  lemma PresentAndClass(m: Models, objects: Objects, a: seq<Write>, b: seq<Write>, dn: string)
    requires Consistent(m, a) && Consistent(m, b) && (forall w :: w in a ==> Says(m, b, w))
    requires Touches(a, dn) <==> Touches(b, dn)
    ensures var x, y := Apply(objects, a), Apply(objects, b);
            (dn in x <==> dn in y) && (dn in x ==> x[dn].cls == y[dn].cls)
  {
    if Touches(a, dn) {
      var w :| w in a && w.dn == dn;
      assert Says(m, b, w);
      var v :| v in b && v.dn == w.dn && v.cls == w.cls;
      hide Apply, Consistent;
      AppliedShows(m, objects, a, w);
      AppliedShows(m, objects, b, v);
    } else {
      hide Apply, Consistent;
      Untouched(objects, a, dn);
      Untouched(objects, b, dn);
    }
  }

  lemma {:induction false} Untouched(objects: Objects, ws: seq<Write>, dn: string)
    requires !Touches(ws, dn)
    ensures dn in Apply(objects, ws) <==> dn in objects
    ensures dn in objects ==> Apply(objects, ws)[dn] == objects[dn]
  {
    assert forall w :: w in ws ==> w.dn != dn;
    AppliedElsewhere(objects, ws, dn, "");
  }

  /** Consistent lists that say the same leave the same store, values compared as they coerce. */
  lemma SameMeaning(m: Models, objects: Objects, a: seq<Write>, b: seq<Write>)
    requires Consistent(m, a) && Consistent(m, b) && SameSayings(m, a, b)
    ensures CanonStore(m, Apply(objects, a)) == CanonStore(m, Apply(objects, b))
  {
    var x, y := Apply(objects, a), Apply(objects, b);
    hide Apply, Consistent, SameSayings;
    forall dn ensures dn in x <==> dn in y { SameAt(m, objects, a, b, dn, ""); }
    forall dn | dn in x ensures CanonObj(m, x[dn]) == CanonObj(m, y[dn]) {
      SameAt(m, objects, a, b, dn, "");
      forall wire
        ensures wire in x[dn].attrs <==> wire in y[dn].attrs
        ensures wire in x[dn].attrs ==> m.canon(x[dn].cls, wire, x[dn].attrs[wire]) == m.canon(y[dn].cls, wire, y[dn].attrs[wire])
      {
        SameAt(m, objects, a, b, dn, wire);
      }
      assert CanonObj(m, x[dn]).attrs == CanonObj(m, y[dn]).attrs;
    }
  }

  // ---- The merged design says what its sources say

  /** No attribute of a declaration is one its class prints for its naming. */
  ghost predicate NamingApart(m: Models, ds: seq<Decln>) {
    forall d, wire :: d in ds && wire in m.naming(d.cls, d.dn) ==> wire !in d.typed && wire !in d.raw
  }

  /** Upserts of the merged objects, one each, in any order. */
  ghost predicate MergedWrites(m: Models, byDn: Merged, ws: seq<Write>) {
    && DistinctDns(ws)
    && (forall w :: w in ws ==> w.dn in byDn && w == WriteOf(m, byDn[w.dn]))
    && (forall dn :: dn in byDn ==> WriteOf(m, byDn[dn]) in ws)
  }

  lemma PushedIn(m: Models, ds: seq<Decln>, d: Decln)
    requires d in ds
    ensures WriteOf(m, d) in PushWrites(m, ds)
  {
    var i :| 0 <= i < |ds| && ds[i] == d;
    assert PushWrites(m, ds)[i] == WriteOf(m, d);
  }

  lemma PushedFrom(m: Models, ds: seq<Decln>, w: Write) returns (d: Decln)
    requires w in PushWrites(m, ds)
    ensures d in ds && w == WriteOf(m, d)
  {
    var i :| 0 <= i < |ds| && PushWrites(m, ds)[i] == w;
    d := ds[i];
  }

  /** What an upsert sets is the naming, or what the declaration sets. */
  lemma WireOf(m: Models, d: Decln, wire: string)
    requires wire in WriteOf(m, d).attrs
    ensures var v := WriteOf(m, d).attrs[wire];
            if wire in d.typed || wire in d.raw then Sets(d, wire, v) else wire in m.naming(d.cls, d.dn) && v == m.naming(d.cls, d.dn)[wire]
  {
  }

  lemma NamingNotSet(m: Models, ds: seq<Decln>, c: Decln, e: Decln, wire: string)
    requires NamingApart(m, ds) && Justified(ds, c) && (forall d :: d in ds && d.dn == c.dn ==> d.cls == c.cls)
    requires wire in m.naming(c.cls, c.dn)
    ensures wire !in c.typed && wire !in c.raw
  {
    assert forall w :: w in c.typed ==> TypedFrom(ds, c.dn, w, c.typed[w]);
    assert forall w :: w in c.raw ==> RawFrom(ds, c.dn, w, c.raw[w]);
  }

  lemma OneClass(m: Models, byDn: Merged, ds: seq<Decln>, dn: string)
    requires Represents(m, byDn, ds) && dn in byDn
    ensures byDn[dn].dn == dn && Justified(ds, byDn[dn]) && forall d :: d in ds && d.dn == dn ==> d.cls == byDn[dn].cls
  {
    forall d | d in ds && d.dn == dn ensures d.cls == byDn[dn].cls { ClassFrom(m, byDn, ds, dn, d); }
  }

  lemma PushIsConsistent(m: Models, byDn: Merged, ds: seq<Decln>)
    requires Represents(m, byDn, ds) && NamingApart(m, ds)
    ensures Consistent(m, PushWrites(m, ds))
  {
    var ws := PushWrites(m, ds);
    hide Represents, PushWrites;
    forall v, w | v in ws && w in ws ensures Consistent2(m, v, w) {
      var d := PushedFrom(m, ds, v);
      var e := PushedFrom(m, ds, w);
      if d.dn == e.dn { SamePush(m, byDn, ds, d, e); }
    }
  }

  lemma SamePush(m: Models, byDn: Merged, ds: seq<Decln>, d: Decln, e: Decln)
    requires Represents(m, byDn, ds) && NamingApart(m, ds) && d in ds && e in ds && d.dn == e.dn
    ensures Consistent2(m, WriteOf(m, d), WriteOf(m, e))
  {
    var v, w := WriteOf(m, d), WriteOf(m, e);
    assert Covers(m, byDn[d.dn], d) && Covers(m, byDn[d.dn], e);
    SameClassCovered(m, byDn[d.dn], d, e);
    hide WriteOf, Represents, Covers, Sets;
    assert v.cls == w.cls by { WriteOfParts(m, d); WriteOfParts(m, e); }
    forall wire | wire in v.attrs && wire in w.attrs ensures Agree(m, v.cls, wire, v.attrs[wire], w.attrs[wire]) {
      WireOf(m, d, wire);
      WireOf(m, e, wire);
      WriteOfParts(m, d);
      if wire !in m.naming(d.cls, d.dn) {
        CoveredAgree(m, byDn[d.dn], d, e, wire, v.attrs[wire], w.attrs[wire]);
      }
    }
  }

  lemma WriteOfParts(m: Models, d: Decln)
    ensures WriteOf(m, d).dn == d.dn && WriteOf(m, d).cls == d.cls
  {
  }

  lemma MergedIsConsistent(m: Models, byDn: Merged, ws: seq<Write>)
    requires MergedWrites(m, byDn, ws)
    ensures Consistent(m, ws)
  {
    forall v, w | v in ws && w in ws && v.dn == w.dn ensures v == w {
      var i :| 0 <= i < |ws| && ws[i] == v;
      var j :| 0 <= j < |ws| && ws[j] == w;
    }
  }

  /** What a source sets, the merged object sets. */
  lemma MergedSays(m: Models, byDn: Merged, ds: seq<Decln>, ws: seq<Write>, d: Decln)
    requires Represents(m, byDn, ds) && NamingApart(m, ds) && MergedWrites(m, byDn, ws) && d in ds
    ensures Says(m, ws, WriteOf(m, d))
  {
    var c := byDn[d.dn];
    var v, w := WriteOf(m, c), WriteOf(m, d);
    assert Covers(m, c, d);
    OneClass(m, byDn, ds, d.dn);
    assert v in ws;
    forall wire | wire in w.attrs ensures SaysValue(m, ws, w.dn, w.cls, wire, w.attrs[wire]) {
      WireOf(m, d, wire);
      if wire in d.typed || wire in d.raw {
        assert Carries(m, c, wire, w.attrs[wire]);
        assert Sets(d, wire, w.attrs[wire]);
      } else {
        NamingNotSet(m, ds, c, d, wire);
      }
      assert wire in v.attrs && Agree(m, w.cls, wire, v.attrs[wire], w.attrs[wire]) by { ChannelsApart(ds, c); }
    }
  }

  /** What the merged object sets, one of its sources sets. */
  lemma SourcesSay(m: Models, byDn: Merged, ds: seq<Decln>, dn: string)
    requires Represents(m, byDn, ds) && NamingApart(m, ds) && DeclaresAt(ds, "uni") && dn in byDn
    ensures Says(m, PushWrites(m, ds), WriteOf(m, byDn[dn]))
  {
    var c := byDn[dn];
    var w := WriteOf(m, c);
    OneClass(m, byDn, ds, dn);
    assert DeclaresAt(ds, dn);
    var d :| d in ds && d.dn == dn;
    PushedIn(m, ds, d);
    hide Represents, PushWrites;
    assert SaysClass(PushWrites(m, ds), w.dn, w.cls) by { WriteOfParts(m, d); WriteOfParts(m, c); }
    forall wire | wire in w.attrs ensures SaysValue(m, PushWrites(m, ds), w.dn, w.cls, wire, w.attrs[wire]) {
      WireOf(m, c, wire);
      if wire in c.typed || wire in c.raw {
        SourceSays(m, byDn, ds, c, wire);
      } else {
        assert wire in WriteOf(m, d).attrs && WriteOf(m, d).attrs[wire] == w.attrs[wire];
      }
    }
  }

  lemma SourceSays(m: Models, byDn: Merged, ds: seq<Decln>, c: Decln, wire: string)
    requires Represents(m, byDn, ds) && c.dn in byDn && c == byDn[c.dn] && (wire in c.typed || wire in c.raw)
    ensures SaysValue(m, PushWrites(m, ds), c.dn, c.cls, wire, WriteOf(m, c).attrs[wire])
  {
    var value := WriteOf(m, c).attrs[wire];
    OneClass(m, byDn, ds, c.dn);
    var d: Decln;
    if wire in c.raw {
      assert RawFrom(ds, c.dn, wire, c.raw[wire]);
      d :| d in ds && d.dn == c.dn && wire in d.raw && d.raw[wire] == c.raw[wire];
    } else {
      assert TypedFrom(ds, c.dn, wire, c.typed[wire]);
      d :| d in ds && d.dn == c.dn && wire in d.typed && d.typed[wire] == c.typed[wire];
    }
    PushedIn(m, ds, d);
    assert Covers(m, c, d) && Sets(d, wire, value);
    var own := WriteOf(m, d).attrs[wire];
    assert Sets(d, wire, own);
    hide Represents, PushWrites, Covers;
    CoveredAgree(m, c, d, d, wire, own, value);
  }

  /**
   * Ingesting a merge without contradiction leaves, in any store, what ingesting its sources one after
   * the other leaves, values compared as they coerce.
   */
  lemma MergeMeansSequentialPush(m: Models, objects: Objects, ds: seq<Decln>, ws: seq<Write>)
    requires Fold(m, EMPTY, ds).ok && NamingApart(m, ds) && DeclaresAt(ds, "uni")
    requires MergedWrites(m, Fold(m, EMPTY, ds).byDn, ws)
    ensures CanonStore(m, Apply(objects, ws)) == CanonStore(m, Apply(objects, PushWrites(m, ds)))
  {
    var byDn := Fold(m, EMPTY, ds).byDn;
    MergeRepresents(m, ds);
    hide Represents, MergedWrites, Fold, Apply, CanonStore, Says, NamingApart;
    MergedIsConsistent(m, byDn, ws);
    PushIsConsistent(m, byDn, ds);
    forall w | w in PushWrites(m, ds) ensures Says(m, ws, w) {
      var d := PushedFrom(m, ds, w);
      MergedSays(m, byDn, ds, ws, d);
    }
    forall w | w in ws ensures Says(m, PushWrites(m, ds), w) {
      MergedFrom(m, byDn, ws, w);
      SourcesSay(m, byDn, ds, w.dn);
    }
    SameMeaning(m, objects, ws, PushWrites(m, ds));
  }

  lemma MergedFrom(m: Models, byDn: Merged, ws: seq<Write>, w: Write)
    requires MergedWrites(m, byDn, ws) && w in ws
    ensures w.dn in byDn && w == WriteOf(m, byDn[w.dn])
  {
  }

  lemma PushedAlike(m: Models, ds: seq<Decln>, es: seq<Decln>, w: Write)
    requires (forall d :: d in ds ==> d in es) && w in PushWrites(m, ds)
    ensures w in PushWrites(m, es)
  {
    var d := PushedFrom(m, ds, w);
    PushedIn(m, es, d);
  }

  /** Lists with the same upserts leave the same. */
  lemma SameMembers(m: Models, objects: Objects, a: seq<Write>, b: seq<Write>)
    requires Consistent(m, a) && forall w :: w in a <==> w in b
    ensures CanonStore(m, Apply(objects, a)) == CanonStore(m, Apply(objects, b))
  {
    hide Apply, CanonStore, Says;
    ConsistentAlike(m, a, b);
    forall w | w in a ensures Says(m, a, w) && Says(m, b, w) { SaysItself(m, a, w); SaysItself(m, b, w); }
    SameMeaning(m, objects, a, b);
  }

  /** The order of the sources does not matter to what sequential pushes leave. */
  lemma PushOrderIrrelevant(m: Models, objects: Objects, ds: seq<Decln>, es: seq<Decln>)
    requires Fold(m, EMPTY, ds).ok && NamingApart(m, ds) && forall d :: d in ds <==> d in es
    ensures CanonStore(m, Apply(objects, PushWrites(m, ds))) == CanonStore(m, Apply(objects, PushWrites(m, es)))
  {
    var a, b := PushWrites(m, ds), PushWrites(m, es);
    MergeRepresents(m, ds);
    PushIsConsistent(m, Fold(m, EMPTY, ds).byDn, ds);
    hide *;
    forall w ensures w in a <==> w in b {
      if w in a { PushedAlike(m, ds, es, w); }
      if w in b { PushedAlike(m, es, ds, w); }
    }
    SameMembers(m, objects, a, b);
  }

  lemma ConsistentAlike(m: Models, a: seq<Write>, b: seq<Write>)
    requires Consistent(m, a) && forall w :: w in a <==> w in b
    ensures Consistent(m, b)
  {
  }

  lemma SaysItself(m: Models, ws: seq<Write>, w: Write)
    requires w in ws
    ensures Says(m, ws, w)
  {
    forall wire | wire in w.attrs ensures SaysValue(m, ws, w.dn, w.cls, wire, w.attrs[wire]) {
      assert Agree(m, w.cls, wire, w.attrs[wire], w.attrs[wire]);
    }
  }

  lemma PushConcat(m: Models, objects: Objects, a: seq<Decln>, b: seq<Decln>)
    ensures Apply(objects, PushWrites(m, a + b)) == Apply(Apply(objects, PushWrites(m, a)), PushWrites(m, b))
  {
    assert PushWrites(m, a + b) == PushWrites(m, a) + PushWrites(m, b);
    ApplyConcat(objects, PushWrites(m, a), PushWrites(m, b));
  }

  lemma DeclaredOfTwo(a: Source, b: Source)
    ensures AllDeclared([a, b]) == Declared(a, "uni") + Declared(b, "uni")
  {
    assert [a, b][..1] == [a] && [a][..0] == [];
    assert AllDeclared([a]) == Declared(a, "uni");
  }

  /** Two designs that merge: the merge, the first then the second, and the second then the first. */
  lemma MergeOfTwo(m: Models, objects: Objects, a: Source, b: Source, ws: seq<Write>)
    requires Fold(m, EMPTY, AllDeclared([a, b])).ok && NamingApart(m, AllDeclared([a, b]))
    requires MergedWrites(m, Fold(m, EMPTY, AllDeclared([a, b])).byDn, ws)
    ensures var x, y := PushWrites(m, Declared(a, "uni")), PushWrites(m, Declared(b, "uni"));
            CanonStore(m, Apply(objects, ws)) == CanonStore(m, Apply(Apply(objects, x), y)) == CanonStore(m, Apply(Apply(objects, y), x))
  {
    var da, db := Declared(a, "uni"), Declared(b, "uni");
    DeclaredOfTwo(a, b);
    assert da[0] in da + db && da[0].dn == "uni";
    assert DeclaresAt(da + db, "uni");
    hide Declared, PushWrites, Apply, CanonStore, Fold, NamingApart, MergedWrites;
    MergeMeansSequentialPush(m, objects, da + db, ws);
    PushOrderIrrelevant(m, objects, da + db, db + da);
    PushConcat(m, objects, da, db);
    PushConcat(m, objects, db, da);
  }

  // ---- Raw against raw is compared as spelled

  /** A design declaring one bridge domain, its attributes in either channel. */
  function BdDesign(tenant: string, bd: string, typed: map<string, string>, raw: map<string, string>): Source {
    Source("polUni", "uni", map[], map[], [],
           [Source("fvTenant", tenant, map[], map[], [], [Source("fvBD", bd, typed, raw, [], [])])])
  }

  function BdDeclns(tenant: string, bd: string, typed: map<string, string>, raw: map<string, string>): seq<Decln> {
    [Decln("uni", "polUni", map[], map[], []), Decln(Child("uni", tenant), "fvTenant", map[], map[], []),
     Decln(Child(Child("uni", tenant), bd), "fvBD", typed, raw, [])]
  }

  lemma OneDeclared(n: Source, at: string)
    ensures DeclaredAll([n], at) == Declared(n, Child(at, n.rn))
  {
    assert [n][..0] == [];
    assert n in [n];
  }

  lemma BdDeclared(tenant: string, bd: string, typed: map<string, string>, raw: map<string, string>)
    ensures Declared(BdDesign(tenant, bd, typed, raw), "uni") == BdDeclns(tenant, bd, typed, raw)
  {
    var root := BdDesign(tenant, bd, typed, raw);
    OneDeclared(root.children[0], "uni");
    OneDeclared(root.children[0].children[0], Child("uni", tenant));
  }

  lemma DeclaredOfThree(a: Source, b: Source, c: Source)
    ensures AllDeclared([a, b, c]) == Declared(a, "uni") + Declared(b, "uni") + Declared(c, "uni")
  {
    assert [a, b, c][..2] == [a, b];
    DeclaredOfTwo(a, b);
  }

  /** A list of declarations of that bridge domain, setting one attribute to one of two spellings. */
  ghost predicate OnlySpells(ds: seq<Decln>, tenant: string, bd: string, wire: string, a: string, b: string) {
    forall d :: d in ds ==>
      || (d.typed == map[] && d.raw == map[] && d.cls == "polUni" && d.dn == "uni")
      || (d.typed == map[] && d.raw == map[] && d.cls == "fvTenant" && d.dn == Child("uni", tenant))
      || (&& d.cls == "fvBD" && d.dn == Child(Child("uni", tenant), bd)
          && d.typed.Keys <= {wire} && d.raw.Keys <= {wire} && forall value :: Sets(d, wire, value) ==> value == a || value == b)
  }

  lemma SpellsNoContradiction(m: Models, ds: seq<Decln>, tenant: string, bd: string, wire: string, a: string, b: string)
    requires OnlySpells(ds, tenant, bd, wire, a, b) && Agree(m, "fvBD", wire, a, b)
    ensures !TwoClasses(ds) && !TwoValues(m, ds)
  {
    forall d, e, w, x, y | d in ds && e in ds && d.dn == e.dn && Sets(d, w, x) && Sets(e, w, y)
      ensures Agree(m, d.cls, w, x, y)
    {
      assert w == wire;
    }
  }

  /**
   * Two raw spellings of one value of a bridge domain make the verdict depend on the order of the
   * sources: after a typed declaration both agree with it, but met first they contradict each other.
   */
  lemma RawSpellingsMakeOrderMatter(m: Models, tenant: string, bd: string, wire: string, a: string, b: string)
    requires a != b && Agree(m, "fvBD", wire, a, b)
    ensures var t, r, s := BdDesign(tenant, bd, map[wire := a], map[]), BdDesign(tenant, bd, map[], map[wire := a]),
                           BdDesign(tenant, bd, map[], map[wire := b]);
            Fold(m, EMPTY, AllDeclared([t, r, s])).ok && !Fold(m, EMPTY, AllDeclared([r, s, t])).ok
  {
    var t, r, s := BdDesign(tenant, bd, map[wire := a], map[]), BdDesign(tenant, bd, map[], map[wire := a]),
                   BdDesign(tenant, bd, map[], map[wire := b]);
    BdDeclared(tenant, bd, map[wire := a], map[]);
    BdDeclared(tenant, bd, map[], map[wire := a]);
    BdDeclared(tenant, bd, map[], map[wire := b]);
    DeclaredOfThree(t, r, s);
    DeclaredOfThree(r, s, t);
    RefusedIffContradiction(m, [t, r, s]);
    RefusedIffContradiction(m, [r, s, t]);
    hide Fold, AllDeclared, Declared, BdDesign, TwoClasses, TwoValues;
    TypedFirst(m, tenant, bd, wire, a, b);
    RawFirst(tenant, bd, wire, a, b);
  }

  lemma TypedFirst(m: Models, tenant: string, bd: string, wire: string, a: string, b: string)
    requires Agree(m, "fvBD", wire, a, b)
    ensures var ds := BdDeclns(tenant, bd, map[wire := a], map[]) + BdDeclns(tenant, bd, map[], map[wire := a]) + BdDeclns(tenant, bd, map[], map[wire := b]);
            !TwoClasses(ds) && !TwoValues(m, ds) && !RawClash(ds)
  {
    var ds := BdDeclns(tenant, bd, map[wire := a], map[]) + BdDeclns(tenant, bd, map[], map[wire := a]) + BdDeclns(tenant, bd, map[], map[wire := b]);
    assert OnlySpells(ds, tenant, bd, wire, a, b);
    SpellsNoContradiction(m, ds, tenant, bd, wire, a, b);
    hide TwoClasses, TwoValues;
    assert ds[2] == Decln(Child(Child("uni", tenant), bd), "fvBD", map[wire := a], map[], []);
    forall i: nat, j: nat, w ensures !RespeltAt(ds, i, j, w) {}
  }

  lemma RawFirst(tenant: string, bd: string, wire: string, a: string, b: string)
    requires a != b
    ensures RawClash(BdDeclns(tenant, bd, map[], map[wire := a]) + BdDeclns(tenant, bd, map[], map[wire := b]) + BdDeclns(tenant, bd, map[wire := a], map[]))
  {
    var ds := BdDeclns(tenant, bd, map[], map[wire := a]) + BdDeclns(tenant, bd, map[], map[wire := b]) + BdDeclns(tenant, bd, map[wire := a], map[]);
    assert ds[2] == Decln(Child(Child("uni", tenant), bd), "fvBD", map[], map[wire := a], []);
    assert ds[5] == Decln(Child(Child("uni", tenant), bd), "fvBD", map[], map[wire := b], []);
    assert ds[0].dn == "uni" && ds[1].dn == Child("uni", tenant);
    assert FirstRaw(ds, 2, wire);
    assert RespeltAt(ds, 2, 5, wire);
  }
}
