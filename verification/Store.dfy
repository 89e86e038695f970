/** Envelopes and the DN-indexed store a push is ingested into (`docs/conftest.py`, `FakeApic`). */
module Store {
  import opened Text
  import opened Dn

  /** One nested envelope; `rn` is the RN its class computes from its naming attributes. */
  datatype Env = Env(cls: string, rn: string, attrs: map<string, string>, children: seq<Env>)

  /** A relation object the resolver attaches under a node. */
  datatype Rs = Rs(cls: string, rn: string, attrs: map<string, string>)

  datatype Obj = Obj(cls: string, attrs: map<string, string>)

  type Objects = map<string, Obj>

  datatype Write = Write(dn: string, cls: string, attrs: map<string, string>)

  function Upsert(objects: Objects, w: Write): Objects {
    objects[w.dn := Obj(w.cls, (if w.dn in objects then objects[w.dn].attrs else map[]) + w.attrs)]
  }

  function Apply(objects: Objects, ws: seq<Write>): Objects
    decreases |ws|
  {
    if ws == [] then objects else Apply(Upsert(objects, ws[0]), ws[1..])
  }

  /** The upserts one envelope stands for, parents first. */
  function Writes(e: Env, parentDn: string): seq<Write>
    decreases e, 0
  {
    var dn := EnvDn(e, parentDn);
    [Write(dn, e.cls, e.attrs)] + WritesAll(e.children, dn)
  }

  function WritesAll(es: seq<Env>, parentDn: string): seq<Write>
    decreases es
  {
    if es == [] then [] else Writes(es[0], parentDn) + WritesAll(es[1..], parentDn)
  }

  function EnvDn(e: Env, parentDn: string): string {
    if parentDn == "" then e.rn else Child(parentDn, e.rn)
  }

  function RStripSlash(s: string): string {
    if s != "" && s[|s| - 1] == '/' then RStripSlash(s[..|s| - 1]) else s
  }

  /** The parent DN `_post` derives from the request DN and the RN of the payload. */
  function PostParent(urlDn: string, rn: string): string {
    if |rn| <= |urlDn| && urlDn[|urlDn| - |rn|..] == rn
    then RStripSlash(urlDn[..|urlDn| - |rn|])
    else urlDn
  }

  /** Puts the flags of a value in an order of the store's own choosing, class by class. */
  type Reorder = (string, map<string, string>) -> map<string, string>

  /** The upserts as they are stored. */
  function Stored(reorder: Reorder, ws: seq<Write>): (r: seq<Write>)
    ensures |r| == |ws|
  {
    seq(|ws|, i requires 0 <= i < |ws| => ws[i].(attrs := reorder(ws[i].cls, ws[i].attrs)))
  }

  class FakeApic {
    const reorder: Reorder
    var store: Objects

    constructor (reorder: Reorder)
      ensures this.reorder == reorder && store == map[]
    {
      this.reorder := reorder;
      store := map[];
    }

    method Ingest(e: Env, parentDn: string)
      modifies this
      ensures store == Apply(old(store), Stored(reorder, Writes(e, parentDn)))
      decreases e, 0
    {
      var dn := EnvDn(e, parentDn);
      var attrs := reorder(e.cls, e.attrs);
      var existing := if dn in store then store[dn].attrs else map[];
      store := store[dn := Obj(e.cls, existing + attrs)];
      ghost var own := Write(dn, e.cls, attrs);
      assert store == Upsert(old(store), own);
      IngestChildren(e.children, dn);
      assert Stored(reorder, Writes(e, parentDn)) == [own] + Stored(reorder, WritesAll(e.children, dn));
    }

    method IngestChildren(es: seq<Env>, dn: string)
      modifies this
      ensures store == Apply(old(store), Stored(reorder, WritesAll(es, dn)))
      decreases es
    {
      for i := 0 to |es|
        invariant store == Apply(old(store), Stored(reorder, WritesAll(es[..i], dn)))
      {
        Ingest(es[i], dn);
        WritesAllSnoc(es, i, dn);
        hide Stored;
        StoredConcat(reorder, WritesAll(es[..i], dn), Writes(es[i], dn));
        ApplyConcat(old(store), Stored(reorder, WritesAll(es[..i], dn)), Stored(reorder, Writes(es[i], dn)));
      }
      assert es[..|es|] == es;
    }

    method Post(urlDn: string, e: Env)
      modifies this
      ensures store == Apply(old(store), Stored(reorder, Writes(e, PostParent(urlDn, e.rn))))
    {
      Ingest(e, PostParent(urlDn, e.rn));
    }

    method Delete(dn: string)
      modifies this
      ensures store == Remove(old(store), dn)
      ensures forall d :: d in store <==> d in old(store) && d != dn && !(dn + "/" <= d)
      ensures forall d :: d in store ==> store[d] == old(store)[d]
    {
      store := map d | d in store && !(d == dn || Below(dn, d)) :: store[d];
    }
  }

  lemma StoredConcat(reorder: Reorder, a: seq<Write>, b: seq<Write>)
    ensures Stored(reorder, a + b) == Stored(reorder, a) + Stored(reorder, b)
  {
  }

  function Remove(objects: Objects, dn: string): Objects {
    map d | d in objects && !(d == dn || Below(dn, d)) :: objects[d]
  }

  lemma {:induction false} WritesAllConcat(a: seq<Env>, b: seq<Env>, dn: string)
    ensures WritesAll(a + b, dn) == WritesAll(a, dn) + WritesAll(b, dn)
  {
    if a == [] {
      assert a + b == b;
    } else {
      assert (a + b)[1..] == a[1..] + b;
      WritesAllConcat(a[1..], b, dn);
    }
  }

  lemma WritesAllSnoc(es: seq<Env>, i: nat, dn: string)
    requires i < |es|
    ensures WritesAll(es[..i + 1], dn) == WritesAll(es[..i], dn) + Writes(es[i], dn)
  {
    assert es[..i + 1] == es[..i] + [es[i]];
    WritesAllConcat(es[..i], [es[i]], dn);
    assert WritesAll([es[i]], dn) == Writes(es[i], dn) + [];
  }

  lemma {:induction false} ApplyConcat(objects: Objects, a: seq<Write>, b: seq<Write>)
    ensures Apply(objects, a + b) == Apply(Apply(objects, a), b)
    decreases |a|
  {
    if a == [] {
      assert a + b == b;
    } else {
      assert (a + b)[1..] == a[1..] + b;
      ApplyConcat(Upsert(objects, a[0]), a[1..], b);
    }
  }

  // ---- Order does not matter when no DN is written twice

  ghost predicate DistinctDns(ws: seq<Write>) {
    forall i, j :: 0 <= i < j < |ws| ==> ws[i].dn != ws[j].dn
  }

  ghost predicate Apart(a: seq<Write>, b: seq<Write>) {
    forall v, w :: v in a && w in b ==> v.dn != w.dn
  }

  lemma DistinctConcat(a: seq<Write>, b: seq<Write>)
    requires DistinctDns(a) && DistinctDns(b) && Apart(a, b)
    ensures DistinctDns(a + b)
  {
    forall i, j | 0 <= i < j < |a + b| ensures (a + b)[i].dn != (a + b)[j].dn {
      if i < |a| <= j { assert a[i] in a && b[j - |a|] in b; }
    }
  }

  ghost predicate Touches(ws: seq<Write>, dn: string) {
    exists w :: w in ws && w.dn == dn
  }

  /** Each written DN holds its own upsert; every other DN keeps its object. */
  lemma {:induction false} ApplyLookup(objects: Objects, ws: seq<Write>)
    requires DistinctDns(ws)
    ensures forall w :: w in ws ==> w.dn in Apply(objects, ws) && Apply(objects, ws)[w.dn] == Upsert(objects, w)[w.dn]
    ensures forall dn :: !Touches(ws, dn) ==>
              (dn in Apply(objects, ws) <==> dn in objects) &&
              (dn in objects ==> Apply(objects, ws)[dn] == objects[dn])
    decreases |ws|
  {
    if ws != [] {
      var next := Upsert(objects, ws[0]);
      var rest := ws[1..];
      ApplyLookup(next, rest);
      assert forall w :: w in rest ==> w.dn != ws[0].dn;
      assert !Touches(rest, ws[0].dn);
      assert forall w :: w in ws ==> w == ws[0] || w in rest;
      forall dn | !Touches(ws, dn)
        ensures (dn in Apply(objects, ws) <==> dn in objects) && (dn in objects ==> Apply(objects, ws)[dn] == objects[dn])
      {
        assert ws[0] in ws;
        assert forall w :: w in rest ==> w in ws;
        assert !Touches(rest, dn);
      }
    }
  }

  lemma DistinctIsMultiset(a: seq<Write>, b: seq<Write>)
    requires DistinctDns(a) && multiset(a) == multiset(b)
    ensures DistinctDns(b)
  {
    forall i, j | 0 <= i < j < |b| ensures b[i].dn != b[j].dn {
      if b[i].dn == b[j].dn {
        assert b[i] in multiset(b) && b[j] in multiset(b);
        var k :| 0 <= k < |a| && a[k] == b[i];
        var l :| 0 <= l < |a| && a[l] == b[j];
        assert k == l;
        TwiceInMultiset(b, i, j);
        OnceInMultiset(a, k);
        assert false;
      }
    }
  }

  lemma TwiceInMultiset(ws: seq<Write>, i: nat, j: nat)
    requires i < j < |ws| && ws[i] == ws[j]
    ensures multiset(ws)[ws[i]] >= 2
  {
    assert ws == ws[..i] + [ws[i]] + ws[i + 1..j] + [ws[j]] + ws[j + 1..];
  }

  lemma OnceInMultiset(ws: seq<Write>, k: nat)
    requires DistinctDns(ws) && k < |ws|
    ensures multiset(ws)[ws[k]] == 1
  {
    assert ws == ws[..k] + [ws[k]] + ws[k + 1..];
    assert ws[k] !in ws[..k] && ws[k] !in ws[k + 1..];
  }

  lemma SameObjectAt(objects: Objects, a: seq<Write>, b: seq<Write>, dn: string)
    requires DistinctDns(a) && DistinctDns(b)
    requires forall w :: w in a <==> w in b
    ensures dn in Apply(objects, a) <==> dn in Apply(objects, b)
    ensures dn in Apply(objects, a) ==> Apply(objects, a)[dn] == Apply(objects, b)[dn]
  {
    ApplyLookup(objects, a);
    ApplyLookup(objects, b);
    if Touches(a, dn) {
      var w :| w in a && w.dn == dn;
      assert w in b;
    } else {
      assert !Touches(b, dn);
    }
  }

  /** Upserts to distinct DNs commute: any order gives one store. */
  lemma ApplyAnyOrder(objects: Objects, a: seq<Write>, b: seq<Write>)
    requires DistinctDns(a) && multiset(a) == multiset(b)
    ensures Apply(objects, a) == Apply(objects, b)
  {
    DistinctIsMultiset(a, b);
    assert forall w :: w in a <==> w in multiset(a);
    assert forall w :: w in b <==> w in multiset(b);
    forall dn
      ensures dn in Apply(objects, a) <==> dn in Apply(objects, b)
      ensures dn in Apply(objects, a) ==> Apply(objects, a)[dn] == Apply(objects, b)[dn]
    {
      SameObjectAt(objects, a, b, dn);
    }
  }

  /** A POST at a child DN is ingested under the parent of that DN. */
  lemma PostParentOfChild(parentDn: string, rn: string)
    requires parentDn != "" && parentDn[|parentDn| - 1] != '/'
    ensures PostParent(Child(parentDn, rn), rn) == parentDn
  {
    var dn := Child(parentDn, rn);
    assert dn[|dn| - |rn|..] == rn;
    assert dn[..|dn| - |rn|] == parentDn + "/";
    assert RStripSlash(parentDn + "/") == RStripSlash((parentDn + "/")[..|parentDn|]);
  }
}
