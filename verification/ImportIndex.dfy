/** The importer's index of a design's snapshot, and the lookup on it (`_Importer.index`, `_scoped_winner`). */
module ImportIndex {
  import opened Text
  import opened Dn
  import opened Store
  import opened Compiler
  import opened Resolver
  import opened References
  import opened Footprint
  import opened Importer
  import S = Staged

  /** The object written at this DN has this class and primary name. */
  predicate Fits(formats: Formats, w: Write, cls: string, name: string) {
    w.cls == cls && name != "" && PrimaryName(formats, cls, RnOf(w.dn)) == name
  }

  /** The DNs a list of writes has under a class and primary name. */
  function Picked(formats: Formats, ws: seq<Write>, cls: string, name: string): seq<string> {
    if ws == [] then []
    else Picked(formats, ws[..|ws| - 1], cls, name) + if Fits(formats, ws[|ws| - 1], cls, name) then [ws[|ws| - 1].dn] else []
  }

  lemma {:induction false} PickedConcat(formats: Formats, a: seq<Write>, b: seq<Write>, cls: string, name: string)
    ensures Picked(formats, a + b, cls, name) == Picked(formats, a, cls, name) + Picked(formats, b, cls, name)
  {
    hide Fits;
    if b == [] {
      assert a + b == a;
    } else {
      PickedConcat(formats, a, b[..|b| - 1], cls, name);
      assert (a + b)[..|a + b| - 1] == a + b[..|b| - 1];
    }
  }

  lemma {:induction false} PickedMember(formats: Formats, ws: seq<Write>, cls: string, name: string, x: string)
    ensures x in Picked(formats, ws, cls, name) <==> exists w :: w in ws && w.dn == x && Fits(formats, w, cls, name)
  {
    if ws != [] {
      hide Fits;
      PickedMember(formats, ws[..|ws| - 1], cls, name, x);
      assert forall w :: w in ws <==> w in ws[..|ws| - 1] || w == ws[|ws| - 1] by { assert ws == ws[..|ws| - 1] + [ws[|ws| - 1]]; }
    }
  }

  lemma {:induction false} PickedOnce(formats: Formats, ws: seq<Write>, cls: string, name: string)
    requires DistinctDns(ws)
    ensures NoRepeat(Picked(formats, ws, cls, name))
  {
    if ws != [] {
      var init, last := ws[..|ws| - 1], ws[|ws| - 1];
      hide Fits;
      PickedOnce(formats, init, cls, name);
      forall x | x in Picked(formats, init, cls, name) ensures x != last.dn {
        PickedMember(formats, init, cls, name, x);
        var w :| w in init && w.dn == x && Fits(formats, w, cls, name);
        var i :| 0 <= i < |init| && init[i] == w;
        assert ws[i] == w;
      }
      if Fits(formats, last, cls, name) { ConcatNoRepeat(Picked(formats, init, cls, name), [last.dn]); }
    }
  }

  // ---- Indexing a tree lists its writes

  lemma {:induction false} NamedIsPicked(formats: Formats, t: Env, at: string, parentDn: string, cls: string, name: string)
    requires WfEnv(t) && GoodDn(at) && RnOf(at) == t.rn && EnvDn(t, parentDn) == at
    ensures NamedIn(formats, t, at, cls, name) == Picked(formats, Writes(t, parentDn), cls, name)
    decreases t, 0
  {
    var own := Write(at, t.cls, t.attrs);
    OwnPicked(formats, t, at, cls, name);
    WfChildren(t);
    NamedAllPicked(formats, t.children, at, cls, name);
    assert Writes(t, parentDn) == [own] + WritesAll(t.children, at);
    hide *;
    PickedConcat(formats, [own], WritesAll(t.children, at), cls, name);
    NamedParts(formats, t, at, cls, name);
  }

  lemma NamedParts(formats: Formats, t: Env, at: string, cls: string, name: string)
    ensures NamedIn(formats, t, at, cls, name) ==
            (if IsNamed(formats, t, cls, name) then [at] else []) + NamedAll(formats, t.children, at, cls, name)
  {
    hide NamedAll, PrimaryName;
  }

  lemma OwnPicked(formats: Formats, t: Env, at: string, cls: string, name: string)
    requires RnOf(at) == t.rn
    ensures Picked(formats, [Write(at, t.cls, t.attrs)], cls, name) == if IsNamed(formats, t, cls, name) then [at] else []
  {
    var own := Write(at, t.cls, t.attrs);
    assert [own][..0] == [];
    hide PrimaryName;
  }

  lemma WfChildren(t: Env)
    requires WfEnv(t)
    ensures forall c :: c in t.children ==> WfEnv(c)
  {
  }

  lemma {:induction false} NamedAllPicked(formats: Formats, ts: seq<Env>, at: string, cls: string, name: string)
    requires GoodDn(at) && forall t :: t in ts ==> WfEnv(t)
    ensures NamedAll(formats, ts, at, cls, name) == Picked(formats, WritesAll(ts, at), cls, name)
    decreases ts
  {
    if ts != [] {
      var n := |ts| - 1;
      var last := ts[n];
      assert ts[..n + 1] == ts && last in ts;
      LastIsRn(last);
      GoodChild(at, last.rn);
      NamedAllPicked(formats, ts[..n], at, cls, name);
      NamedIsPicked(formats, last, Child(at, last.rn), at, cls, name);
      hide *;
      NamedSnoc(formats, ts, n, at, cls, name);
      WritesAllSnoc(ts, n, at);
      PickedConcat(formats, WritesAll(ts[..n], at), Writes(last, at), cls, name);
    }
  }

  lemma LastIsRn(t: Env)
    requires WfEnv(t)
    ensures IsRn(t.rn)
  {
  }

  /** The index holds under each class and name the DNs these writes have there. */
  ghost predicate Lists(formats: Formats, names: Names, ws: seq<Write>) {
    forall c, n :: DnsOf(names, c, n) == Picked(formats, ws, c, n)
  }

  /** An index of distinct objects lists each once, under one class and name. */
  lemma ListsOnce(formats: Formats, names: Names, ws: seq<Write>)
    requires Lists(formats, names, ws) && DistinctDns(ws)
    ensures IndexedOnce(names)
  {
    hide DnsOf, Picked, Fits;
    forall c, n ensures NoRepeat(DnsOf(names, c, n)) { PickedOnce(formats, ws, c, n); }
    forall c, e, n, m, x | x in DnsOf(names, c, n) && x in DnsOf(names, e, m) ensures c == e && n == m {
      OneEntry(formats, ws, c, e, n, m, x);
    }
  }

  lemma OneEntry(formats: Formats, ws: seq<Write>, c: string, e: string, n: string, m: string, x: string)
    requires DistinctDns(ws) && x in Picked(formats, ws, c, n) && x in Picked(formats, ws, e, m)
    ensures c == e && n == m
  {
    PickedMember(formats, ws, c, n, x);
    PickedMember(formats, ws, e, m, x);
    var v :| v in ws && v.dn == x && Fits(formats, v, c, n);
    var w :| w in ws && w.dn == x && Fits(formats, w, e, m);
    var i :| 0 <= i < |ws| && ws[i] == v;
    var j :| 0 <= j < |ws| && ws[j] == w;
    hide PrimaryName;
    assert i == j;
  }

  // ---- The snapshot of a design

  /** The primary name of each declared object is what its RN says in the format of its class. */
  ghost predicate NamedByRn(formats: Formats, d: Design) {
    forall p :: p in d && p != [] ==> PrimaryName(formats, d[p].cls, p[|p| - 1]) == d[p].name
  }

  /** No class of these is the class of a relation of the design. */
  ghost predicate NotRelations(sch: Schema, d: Design, classes: set<string>) {
    forall land, rs :: Emitted(sch, d, land, rs) ==> rs.cls !in classes
  }

  lemma RnOfPath(q: Path)
    requires IsPath(q)
    ensures RnOf(JoinDn(q)) == q[|q| - 1]
  {
    PathRoundTrip(q);
  }

  /** The index of the snapshot of a design holds, of these classes, the named objects of the design. */
  lemma IndexedDesign(sch: Schema, d: Design, root: Node, extras: Compiler.Extras, formats: Formats, names: Names, classes: set<string>)
    requires Compiled(sch, d, root, extras) && Resolves(sch, d)
    requires NamedByRn(formats, d) && NotRelations(sch, d, classes) && Lists(formats, names, S.StrictWrites(root, extras))
    ensures SameNamed(d, names, classes)
  {
    hide *;
    forall c, n, x | c in classes
      ensures x in DnsOf(names, c, n) <==> exists p :: p in d && JoinDn(p) == x && d[p].cls == c && d[p].name == n && n != ""
    {
      ListsAt(formats, names, S.StrictWrites(root, extras), c, n);
      PickedMember(formats, S.StrictWrites(root, extras), c, n, x);
      if x in DnsOf(names, c, n) {
        var w :| w in S.StrictWrites(root, extras) && w.dn == x && Fits(formats, w, c, n);
        var q := NamedWrite(sch, d, root, extras, formats, classes, w, c, n);
      }
      if p :| p in d && JoinDn(p) == x && d[p].cls == c && d[p].name == n && n != "" {
        NamedIsWritten(sch, d, root, extras, formats, p);
      }
    }
    SameNamedIs(d, names, classes);
  }

  lemma SameNamedIs(d: Design, names: Names, classes: set<string>)
    requires forall c, n, x :: c in classes ==>
               (x in DnsOf(names, c, n) <==> exists p :: p in d && JoinDn(p) == x && d[p].cls == c && d[p].name == n && n != "")
    ensures SameNamed(d, names, classes)
  {
  }

  lemma ListsAt(formats: Formats, names: Names, ws: seq<Write>, c: string, n: string)
    requires Lists(formats, names, ws)
    ensures DnsOf(names, c, n) == Picked(formats, ws, c, n)
  {
  }

  /** A write of one of the classes is that of a declared object. */
  lemma NamedWrite(sch: Schema, d: Design, root: Node, extras: Compiler.Extras, formats: Formats, classes: set<string>,
                   w: Write, c: string, n: string) returns (q: Path)
    requires Compiled(sch, d, root, extras) && NamedByRn(formats, d) && NotRelations(sch, d, classes)
    requires w in S.StrictWrites(root, extras) && Fits(formats, w, c, n) && c in classes
    ensures q in d && JoinDn(q) == w.dn && d[q].cls == c && d[q].name == n && n != ""
  {
    hide Compiled, S.StrictWrites, PrimaryName, Emitted;
    q := WriteIsOnWire(sch, d, root, extras, w);
    RnOfPath(q);
    assert OwnWire(d, q, w.cls, w.attrs);
  }

  lemma NamedIsWritten(sch: Schema, d: Design, root: Node, extras: Compiler.Extras, formats: Formats, p: Path)
    requires Compiled(sch, d, root, extras) && Resolves(sch, d) && NamedByRn(formats, d) && p in d && d[p].name != ""
    ensures exists w :: w in S.StrictWrites(root, extras) && w.dn == JoinDn(p) && Fits(formats, w, d[p].cls, d[p].name)
  {
    hide Compiled, S.StrictWrites, PrimaryName, Resolves;
    assert OwnWire(d, p, d[p].cls, WireAttrs(d[p]));
    WireIsWritten(sch, d, root, extras, p, d[p].cls, WireAttrs(d[p]));
    RnOfPath(p);
    assert Fits(formats, Write(JoinDn(p), d[p].cls, WireAttrs(d[p])), d[p].cls, d[p].name);
  }

  lemma IndexLists(formats: Formats, root: Node, extras: Compiler.Extras, names: Names)
    requires S.WfDesign(root, extras) && GainedOne(formats, map[], S.StrictEnvelope(root, extras), "uni", names)
    ensures Lists(formats, names, S.StrictWrites(root, extras)) && DistinctDns(S.StrictWrites(root, extras))
  {
    var t := S.StrictEnvelope(root, extras);
    S.UniIsGood();
    S.StrictIsStagedAndRest(Tables({}, {}), root, extras);
    RnOfPath(["uni"]);
    assert JoinDn(["uni"]) == "uni";
    forall c, n ensures DnsOf(names, c, n) == Picked(formats, S.StrictWrites(root, extras), c, n) {
      NamedIsPicked(formats, t, "uni", "", c, n);
      assert DnsOf(map[], c, n) == [];
    }
  }

  /**
   * The importer indexes the snapshot of a design and looks a name up from one of its objects: the answer
   * is the DN of the object the resolver picks in the design, and none exactly when the resolver raises.
   */
  method LookupInSnapshot(formats: Formats, snapshot: Env, classes: set<string>, name: string, ownerDn: string,
                          ghost sch: Schema, ghost d: Design, ghost root: Node, ghost extras: Compiler.Extras, ghost owner: Path, ghost cls: string)
    returns (r: Option<string>)
    requires Compiled(sch, d, root, extras) && Resolves(sch, d) && snapshot == S.StrictEnvelope(root, extras)
    requires NamedByRn(formats, d) && classes == ClassSet(sch, cls) && NotRelations(sch, d, classes)
    requires owner in d && ownerDn == JoinDn(owner)
    ensures r == match LookupTarget(sch, d, owner, cls, name)
                 case Found(t) => Some(JoinDn(t))
                 case _ => None
  {
    var index := new Importer.Index(formats);
    index.Add(snapshot, "uni");
    assert S.WfDesign(root, extras);
    forall p | p in d ensures IsPath(p) { DesignPath(sch, d, root, extras, p); }
    assert RnPaths(d);
    hide *;
    IndexLists(formats, root, extras, index.names);
    ListsOnce(formats, index.names, S.StrictWrites(root, extras));
    IndexedDesign(sch, d, root, extras, formats, index.names, classes);
    r := ComputeScopedWinner(index.names, ownerDn, classes, name);
    ScopeSimulationIsLookup(sch, d, index.names, owner, cls, name);
  }
}
