/** What each reference puts on the wire, and the collision check over all of them (`resolve`). */
module References {
  import opened Text
  import opened Dn
  import opened Resolver

  /** The relation a reference becomes and the node it attaches under, or the error the push raises. */
  datatype Emission = Emits(land: Path, rs: Rs) | Raises

  function BuildRs(sch: Schema, land: Path, rsCls: string, flavor: Flavor, value: string, attrs: map<string, string>): Emission {
    match sch.build(rsCls, flavor, value, attrs)
    case None => Raises
    case Some(rs) => Emits(land, rs)
  }

  /** Where the relation of an edge attaches, its class, and how it points at the referenced end. */
  datatype Edge = Edge(land: Path, rsCls: string, flavor: Flavor, referenced: Path) | NoEdge

  function EdgeOf(sch: Schema, d: Design, owner: Path, b: Bind, target: Path): Edge
    requires owner in d && target in d && !b.ToDn?
  {
    var o, t := d[owner].cls, d[target].cls;
    if b.Verb? then Edge(owner, b.rsCls, sch.flavorOf(b.rsCls), target)
    else if (o, t) in sch.refs then Edge(owner, sch.refs[(o, t)].0, sch.refs[(o, t)].1, target)
    else if (t, o) in sch.refs then Edge(target, sch.refs[(t, o)].0, sch.refs[(t, o)].1, owner)
    else NoEdge
  }

  predicate UnderCommonTenant(d: Design, p: Path) {
    exists n | 1 <= n <= |p| :: p[..n] in d && d[p[..n]].cls == "fvTenant" && d[p[..n]].name == "common"
  }

  /** A bare name is looked up in the attaching object's own scope, then in the common tenant. */
  predicate NameReachable(d: Design, attach: Path, referenced: Path) {
    CommonLen(attach, referenced) - 1 > 0 || UnderCommonTenant(d, referenced)
  }

  function EmitEdge(sch: Schema, d: Design, edge: Edge, attrs: map<string, string>): Emission
    requires edge.Edge? ==> edge.referenced in d
  {
    match edge
    case NoEdge => Raises
    case Edge(land, rsCls, flavor, referenced) =>
      if flavor.ByDn? then BuildRs(sch, land, rsCls, flavor, JoinDn(referenced), attrs)
      else if NameReachable(d, land, referenced) then BuildRs(sch, land, rsCls, flavor, d[referenced].name, attrs)
      else Raises
  }

  ghost function Emit(sch: Schema, d: Design, owner: Path, b: Bind): Emission
    requires owner in d
  {
    if b.ToDn? then BuildRs(sch, owner, b.rsCls, ByDn, b.dn, b.attrs)
    else match LookupTarget(sch, d, owner, b.targetCls, b.name)
         case Found(target) => EmitEdge(sch, d, EdgeOf(sch, d, owner, b, target), b.attrs)
         case _ => Raises
  }

  // ---- The wire of a design

  ghost predicate Emitted(sch: Schema, d: Design, land: Path, rs: Rs) {
    exists p, b :: p in d && b in d[p].binds && Emit(sch, d, p, b) == Emits(land, rs)
  }

  ghost predicate EmitsAt(sch: Schema, d: Design, path: Path, cls: string, attrs: map<string, string>) {
    exists land, rs :: Emitted(sch, d, land, rs) && path == land + [rs.rn] && cls == rs.cls && attrs == rs.attrs
  }

  ghost predicate OwnWire(d: Design, path: Path, cls: string, attrs: map<string, string>) {
    path in d && d[path].cls == cls && WireAttrs(d[path]) == attrs
  }

  /** The envelope of the design writes an object of this class and these attributes at this path. */
  ghost predicate OnWire(sch: Schema, d: Design, path: Path, cls: string, attrs: map<string, string>) {
    OwnWire(d, path, cls, attrs) || EmitsAt(sch, d, path, cls, attrs)
  }

  ghost predicate EveryBindEmits(sch: Schema, d: Design) {
    forall p, b :: p in d && b in d[p].binds ==> Emit(sch, d, p, b).Emits?
  }

  /** One RN under one parent carries one relation, and agrees with an explicit child of that RN. */
  ghost predicate CollisionFree(sch: Schema, d: Design) {
    && (forall land, r, s :: Emitted(sch, d, land, r) && Emitted(sch, d, land, s) && r.rn == s.rn ==> r == s)
    && (forall land, r :: Emitted(sch, d, land, r) && land + [r.rn] in d ==> OwnWire(d, land + [r.rn], r.cls, r.attrs))
  }

  /** The push resolves every reference without error. */
  ghost predicate Resolves(sch: Schema, d: Design) {
    EveryBindEmits(sch, d) && CollisionFree(sch, d)
  }

  /** A design that resolves writes each path one way. */
  lemma WireIsFunctional(sch: Schema, d: Design, path: Path, c1: string, a1: map<string, string>, c2: string, a2: map<string, string>)
    requires Resolves(sch, d) && OnWire(sch, d, path, c1, a1) && OnWire(sch, d, path, c2, a2)
    ensures c1 == c2 && a1 == a2
  {
    if EmitsAt(sch, d, path, c1, a1) && EmitsAt(sch, d, path, c2, a2) {
      var land, r :| Emitted(sch, d, land, r) && path == land + [r.rn] && c1 == r.cls && a1 == r.attrs;
      var land2, s :| Emitted(sch, d, land2, s) && path == land2 + [s.rn] && c2 == s.cls && a2 == s.attrs;
      assert land == path[..|path| - 1] == land2;
      assert r.rn == path[|path| - 1] == s.rn;
    }
  }

  // ---- The resolver as a program

  type Extras = map<Path, seq<Rs>>

  function At(extras: Extras, land: Path): seq<Rs> {
    if land in extras then extras[land] else []
  }

  method ComputeEmission(sch: Schema, d: Design, order: seq<Path>, index: Index, owner: Path, b: Bind) returns (e: Emission)
    requires WfSchema(sch) && Enumerates(order, d) && Indexes(index, d, order) && owner in d
    ensures e == Emit(sch, d, owner, b)
  {
    if b.ToDn? { return BuildRs(sch, owner, b.rsCls, ByDn, b.dn, b.attrs); }
    var found := ComputeLookup(sch, d, order, index, owner, b.targetCls, b.name);
    if found.Found? {
      WinnerIsFound(sch, d, owner, b.targetCls, b.name, found.target);
      return EmitEdge(sch, d, EdgeOf(sch, d, owner, b, found.target), b.attrs);
    }
    return Raises;
  }

  /** The relations emitted by the references seen so far, each under its landing node. */
  ghost predicate Gathered(sch: Schema, d: Design, extras: Extras, seen: set<(Path, Bind)>) {
    && (forall land, rs :: rs in At(extras, land) <==>
          exists p, b :: (p, b) in seen && p in d && b in d[p].binds && Emit(sch, d, p, b) == Emits(land, rs))
    && (forall p, b :: (p, b) in seen ==> p in d && Emit(sch, d, p, b).Emits?)
  }

  lemma GatherOne(sch: Schema, d: Design, extras: Extras, seen: set<(Path, Bind)>, p: Path, b: Bind)
    requires Gathered(sch, d, extras, seen) && p in d && b in d[p].binds && Emit(sch, d, p, b).Emits?
    ensures var e := Emit(sch, d, p, b);
            Gathered(sch, d, extras[e.land := At(extras, e.land) + [e.rs]], seen + {(p, b)})
  {
    hide Emit;
    var e := Emit(sch, d, p, b);
    var after, more := extras[e.land := At(extras, e.land) + [e.rs]], seen + {(p, b)};
    forall land, rs
      ensures rs in At(after, land) <==>
              exists q, c :: (q, c) in more && q in d && c in d[q].binds && Emit(sch, d, q, c) == Emits(land, rs)
    {
      if rs in At(after, land) {
        if rs in At(extras, land) {
          var q, c :| (q, c) in seen && q in d && c in d[q].binds && Emit(sch, d, q, c) == Emits(land, rs);
          assert (q, c) in more;
        } else {
          assert (p, b) in more && Emit(sch, d, p, b) == Emits(land, rs);
        }
      }
      if q, c :| (q, c) in more && q in d && c in d[q].binds && Emit(sch, d, q, c) == Emits(land, rs) {
        if (q, c) in seen { assert rs in At(extras, land); }
      }
    }
  }

  /** Every reference of the design emitted, or `None` at the first that raises. */
  method GatherExtras(sch: Schema, d: Design, order: seq<Path>) returns (r: Option<Extras>)
    requires WfSchema(sch) && Enumerates(order, d)
    ensures r.Some? <==> EveryBindEmits(sch, d)
    ensures r.Some? ==> forall land, rs :: rs in At(r.value, land) <==> Emitted(sch, d, land, rs)
  {
    hide Emit;
    var index := BuildIndex(d, order);
    var extras: Extras := map[];
    ghost var seen: set<(Path, Bind)> := {};
    for i := 0 to |order|
      invariant Gathered(sch, d, extras, seen)
      invariant forall p, b :: p in order[..i] && b in d[p].binds ==> (p, b) in seen
    {
      var p := order[i];
      assert p in order;
      var binds := d[p].binds;
      for j := 0 to |binds|
        invariant Gathered(sch, d, extras, seen)
        invariant forall q, b :: q in order[..i] && b in d[q].binds ==> (q, b) in seen
        invariant forall b :: b in binds[..j] ==> (p, b) in seen
      {
        assert binds[j] in binds && binds[..j + 1] == binds[..j] + [binds[j]];
        var e := ComputeEmission(sch, d, order, index, p, binds[j]);
        if e.Raises? { return None; }
        GatherOne(sch, d, extras, seen, p, binds[j]);
        extras := extras[e.land := At(extras, e.land) + [e.rs]];
        seen := seen + {(p, binds[j])};
      }
      assert binds[..|binds|] == binds;
      assert order[..i + 1] == order[..i] + [p];
    }
    assert order[..|order|] == order;
    forall land, rs ensures rs in At(extras, land) <==> Emitted(sch, d, land, rs) {
      if Emitted(sch, d, land, rs) {
        var p, b :| p in d && b in d[p].binds && Emit(sch, d, p, b) == Emits(land, rs);
        assert (p, b) in seen;
      }
    }
    return Some(extras);
  }

  /** The RNs a list of relations kept, each once. */
  ghost predicate DistinctRns(rs: seq<Rs>) {
    forall i, j :: 0 <= i < j < |rs| ==> rs[i].rn != rs[j].rn
  }

  /** The relations seen so far agree, and `list` holds those that are no restatement, indexed by RN. */
  ghost predicate Pruned(d: Design, land: Path, seen: seq<Rs>, byRn: map<string, Rs>, list: seq<Rs>) {
    && (forall r, s :: r in seen && s in seen && r.rn == s.rn ==> r == s)
    && (forall r :: r in seen && land + [r.rn] in d ==> OwnWire(d, land + [r.rn], r.cls, r.attrs))
    && (forall r :: r in list <==> r in seen && land + [r.rn] !in d)
    && (forall n :: n in byRn ==> byRn[n] in list && byRn[n].rn == n)
    && (forall r :: r in list ==> r.rn in byRn)
    && DistinctRns(list)
  }

  lemma PrunedRestated(d: Design, land: Path, seen: seq<Rs>, byRn: map<string, Rs>, list: seq<Rs>, rs: Rs)
    requires Pruned(d, land, seen, byRn, list)
    requires if land + [rs.rn] in d then OwnWire(d, land + [rs.rn], rs.cls, rs.attrs) else rs.rn in byRn && byRn[rs.rn] == rs
    requires forall r :: r in seen && land + [r.rn] in d && r.rn == rs.rn ==> r.cls == rs.cls && r.attrs == rs.attrs
    ensures Pruned(d, land, seen + [rs], byRn, list)
  {
    assert forall r :: r in seen + [rs] <==> r in seen || r == rs;
  }

  lemma PrunedNew(d: Design, land: Path, seen: seq<Rs>, byRn: map<string, Rs>, list: seq<Rs>, rs: Rs)
    requires Pruned(d, land, seen, byRn, list) && land + [rs.rn] !in d && rs.rn !in byRn
    ensures Pruned(d, land, seen + [rs], byRn[rs.rn := rs], list + [rs])
  {
    assert forall r :: r in seen + [rs] <==> r in seen || r == rs;
    assert forall r :: r in list + [rs] <==> r in list || r == rs;
  }

  /** One node of `_check_rn_collisions`: drop restatements, refuse contradictions. */
  method PruneNode(d: Design, land: Path, rsList: seq<Rs>) returns (kept: Option<seq<Rs>>)
    ensures kept.Some? <==>
              (forall r, s :: r in rsList && s in rsList && r.rn == s.rn ==> r == s) &&
              (forall r :: r in rsList && land + [r.rn] in d ==> OwnWire(d, land + [r.rn], r.cls, r.attrs))
    ensures kept.Some? ==> DistinctRns(kept.value)
    ensures kept.Some? ==> forall r :: r in kept.value <==> r in rsList && land + [r.rn] !in d
  {
    var byRn: map<string, Rs> := map[];
    var list: seq<Rs> := [];
    for i := 0 to |rsList|
      invariant Pruned(d, land, rsList[..i], byRn, list)
    {
      var rs := rsList[i];
      assert rs in rsList && rsList[..i + 1] == rsList[..i] + [rs];
      var twin := land + [rs.rn];
      if twin in d {
        if !(d[twin].cls == rs.cls && WireAttrs(d[twin]) == rs.attrs) { return None; }
        PrunedRestated(d, land, rsList[..i], byRn, list, rs);
      } else if rs.rn in byRn {
        if byRn[rs.rn] != rs { assert byRn[rs.rn] in rsList; return None; }
        PrunedRestated(d, land, rsList[..i], byRn, list, rs);
      } else {
        PrunedNew(d, land, rsList[..i], byRn, list, rs);
        byRn := byRn[rs.rn := rs];
        list := list + [rs];
      }
      hide Pruned;
    }
    assert rsList[..|rsList|] == rsList;
    return Some(list);
  }

  /** The relations under one node agree with one another and with its explicit children. */
  ghost predicate NodeAgrees(sch: Schema, d: Design, land: Path) {
    && (forall r, s :: Emitted(sch, d, land, r) && Emitted(sch, d, land, s) && r.rn == s.rn ==> r == s)
    && (forall r :: Emitted(sch, d, land, r) && land + [r.rn] in d ==> OwnWire(d, land + [r.rn], r.cls, r.attrs))
  }

  /** The list holds exactly the relations the explicit children of the node lack, one object per RN. */
  ghost predicate NodeCompleted(sch: Schema, d: Design, land: Path, list: seq<Rs>) {
    && DistinctRns(list)
    && (forall r :: r in list <==> Emitted(sch, d, land, r) && land + [r.rn] !in d)
  }

  ghost predicate Completes(sch: Schema, d: Design, extras: Extras) {
    forall land :: NodeCompleted(sch, d, land, At(extras, land))
  }

  method ResolveNode(sch: Schema, d: Design, land: Path, rsList: seq<Rs>) returns (kept: Option<seq<Rs>>)
    requires forall r :: r in rsList <==> Emitted(sch, d, land, r)
    ensures kept.Some? <==> NodeAgrees(sch, d, land)
    ensures kept.Some? ==> NodeCompleted(sch, d, land, kept.value)
  {
    hide Emitted, OwnWire;
    kept := PruneNode(d, land, rsList);
  }

  method Resolve(sch: Schema, d: Design, order: seq<Path>) returns (r: Option<Extras>)
    requires WfSchema(sch) && Enumerates(order, d)
    ensures r.Some? <==> Resolves(sch, d)
    ensures r.Some? ==> Completes(sch, d, r.value)
  {
    hide Emitted, OwnWire;
    var gathered := GatherExtras(sch, d, order);
    if gathered.None? { return None; }
    var found := gathered.value;
    var extras, lands := found, found.Keys;
    while lands != {}
      invariant lands <= extras.Keys && extras.Keys == found.Keys
      invariant forall land :: land in lands ==> extras[land] == found[land]
      invariant forall land :: land in extras.Keys - lands ==>
                  NodeAgrees(sch, d, land) && NodeCompleted(sch, d, land, extras[land])
      decreases lands
    {
      var land :| land in lands;
      assert At(found, land) == extras[land];
      var kept := ResolveNode(sch, d, land, extras[land]);
      if kept.None? { return None; }
      extras := extras[land := kept.value];
      lands := lands - {land};
    }
    forall land ensures NodeAgrees(sch, d, land) && NodeCompleted(sch, d, land, At(extras, land)) {
      if land !in extras { assert At(found, land) == []; }
    }
    return Some(extras);
  }
}
