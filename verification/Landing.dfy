/** Where each reference puts its relation and what it says, from the tables and the declared objects alone (`resolve`). */
module Landing {
  import opened Text
  import opened Dn
  import opened Resolver
  import opened References

  /** An object of the wanted class, or of a concrete subclass of it, with the wanted name. */
  ghost predicate Wanted(sch: Schema, d: Design, cls: string, name: string, p: Path) {
    && p in d && name != "" && d[p].name == name
    && (d[p].cls == cls || (cls in sch.subclasses && d[p].cls in sch.subclasses[cls]))
  }

  /** `t` is wanted, and some ancestor of the owner, or the owner, is above it and above no other wanted object. */
  ghost predicate Nearest(sch: Schema, d: Design, owner: Path, cls: string, name: string, t: Path) {
    && Wanted(sch, d, cls, name, t)
    && forall p :: Wanted(sch, d, cls, name, p) && p != t ==>
         exists n: nat :: n <= |owner| && owner[..n] <= t && !(owner[..n] <= p)
  }

  /** The controller forms a bare name met below the same domain, or declared in the common tenant. */
  ghost predicate Formed(d: Design, land: Path, other: Path) {
    || (|land| >= 2 && |other| >= 2 && land[..2] == other[..2])
    || exists n: nat :: 1 <= n <= |other| && other[..n] in d && d[other[..n]].cls == "fvTenant" && d[other[..n]].name == "common"
  }

  /** The relation of this class under `land` says where `other` is: by DN, or by a name that forms. */
  ghost predicate PointsAt(sch: Schema, d: Design, land: Path, other: Path, rsCls: string, flavor: Flavor, attrs: map<string, string>, rs: Rs)
    requires other in d
  {
    match flavor
    case ByDn => sch.build(rsCls, ByDn, JoinDn(other), attrs) == Some(rs)
    case ByName => Formed(d, land, other) && sch.build(rsCls, ByName, d[other].name, attrs) == Some(rs)
  }

  /** The tables relate the class at `land` to the class at `other`, and this is that relation. */
  ghost predicate Relates(sch: Schema, d: Design, land: Path, other: Path, attrs: map<string, string>, rs: Rs)
    requires land in d && other in d
  {
    var pair := (d[land].cls, d[other].cls);
    pair in sch.refs && PointsAt(sch, d, land, other, sch.refs[pair].0, sch.refs[pair].1, attrs, rs)
  }

  /**
   * The reference `b` of `p` puts `rs` under `land`. A raw DN and a verb land on the object that declares
   * them. An alias lands there too when the tables relate its class to the target's; when they relate the
   * target's class to its own instead, the relation lands on the target and points back.
   */
  ghost predicate Lands(sch: Schema, d: Design, p: Path, b: Bind, land: Path, rs: Rs)
    requires p in d
  {
    match b
    case ToDn(_, _, dn, rsCls, attrs) => land == p && sch.build(rsCls, ByDn, dn, attrs) == Some(rs)
    case Verb(_, cls, name, rsCls, attrs) =>
      land == p && exists t :: Nearest(sch, d, p, cls, name, t) && PointsAt(sch, d, p, t, rsCls, sch.flavorOf(rsCls), attrs, rs)
    case ToName(_, cls, name, attrs) =>
      exists t :: Nearest(sch, d, p, cls, name, t) &&
        if (d[p].cls, d[t].cls) in sch.refs then land == p && Relates(sch, d, p, t, attrs, rs)
        else land == t && Relates(sch, d, t, p, attrs, rs)
  }

  // ---- The resolver does this

  lemma WantedIs(sch: Schema, d: Design, cls: string, name: string, p: Path)
    ensures Wanted(sch, d, cls, name, p) <==> IsCandidate(sch, d, cls, name, p)
  {
  }

  lemma PrefixShared(owner: Path, t: Path, n: nat)
    requires n <= |owner|
    ensures owner[..n] <= t <==> n <= CommonLen(owner, t)
  {
    var k := CommonLen(owner, t);
    if n <= k {
      assert owner[..n] == owner[..k][..n] && t[..n] == t[..k][..n];
    }
    if owner[..n] <= t {
      assert t[..n] == owner[..n];
      CommonLenIs(owner, t, n);
    }
  }

  lemma NearestIs(sch: Schema, d: Design, owner: Path, cls: string, name: string, t: Path)
    ensures Nearest(sch, d, owner, cls, name, t) <==> IsWinner(sch, d, owner, cls, name, t)
  {
    forall p ensures Wanted(sch, d, cls, name, p) <==> IsCandidate(sch, d, cls, name, p) { WantedIs(sch, d, cls, name, p); }
    hide Wanted, IsCandidate, CommonLen;
    forall p
      ensures (exists n: nat :: n <= |owner| && owner[..n] <= t && !(owner[..n] <= p)) <==> CommonLen(owner, p) < CommonLen(owner, t)
    {
      var k := CommonLen(owner, t);
      PrefixShared(owner, t, k);
      PrefixShared(owner, p, k);
      if n: nat :| n <= |owner| && owner[..n] <= t && !(owner[..n] <= p) {
        PrefixShared(owner, t, n);
        PrefixShared(owner, p, n);
      }
    }
  }

  lemma FormedIs(d: Design, land: Path, other: Path)
    ensures Formed(d, land, other) <==> NameReachable(d, land, other)
  {
    var k := CommonLen(land, other);
    if k >= 2 { assert land[..2] == land[..k][..2] && other[..2] == other[..k][..2]; }
    if |land| >= 2 && |other| >= 2 && land[..2] == other[..2] { CommonLenIs(land, other, 2); }
  }

  /** A reference emits exactly the relation the tables give it, where they put it. */
  lemma ReferenceLands(sch: Schema, d: Design, p: Path, b: Bind, land: Path, rs: Rs)
    requires p in d
    ensures Emit(sch, d, p, b) == Emits(land, rs) <==> Lands(sch, d, p, b, land, rs)
  {
    if !b.ToDn? {
      var found := LookupTarget(sch, d, p, b.targetCls, b.name);
      forall t ensures Nearest(sch, d, p, b.targetCls, b.name, t) <==> found == Found(t) {
        NearestIs(sch, d, p, b.targetCls, b.name, t);
        if IsWinner(sch, d, p, b.targetCls, b.name, t) { WinnerIsFound(sch, d, p, b.targetCls, b.name, t); }
      }
      hide Nearest, Formed, NameReachable, LookupTarget;
      forall l, o ensures Formed(d, l, o) <==> NameReachable(d, l, o) { FormedIs(d, l, o); }
    }
  }

  /** Some reference of the design puts this relation there. */
  ghost predicate Landed(sch: Schema, d: Design, land: Path, rs: Rs) {
    exists p, b :: p in d && b in d[p].binds && Lands(sch, d, p, b, land, rs)
  }

  lemma LandedIs(sch: Schema, d: Design, land: Path, rs: Rs)
    ensures Landed(sch, d, land, rs) <==> Emitted(sch, d, land, rs)
  {
    forall p, b | p in d ensures Emit(sch, d, p, b) == Emits(land, rs) <==> Lands(sch, d, p, b, land, rs) {
      ReferenceLands(sch, d, p, b, land, rs);
    }
    hide Emit, Lands;
  }

  /** A design resolves exactly when each reference has a relation and no two things say different of one place. */
  lemma ResolvesMeans(sch: Schema, d: Design)
    ensures Resolves(sch, d) <==>
            && (forall p, b :: p in d && b in d[p].binds ==> exists land, rs :: Lands(sch, d, p, b, land, rs))
            && (forall land, r, s :: Landed(sch, d, land, r) && Landed(sch, d, land, s) && r.rn == s.rn ==> r == s)
            && (forall land, r :: Landed(sch, d, land, r) && land + [r.rn] in d ==>
                  d[land + [r.rn]].cls == r.cls && Says(d[land + [r.rn]], r.attrs))
  {
    forall p, b, land, rs | p in d ensures Emit(sch, d, p, b) == Emits(land, rs) <==> Lands(sch, d, p, b, land, rs) {
      ReferenceLands(sch, d, p, b, land, rs);
    }
    forall land, rs ensures Landed(sch, d, land, rs) <==> Emitted(sch, d, land, rs) { LandedIs(sch, d, land, rs); }
    forall n: Decl, attrs ensures Says(n, attrs) <==> WireAttrs(n) == attrs { SaysIs(n, attrs); }
    hide Emit, Lands, Landed, Emitted, Says, WireAttrs;
  }

  /** The attributes an object shows on the wire: each as set, and as named when it is not set otherwise. */
  ghost predicate Says(n: Decl, attrs: map<string, string>) {
    && (forall wire :: wire in attrs <==> wire in n.attrs || wire in n.naming)
    && forall wire :: wire in attrs ==> attrs[wire] == if wire in n.attrs then n.attrs[wire] else n.naming[wire]
  }

  lemma SaysIs(n: Decl, attrs: map<string, string>)
    ensures Says(n, attrs) <==> WireAttrs(n) == attrs
  {
  }

  /** `resolve` attaches to each object exactly the relations that land on it and no declared child restates. */
  lemma ResolvedRelations(sch: Schema, d: Design, extras: Extras, land: Path, rs: Rs)
    requires Completes(sch, d, extras)
    ensures rs in At(extras, land) <==> land + [rs.rn] !in d && Landed(sch, d, land, rs)
  {
    assert NodeCompleted(sch, d, land, At(extras, land));
    LandedIs(sch, d, land, rs);
    hide Emitted, Landed;
  }

  /** What the envelope of a design shows at a path: the declared object, or a relation that lands above. */
  lemma WireMeans(sch: Schema, d: Design, path: Path, cls: string, attrs: map<string, string>)
    ensures OnWire(sch, d, path, cls, attrs) <==>
            || (path in d && d[path].cls == cls && Says(d[path], attrs))
            || exists land, rs :: Landed(sch, d, land, rs) && path == land + [rs.rn] && cls == rs.cls && attrs == rs.attrs
  {
    forall land, rs ensures Landed(sch, d, land, rs) <==> Emitted(sch, d, land, rs) { LandedIs(sch, d, land, rs); }
    if path in d { SaysIs(d[path], attrs); }
    hide Emitted, Landed, Says;
  }
}
