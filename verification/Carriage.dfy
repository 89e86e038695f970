/** Which references a slice keeps as declared, which it redirects to a DN, and which it pins (`_carry_bind`). */
module Carriage {
  import opened Text
  import opened Dn
  import opened Resolver
  import opened References
  import opened Landing
  import opened Slice

  /** The target the reference is looked up to. */
  ghost predicate Meant(sch: Schema, d: Design, p: Path, b: Bind, t: Path)
    requires p in d
  {
    !b.ToDn? && Nearest(sch, d, p, b.targetCls, b.name, t)
  }

  /** The tables relate the two classes in neither direction. */
  ghost predicate Unrelated(sch: Schema, d: Design, p: Path, b: Bind, t: Path)
    requires p in d && t in d
  {
    !b.Verb? && (d[p].cls, d[t].cls) !in sch.refs && (d[t].cls, d[p].cls) !in sch.refs
  }

  /** Kept as declared: a raw DN, a target inside, and whatever the push of the source refuses. */
  ghost predicate KeptAsIs(sch: Schema, d: Design, at: Path, p: Path, b: Bind)
    requires p in d
  {
    forall t :: Meant(sch, d, p, b, t) ==> at <= t || Unrelated(sch, d, p, b, t)
  }

  /** The relation that attaches to the declaring object and points by DN. */
  ghost predicate OwnByDn(sch: Schema, d: Design, p: Path, b: Bind, t: Path, rsCls: string)
    requires p in d && t in d
  {
    if b.Verb? then rsCls == b.rsCls && sch.flavorOf(rsCls).ByDn?
    else (d[p].cls, d[t].cls) in sch.refs && sch.refs[(d[p].cls, d[t].cls)] == (rsCls, ByDn)
  }

  /** The reference by DN that stands for one whose target is outside. */
  ghost predicate StandsFor(sch: Schema, d: Design, at: Path, p: Path, b: Bind, x: Bind)
    requires p in d
  {
    exists t, rsCls :: Meant(sch, d, p, b, t) && !(at <= t) && OwnByDn(sch, d, p, b, t, rsCls)
                       && x == ToDn(b.alias, b.targetCls, JoinDn(t), rsCls, b.attrs)
  }

  /** The relation lands inside, and one end of the reference is outside that no DN stands for. */
  ghost predicate Cut(sch: Schema, d: Design, at: Path, p: Path, b: Bind, land: Path, rs: Rs)
    requires p in d
  {
    && Lands(sch, d, p, b, land, rs) && at <= land
    && exists t :: Meant(sch, d, p, b, t) && !(at <= p && at <= t) && (at <= p ==> forall rsCls :: !OwnByDn(sch, d, p, b, t, rsCls))
  }

  lemma MeantIs(sch: Schema, d: Design, p: Path, b: Bind, t: Path)
    requires p in d && !b.ToDn?
    ensures Meant(sch, d, p, b, t) <==> LookupTarget(sch, d, p, b.targetCls, b.name) == Found(t)
    ensures Meant(sch, d, p, b, t) ==> t in d
  {
    NearestIs(sch, d, p, b.targetCls, b.name, t);
    if IsWinner(sch, d, p, b.targetCls, b.name, t) { WinnerIsFound(sch, d, p, b.targetCls, b.name, t); }
  }

  lemma CarryMeans(sch: Schema, d: Design, at: Path, p: Path, b: Bind)
    requires p in d && Inside(at, p)
    ensures Carry(sch, d, at, p, b).Keep? <==> KeptAsIs(sch, d, at, p, b)
    ensures forall x :: Carry(sch, d, at, p, b) == Redirect(x) <==> StandsFor(sch, d, at, p, b, x)
  {
    if !b.ToDn? {
      forall t
        ensures Meant(sch, d, p, b, t) <==> LookupTarget(sch, d, p, b.targetCls, b.name) == Found(t)
        ensures Meant(sch, d, p, b, t) ==> t in d
      {
        MeantIs(sch, d, p, b, t);
      }
      hide LookupTarget, Meant;
      var found := LookupTarget(sch, d, p, b.targetCls, b.name);
      if found.Found? { KeptOrNot(sch, d, at, p, b, found.target); }
    }
  }

  lemma KeptOrNot(sch: Schema, d: Design, at: Path, p: Path, b: Bind, t: Path)
    requires p in d && t in d && Inside(at, p) && !b.ToDn?
    ensures CarryFound(sch, d, at, p, b, t).Keep? <==> at <= t || Unrelated(sch, d, p, b, t)
    ensures forall x :: CarryFound(sch, d, at, p, b, t) == Redirect(x) <==>
                        exists rsCls :: !(at <= t) && OwnByDn(sch, d, p, b, t, rsCls) && x == ToDn(b.alias, b.targetCls, JoinDn(t), rsCls, b.attrs)
  {
  }

  /** What one reference leaves: itself, the one by DN that stands for it, or nothing. */
  lemma CarriedAsMeans(sch: Schema, d: Design, at: Path, p: Path, b: Bind, x: Bind)
    requires p in d && at <= p
    ensures |CarriedAs(sch, d, at, p, b)| <= 1
    ensures CarriedAs(sch, d, at, p, b) == [x] <==> (KeptAsIs(sch, d, at, p, b) && x == b) || StandsFor(sch, d, at, p, b, x)
  {
    CarryMeans(sch, d, at, p, b);
    hide KeptAsIs, StandsFor, Carry;
  }

  /** The references a copied object has in the slice: those it keeps, and those a DN stands for. */
  lemma SliceBinds(sch: Schema, d: Design, at: Path, s: Design, p: Path, x: Bind)
    requires IsSlice(sch, d, at, s) && p in d && at <= p
    ensures p in s
    ensures x in s[p].binds <==>
            exists b :: b in d[p].binds && ((KeptAsIs(sch, d, at, p, b) && x == b) || StandsFor(sch, d, at, p, b, x))
  {
    assert x in s[p].binds <==> CarriedBind(sch, d, at, p, x);
    forall b
      ensures Carry(sch, d, at, p, b).Keep? <==> KeptAsIs(sch, d, at, p, b)
      ensures Carry(sch, d, at, p, b) == Redirect(x) <==> StandsFor(sch, d, at, p, b, x)
    {
      CarryMeans(sch, d, at, p, b);
    }
    hide IsSlice, Carry, KeptAsIs, StandsFor;
  }

  lemma PinMeans(sch: Schema, d: Design, at: Path, p: Path, b: Bind, land: Path, rs: Rs)
    requires Resolves(sch, d) && p in d && b in d[p].binds
    ensures Carry(sch, d, at, p, b) == Pin(land, rs) <==> Cut(sch, d, at, p, b, land, rs)
  {
    assert Emit(sch, d, p, b).Emits?;
    ReferenceLands(sch, d, p, b, land, rs);
    if !b.ToDn? {
      forall t
        ensures Meant(sch, d, p, b, t) <==> LookupTarget(sch, d, p, b.targetCls, b.name) == Found(t)
        ensures Meant(sch, d, p, b, t) ==> t in d
      {
        MeantIs(sch, d, p, b, t);
      }
      hide LookupTarget, Meant, Resolves, Lands, NameReachable;
      var found := LookupTarget(sch, d, p, b.targetCls, b.name);
      PinnedOrNot(sch, d, at, p, b, found.target, land, rs);
    }
  }

  lemma PinnedOrNot(sch: Schema, d: Design, at: Path, p: Path, b: Bind, t: Path, land: Path, rs: Rs)
    requires p in d && t in d && !b.ToDn? && EmitEdge(sch, d, EdgeOf(sch, d, p, b, t), b.attrs).Emits?
    ensures CarryFound(sch, d, at, p, b, t) == Pin(land, rs) <==>
            && EmitEdge(sch, d, EdgeOf(sch, d, p, b, t), b.attrs) == Emits(land, rs) && at <= land
            && !(at <= p && at <= t) && (at <= p ==> forall rsCls :: !OwnByDn(sch, d, p, b, t, rsCls))
  {
    hide NameReachable;
    var edge := EdgeOf(sch, d, p, b, t);
    if at <= p && !(at <= t) {
      assert OwnByDn(sch, d, p, b, t, edge.rsCls) <==> edge.land == p && edge.flavor.ByDn?;
      assert forall rsCls :: OwnByDn(sch, d, p, b, t, rsCls) ==> rsCls == edge.rsCls;
    }
  }

  /** A reference of the design is cut, and its relation is this one. */
  ghost predicate CutSomewhere(sch: Schema, d: Design, at: Path, land: Path, rs: Rs) {
    exists p, b :: p in d && b in d[p].binds && Cut(sch, d, at, p, b, land, rs)
  }

  lemma CutIsPinned(sch: Schema, d: Design, at: Path, land: Path, rs: Rs)
    requires Resolves(sch, d)
    ensures CutSomewhere(sch, d, at, land, rs) <==> Pinned(sch, d, at, land, rs)
  {
    forall p, b | p in d && b in d[p].binds
      ensures Carry(sch, d, at, p, b) == Pin(land, rs) <==> Cut(sch, d, at, p, b, land, rs)
    {
      PinMeans(sch, d, at, p, b, land, rs);
    }
    hide Carry, Cut, Resolves;
  }

  /**
   * What a slice of a design that resolves holds beside the ancestors and the subtree: the relations that
   * land inside of references with an end outside, each as the source emits it.
   */
  lemma SlicePins(sch: Schema, d: Design, at: Path, s: Design, path: Path)
    requires Resolves(sch, d) && IsSlice(sch, d, at, s) && !(path in d && (path < at || at <= path))
    ensures path in s <==> exists land, rs :: CutSomewhere(sch, d, at, land, rs) && path == land + [rs.rn]
    ensures path in s ==> s[path].binds == [] && exists land, rs ::
              CutSomewhere(sch, d, at, land, rs) && path == land + [rs.rn] && s[path].cls == rs.cls && Says(s[path], rs.attrs)
  {
    forall land, rs ensures CutSomewhere(sch, d, at, land, rs) <==> Pinned(sch, d, at, land, rs) { CutIsPinned(sch, d, at, land, rs); }
    hide CutSomewhere, Pinned, Resolves, CarriedBind, Says;
    if path in s {
      assert PinnedAt(sch, d, at, path, s[path]);
      var land, rs :| Pinned(sch, d, at, land, rs) && path == land + [rs.rn] && s[path].cls == rs.cls && WireAttrs(s[path]) == rs.attrs && s[path].binds == [];
      SaysIs(s[path], rs.attrs);
    }
  }

  /** References collapse exactly when kind, alias, target class, target and attributes are the same. */
  lemma SameKeyIff(b: Bind, c: Bind)
    ensures BindKey(b) == BindKey(c) <==>
            && (b.ToDn? <==> c.ToDn?) && (b.ToName? <==> c.ToName?)
            && b.alias == c.alias && b.targetCls == c.targetCls && b.attrs == c.attrs
            && (if b.ToDn? && c.ToDn? then b.dn == c.dn else if !b.ToDn? && !c.ToDn? then b.name == c.name else false)
  {
  }
}
