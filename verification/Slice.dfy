/** Carving a subtree out of a design without changing the wire under it (`slice_design`). */
module Slice {
  import opened Text
  import opened Dn
  import opened Resolver
  import opened References

  predicate Inside(at: Path, p: Path) { at <= p }

  /** What happens to one reference of the source. */
  datatype Carried = Keep | Redirect(bind: Bind) | Pin(land: Path, rs: Rs) | PinRaises | Drop

  ghost function Carry(sch: Schema, d: Design, at: Path, owner: Path, b: Bind): Carried
    requires owner in d
  {
    var ownerInside := Inside(at, owner);
    if b.ToDn? then (if ownerInside then Keep else Drop)
    else match LookupTarget(sch, d, owner, b.targetCls, b.name)
      case Found(target) => CarryFound(sch, d, at, owner, b, target)
      case _ => if ownerInside then Keep else Drop
  }

  function CarryFound(sch: Schema, d: Design, at: Path, owner: Path, b: Bind, target: Path): Carried
    requires owner in d && target in d && !b.ToDn?
  {
    match EdgeOf(sch, d, owner, b, target)
    case NoEdge => if Inside(at, owner) then Keep else Drop
    case Edge(land, rsCls, flavor, referenced) =>
      if !Inside(at, land) then Drop
      else if Inside(at, owner) && Inside(at, target) then Keep
      else if land == owner && flavor.ByDn? then Redirect(ToDn(b.alias, b.targetCls, JoinDn(target), rsCls, b.attrs))
      else
        var value := if flavor.ByDn? then JoinDn(referenced) else d[referenced].name;
        match sch.build(rsCls, flavor, value, b.attrs)
        case None => PinRaises
        case Some(rs) => Pin(land, rs)
  }

  /** The identity of a reference when duplicates collapse: everything but the relation class. */
  function BindKey(b: Bind): (nat, string, string, string, map<string, string>) {
    match b
    case ToDn(alias, targetCls, dn, _, attrs) => (0, alias, targetCls, dn, attrs)
    case ToName(alias, targetCls, name, attrs) => (1, alias, targetCls, name, attrs)
    case Verb(alias, targetCls, name, _, attrs) => (2, alias, targetCls, name, attrs)
  }

  /** On one node the alias fixes the relation class. */
  ghost predicate KeysIdentify(d: Design) {
    forall p, b, c :: p in d && b in d[p].binds && c in d[p].binds && BindKey(b) == BindKey(c) ==> b == c
  }

  function Bare(n: Decl): Decl { n.(attrs := map[], binds := []) }

  /** What a reference leaves on its owner: itself, a reference by DN, or nothing. */
  ghost function CarriedAs(sch: Schema, d: Design, at: Path, owner: Path, b: Bind): seq<Bind>
    requires owner in d
  {
    match Carry(sch, d, at, owner, b)
    case Keep => [b]
    case Redirect(x) => [x]
    case _ => []
  }

  predicate KeySeen(binds: seq<Bind>, b: Bind) {
    exists c | c in binds :: BindKey(c) == BindKey(b)
  }

  /** What a list of references leaves, in order, repetitions collapsed. */
  ghost function CarriedList(sch: Schema, d: Design, at: Path, owner: Path, binds: seq<Bind>): seq<Bind>
    requires owner in d
  {
    if binds == [] then []
    else
      var init, last := binds[..|binds| - 1], binds[|binds| - 1];
      CarriedList(sch, d, at, owner, init) + if KeySeen(init, last) then [] else CarriedAs(sch, d, at, owner, last)
  }

  ghost predicate CarriedBind(sch: Schema, d: Design, at: Path, owner: Path, b: Bind)
    requires owner in d
  {
    exists c :: c in d[owner].binds &&
      ((Carry(sch, d, at, owner, c).Keep? && b == c) || Carry(sch, d, at, owner, c) == Redirect(b))
  }

  ghost predicate Pinned(sch: Schema, d: Design, at: Path, land: Path, rs: Rs) {
    exists p, b :: p in d && b in d[p].binds && Carry(sch, d, at, p, b) == Pin(land, rs)
  }

  ghost predicate PinnedAt(sch: Schema, d: Design, at: Path, path: Path, n: Decl) {
    exists land, rs :: Pinned(sch, d, at, land, rs) && path == land + [rs.rn] &&
      n.cls == rs.cls && WireAttrs(n) == rs.attrs && n.binds == []
  }

  /** `s` is the slice of `d` at `at`: bare ancestors, the subtree with its carried references, pinned relations. */
  ghost predicate IsSlice(sch: Schema, d: Design, at: Path, s: Design) {
    && (forall p :: p in d && p < at ==> p in s && s[p] == Bare(d[p]))
    && (forall p :: p in d && Inside(at, p) ==>
          p in s && s[p].(binds := []) == d[p].(binds := []) &&
          forall b :: b in s[p].binds <==> CarriedBind(sch, d, at, p, b))
    && (forall p :: p in s && !(p in d && (p < at || Inside(at, p))) ==> PinnedAt(sch, d, at, p, s[p]))
    && (forall land, rs :: Pinned(sch, d, at, land, rs) ==> land + [rs.rn] in s)
  }

  /** No class a reference of the design may name is the class of a relation. */
  ghost predicate RelationsAreNotTargets(sch: Schema, d: Design) {
    forall p, b, rs, land :: p in d && b in d[p].binds && !b.ToDn? && Emitted(sch, d, land, rs) ==>
      rs.cls !in TargetClasses(sch, b.targetCls)
  }

  ghost predicate Sliceable(sch: Schema, d: Design, at: Path) {
    WfPaths(d) && at in d && Resolves(sch, d) && RelationsAreNotTargets(sch, d)
  }

  // ---- A carried reference emits in the slice what its source emits

  /** A pin is the relation its source emits. */
  lemma PinIsEmission(sch: Schema, d: Design, at: Path, owner: Path, b: Bind, land: Path, rs: Rs)
    requires Resolves(sch, d) && owner in d && b in d[owner].binds && Carry(sch, d, at, owner, b) == Pin(land, rs)
    ensures Emit(sch, d, owner, b) == Emits(land, rs) && Inside(at, land)
  {
    assert Emit(sch, d, owner, b).Emits?;
    hide LookupTarget;
  }

  lemma PinnedIsEmitted(sch: Schema, d: Design, at: Path, land: Path, rs: Rs)
    requires Resolves(sch, d) && Pinned(sch, d, at, land, rs)
    ensures Emitted(sch, d, land, rs) && Inside(at, land)
  {
    hide Carry, Emit, LookupTarget, Resolves;
    var p, b :| p in d && b in d[p].binds && Carry(sch, d, at, p, b) == Pin(land, rs);
    PinIsEmission(sch, d, at, p, b, land, rs);
  }

  /** The kinds of carriage of a reference that emits. */
  lemma CarryOfEmission(sch: Schema, d: Design, at: Path, owner: Path, b: Bind)
    requires owner in d && Emit(sch, d, owner, b).Emits?
    ensures Carry(sch, d, at, owner, b).Drop? <==> !Inside(at, Emit(sch, d, owner, b).land)
    ensures !Carry(sch, d, at, owner, b).PinRaises?
    ensures Carry(sch, d, at, owner, b).Keep? || Carry(sch, d, at, owner, b).Redirect? ==> Inside(at, owner)
    ensures Carry(sch, d, at, owner, b).Redirect? ==>
              Carry(sch, d, at, owner, b).bind.ToDn? &&
              Emit(sch, d, owner, Carry(sch, d, at, owner, b).bind) == Emit(sch, d, owner, b)
    ensures Carry(sch, d, at, owner, b).Keep? && !b.ToDn? ==>
              LookupTarget(sch, d, owner, b.targetCls, b.name).Found? &&
              Inside(at, LookupTarget(sch, d, owner, b.targetCls, b.name).target)
  {
    hide LookupTarget;
  }

  lemma SliceCandidates(sch: Schema, d: Design, at: Path, s: Design, cls: string, name: string, p: Path)
    requires IsSlice(sch, d, at, s) && Resolves(sch, d)
    requires forall land, rs :: Emitted(sch, d, land, rs) ==> rs.cls !in TargetClasses(sch, cls)
    ensures IsCandidate(sch, s, cls, name, p) ==> IsCandidate(sch, d, cls, name, p)
    ensures IsCandidate(sch, d, cls, name, p) && Inside(at, p) ==> IsCandidate(sch, s, cls, name, p)
  {
    hide Carry, Emit, LookupTarget;
    if IsCandidate(sch, s, cls, name, p) && !(p in d && (p < at || Inside(at, p))) {
      var land, rs :| Pinned(sch, d, at, land, rs) && p == land + [rs.rn] && s[p].cls == rs.cls;
      PinnedIsEmitted(sch, d, at, land, rs);
    }
  }

  /** The nearest-scope winner does not change when the index shrinks to one that still holds it. */
  lemma WinnerSurvives(sch: Schema, d: Design, at: Path, s: Design, owner: Path, cls: string, name: string, t: Path)
    requires IsSlice(sch, d, at, s) && Resolves(sch, d)
    requires forall land, rs :: Emitted(sch, d, land, rs) ==> rs.cls !in TargetClasses(sch, cls)
    requires LookupTarget(sch, d, owner, cls, name) == Found(t) && Inside(at, t)
    ensures LookupTarget(sch, s, owner, cls, name) == Found(t)
  {
    WinnerIsFound(sch, d, owner, cls, name, t);
    hide IsSlice, Resolves, LookupTarget, IsCandidate, Emitted;
    forall p ensures (IsCandidate(sch, s, cls, name, p) ==> IsCandidate(sch, d, cls, name, p)) &&
                     (IsCandidate(sch, d, cls, name, p) && Inside(at, p) ==> IsCandidate(sch, s, cls, name, p)) {
      SliceCandidates(sch, d, at, s, cls, name, p);
    }
    WinnerIsFound(sch, s, owner, cls, name, t);
  }

  lemma CommonTenantSurvives(sch: Schema, d: Design, at: Path, s: Design, p: Path)
    requires IsSlice(sch, d, at, s) && WfPaths(d) && at in d && p in d && Inside(at, p)
    ensures UnderCommonTenant(s, p) <==> UnderCommonTenant(d, p)
  {
    hide Carry, CarriedBind, Pinned, PinnedAt;
    forall n | 1 <= n <= |p| ensures p[..n] in d && p[..n] in s && s[p[..n]].cls == d[p[..n]].cls && s[p[..n]].name == d[p[..n]].name {
      PrefixDeclared(d, p, n);
      if n < |at| {
        assert p[..n] == at[..n] && at[..n] < at;
      } else {
        assert Inside(at, p[..n]);
      }
    }
  }

  lemma SameEdgeEmitsTheSame(sch: Schema, d: Design, s: Design, edge: Edge, attrs: map<string, string>)
    requires edge.Edge? ==> edge.referenced in d && edge.referenced in s && s[edge.referenced].name == d[edge.referenced].name
    requires edge.Edge? ==> (UnderCommonTenant(s, edge.referenced) <==> UnderCommonTenant(d, edge.referenced))
    ensures EmitEdge(sch, s, edge, attrs) == EmitEdge(sch, d, edge, attrs)
  {
    hide UnderCommonTenant, CommonLen;
  }

  lemma InsideIsCopied(sch: Schema, d: Design, at: Path, s: Design, p: Path)
    requires IsSlice(sch, d, at, s) && WfPaths(d) && at in d && p in d && Inside(at, p)
    ensures p in s && s[p].cls == d[p].cls && s[p].name == d[p].name
    ensures UnderCommonTenant(s, p) <==> UnderCommonTenant(d, p)
  {
    CommonTenantSurvives(sch, d, at, s, p);
  }

  lemma KeptEmitsTheSame(sch: Schema, d: Design, at: Path, s: Design, owner: Path, b: Bind)
    requires Sliceable(sch, d, at) && IsSlice(sch, d, at, s)
    requires owner in d && b in d[owner].binds && Carry(sch, d, at, owner, b).Keep?
    ensures owner in s && Emit(sch, s, owner, b) == Emit(sch, d, owner, b)
  {
    assert Emit(sch, d, owner, b).Emits?;
    CarryOfEmission(sch, d, at, owner, b);
    hide Carry, IsSlice, Resolves, UnderCommonTenant;
    InsideIsCopied(sch, d, at, s, owner);
    if !b.ToDn? {
      var t := LookupTarget(sch, d, owner, b.targetCls, b.name).target;
      WinnerSurvives(sch, d, at, s, owner, b.targetCls, b.name, t);
      WinnerIsFound(sch, d, owner, b.targetCls, b.name, t);
      InsideIsCopied(sch, d, at, s, t);
      hide LookupTarget, EmitEdge;
      assert EdgeOf(sch, s, owner, b, t) == EdgeOf(sch, d, owner, b, t);
      SameEdgeEmitsTheSame(sch, d, s, EdgeOf(sch, d, owner, b, t), b.attrs);
    }
  }

  /** Every reference of the slice emits what a reference of the source emits, inside the slice. */
  lemma SliceBindEmits(sch: Schema, d: Design, at: Path, s: Design, p: Path, b: Bind)
    requires Sliceable(sch, d, at) && IsSlice(sch, d, at, s)
    requires p in s && b in s[p].binds
    ensures Emit(sch, s, p, b).Emits? && Inside(at, Emit(sch, s, p, b).land)
    ensures Emitted(sch, d, Emit(sch, s, p, b).land, Emit(sch, s, p, b).rs)
  {
    assert p in d && Inside(at, p) && CarriedBind(sch, d, at, p, b) by {
      hide Carry, Emit, LookupTarget;
    }
    var c :| c in d[p].binds &&
      ((Carry(sch, d, at, p, c).Keep? && b == c) || Carry(sch, d, at, p, c) == Redirect(b));
    assert Emit(sch, d, p, c).Emits?;
    CarryOfEmission(sch, d, at, p, c);
    if b == c && Carry(sch, d, at, p, c).Keep? {
      KeptEmitsTheSame(sch, d, at, s, p, c);
    } else {
      assert Emit(sch, s, p, b) == Emit(sch, d, p, b);
    }
    hide Carry, Emit, LookupTarget, IsSlice;
    assert Emitted(sch, d, Emit(sch, d, p, c).land, Emit(sch, d, p, c).rs);
  }

  /** A relation of the source that lands inside is carried by a reference of the slice, or pinned. */
  lemma LandingIsCarried(sch: Schema, d: Design, at: Path, s: Design, land: Path, rs: Rs)
    requires Sliceable(sch, d, at) && IsSlice(sch, d, at, s)
    requires Emitted(sch, d, land, rs) && Inside(at, land)
    ensures Emitted(sch, s, land, rs) || Pinned(sch, d, at, land, rs)
  {
    var p, b :| p in d && b in d[p].binds && Emit(sch, d, p, b) == Emits(land, rs);
    CarryOfEmission(sch, d, at, p, b);
    match Carry(sch, d, at, p, b)
    case Keep =>
      KeptEmitsTheSame(sch, d, at, s, p, b);
      hide Carry, Emit, LookupTarget;
      assert CarriedBind(sch, d, at, p, b);
      assert b in s[p].binds;
    case Redirect(c) =>
      assert CarriedBind(sch, d, at, p, c);
      assert Emit(sch, s, p, c) == Emit(sch, d, p, c);
      hide Carry, Emit, LookupTarget;
      assert c in s[p].binds;
    case Pin(l, r) =>
      PinIsEmission(sch, d, at, p, b, l, r);
      hide Carry, Emit, LookupTarget;
    case Drop =>
  }

  // ---- The wire-footprint rule

  lemma EmittedBySlice(sch: Schema, d: Design, at: Path, s: Design, land: Path, rs: Rs)
    requires Sliceable(sch, d, at) && IsSlice(sch, d, at, s) && Emitted(sch, s, land, rs)
    ensures Emitted(sch, d, land, rs) && Inside(at, land)
  {
    hide IsSlice, Sliceable, Emit;
    var p, b :| p in s && b in s[p].binds && Emit(sch, s, p, b) == Emits(land, rs);
    SliceBindEmits(sch, d, at, s, p, b);
  }

  /** What a node of the slice writes at or below the sliced path, the source writes too. */
  lemma SliceNodeOnWire(sch: Schema, d: Design, at: Path, s: Design, path: Path)
    requires Sliceable(sch, d, at) && IsSlice(sch, d, at, s) && path in s && Inside(at, path)
    ensures OnWire(sch, d, path, s[path].cls, WireAttrs(s[path]))
  {
    hide Carry, Emit, LookupTarget, Resolves;
    if path in d {
      assert s[path].(binds := []) == d[path].(binds := []);
      assert WireAttrs(s[path]) == WireAttrs(d[path]) && s[path].cls == d[path].cls;
    } else {
      var land, rs :| Pinned(sch, d, at, land, rs) && path == land + [rs.rn] &&
        s[path].cls == rs.cls && WireAttrs(s[path]) == rs.attrs;
      PinnedIsEmitted(sch, d, at, land, rs);
      assert EmitsAt(sch, d, path, rs.cls, rs.attrs);
    }
  }

  lemma SourceNodeOnWire(sch: Schema, d: Design, at: Path, s: Design, path: Path)
    requires IsSlice(sch, d, at, s) && path in d && Inside(at, path)
    ensures OwnWire(s, path, d[path].cls, WireAttrs(d[path]))
  {
    hide Carry, CarriedBind, PinnedAt, Pinned;
    assert s[path].(binds := []) == d[path].(binds := []);
    assert WireAttrs(s[path]) == WireAttrs(d[path]) && s[path].cls == d[path].cls;
  }

  /** A relation of the source seen at or below the sliced path is on the wire of the slice. */
  lemma SourceRelationOnWire(sch: Schema, d: Design, at: Path, s: Design, land: Path, rs: Rs)
    requires Sliceable(sch, d, at) && IsSlice(sch, d, at, s)
    requires Emitted(sch, d, land, rs) && Inside(at, land + [rs.rn])
    ensures OnWire(sch, s, land + [rs.rn], rs.cls, rs.attrs)
  {
    var path := land + [rs.rn];
    if path in d {
      hide Carry, Emit, LookupTarget, IsSlice;
      assert OwnWire(d, path, rs.cls, rs.attrs);
      SourceNodeOnWire(sch, d, at, s, path);
    } else {
      assert Inside(at, land) by {
        assert at != path;
        assert at == path[..|at|] && |at| <= |land|;
        assert land[..|at|] == path[..|at|];
      }
      LandingIsCarried(sch, d, at, s, land, rs);
      if Emitted(sch, s, land, rs) {
        hide Emitted, IsSlice, Resolves;
        assert EmitsAt(sch, s, path, rs.cls, rs.attrs);
      } else {
        PinnedIsWritten(sch, d, at, s, land, rs);
      }
    }
  }

  lemma PinnedIsWritten(sch: Schema, d: Design, at: Path, s: Design, land: Path, rs: Rs)
    requires Sliceable(sch, d, at) && IsSlice(sch, d, at, s) && Pinned(sch, d, at, land, rs)
    requires land + [rs.rn] !in d
    ensures OwnWire(s, land + [rs.rn], rs.cls, rs.attrs)
  {
    hide Carry, Emit, LookupTarget;
    var path := land + [rs.rn];
    assert path in s && PinnedAt(sch, d, at, path, s[path]);
    var l2, r2 :| Pinned(sch, d, at, l2, r2) && path == l2 + [r2.rn] && s[path].cls == r2.cls && WireAttrs(s[path]) == r2.attrs;
    PinnedIsEmitted(sch, d, at, land, rs);
    PinnedIsEmitted(sch, d, at, l2, r2);
    hide IsSlice, Pinned, Emitted;
    assert l2 == path[..|path| - 1] == land;
    assert r2.rn == path[|path| - 1] == rs.rn;
  }

  /**
   * The objects the envelope of a slice writes at or below the sliced DN are exactly those the
   * envelope of the source writes there, through kept, redirected, pinned and inverse references.
   */
  lemma SliceKeepsTheWire(sch: Schema, d: Design, at: Path, s: Design, path: Path, cls: string, attrs: map<string, string>)
    requires Sliceable(sch, d, at) && IsSlice(sch, d, at, s) && Inside(at, path)
    ensures OnWire(sch, s, path, cls, attrs) <==> OnWire(sch, d, path, cls, attrs)
  {
    hide IsSlice, Sliceable, Emitted;
    if OwnWire(s, path, cls, attrs) { SliceNodeOnWire(sch, d, at, s, path); }
    if land, rs :| Emitted(sch, s, land, rs) && path == land + [rs.rn] && cls == rs.cls && attrs == rs.attrs {
      EmittedBySlice(sch, d, at, s, land, rs);
      assert EmitsAt(sch, d, path, cls, attrs);
    }
    if OwnWire(d, path, cls, attrs) { SourceNodeOnWire(sch, d, at, s, path); }
    if land, rs :| Emitted(sch, d, land, rs) && path == land + [rs.rn] && cls == rs.cls && attrs == rs.attrs {
      SourceRelationOnWire(sch, d, at, s, land, rs);
    }
  }

  lemma OutsideNodeIsBare(sch: Schema, d: Design, at: Path, s: Design, path: Path)
    requires Sliceable(sch, d, at) && IsSlice(sch, d, at, s) && !Inside(at, path)
    ensures path in s <==> path < at && path in d
    ensures path in s ==> s[path] == Bare(d[path])
  {
    hide Carry, Emit, LookupTarget, CarriedBind, Emitted;
    if path in s && !(path < at && path in d) {
      var land, rs :| Pinned(sch, d, at, land, rs) && path == land + [rs.rn];
      hide Resolves, IsSlice;
      PinnedIsEmitted(sch, d, at, land, rs) by { assert Sliceable(sch, d, at); }
    }
  }

  /** Outside the sliced subtree a slice writes its ancestors only, by their naming attributes. */
  lemma SliceWritesNothingElse(sch: Schema, d: Design, at: Path, s: Design, path: Path, cls: string, attrs: map<string, string>)
    requires Sliceable(sch, d, at) && IsSlice(sch, d, at, s) && !Inside(at, path)
    ensures OnWire(sch, s, path, cls, attrs) <==> path < at && path in d && cls == d[path].cls && attrs == d[path].naming
  {
    hide IsSlice, Sliceable, Emitted;
    OutsideNodeIsBare(sch, d, at, s, path);
    if path in s {
      assert d[path].naming + map[] == d[path].naming;
    }
    if land, rs :| Emitted(sch, s, land, rs) && path == land + [rs.rn] {
      EmittedBySlice(sch, d, at, s, land, rs);
    }
  }

  /** A slice of a design that resolves is itself a design that resolves. */
  lemma SliceResolves(sch: Schema, d: Design, at: Path, s: Design)
    requires Sliceable(sch, d, at) && IsSlice(sch, d, at, s)
    ensures Resolves(sch, s)
  {
    hide IsSlice, Sliceable, Emitted, Emit;
    forall p, b | p in s && b in s[p].binds ensures Emit(sch, s, p, b).Emits? {
      SliceBindEmits(sch, d, at, s, p, b);
    }
    forall land, r, t | Emitted(sch, s, land, r) && Emitted(sch, s, land, t) && r.rn == t.rn ensures r == t {
      EmittedBySlice(sch, d, at, s, land, r);
      EmittedBySlice(sch, d, at, s, land, t);
      OneRelationPerRn(sch, d, at, land, r, t);
    }
    forall land, r | Emitted(sch, s, land, r) && land + [r.rn] in s
      ensures OwnWire(s, land + [r.rn], r.cls, r.attrs)
    {
      var path := land + [r.rn];
      EmittedBySlice(sch, d, at, s, land, r);
      SliceNodeOnWire(sch, d, at, s, path);
      assert EmitsAt(sch, d, path, r.cls, r.attrs);
      SameWire(sch, d, at, path, r.cls, r.attrs, s[path].cls, WireAttrs(s[path]));
    }
  }

  lemma OneRelationPerRn(sch: Schema, d: Design, at: Path, land: Path, r: Rs, t: Rs)
    requires Sliceable(sch, d, at) && Emitted(sch, d, land, r) && Emitted(sch, d, land, t) && r.rn == t.rn
    ensures r == t
  {
    hide Emitted;
  }

  lemma SameWire(sch: Schema, d: Design, at: Path, path: Path, c1: string, a1: map<string, string>, c2: string, a2: map<string, string>)
    requires Sliceable(sch, d, at) && OnWire(sch, d, path, c1, a1) && OnWire(sch, d, path, c2, a2)
    ensures c1 == c2 && a1 == a2
  {
    hide OnWire, Resolves;
    WireIsFunctional(sch, d, path, c1, a1, c2, a2);
  }
}
