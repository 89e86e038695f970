/** `slice_design` as it runs: clones filled in, references appended, relations pinned. */
module SliceProgram {
  import opened Text
  import opened Dn
  import opened Resolver
  import opened References
  import opened Slice

  // ---- The slice under construction

  /** References already examined, as (owner, reference). */
  type Done = set<(Path, Bind)>

  ghost predicate CarriedSoFar(sch: Schema, d: Design, at: Path, done: Done, owner: Path, b: Bind)
    requires owner in d
  {
    exists c :: (owner, c) in done && c in d[owner].binds &&
      ((Carry(sch, d, at, owner, c).Keep? && b == c) || Carry(sch, d, at, owner, c) == Redirect(b))
  }

  ghost predicate PinnedSoFar(sch: Schema, d: Design, at: Path, done: Done, land: Path, rs: Rs) {
    exists p, b :: (p, b) in done && p in d && b in d[p].binds && Carry(sch, d, at, p, b) == Pin(land, rs)
  }

  ghost predicate PinnedAtSoFar(sch: Schema, d: Design, at: Path, done: Done, path: Path, n: Decl) {
    exists land, rs :: PinnedSoFar(sch, d, at, done, land, rs) && path == land + [rs.rn] &&
      n.cls == rs.cls && WireAttrs(n) == rs.attrs && n.binds == []
  }

  /** One path of the slice: a bare ancestor, a copy with the references carried so far, or a pin. */
  ghost predicate PathSliced(sch: Schema, d: Design, at: Path, done: Done, s: Design, p: Path) {
    && (p in d && p < at ==> p in s && s[p] == Bare(d[p]))
    && (p in d && Inside(at, p) ==>
          p in s && s[p].(binds := []) == d[p].(binds := []) &&
          forall b :: b in s[p].binds <==> CarriedSoFar(sch, d, at, done, p, b))
    && (p in s && !(p in d && (p < at || Inside(at, p))) ==> PinnedAtSoFar(sch, d, at, done, p, s[p]))
  }

  ghost predicate PinsPresent(sch: Schema, d: Design, at: Path, done: Done, s: Design) {
    forall land, rs :: PinnedSoFar(sch, d, at, done, land, rs) ==> land + [rs.rn] in s
  }

  ghost predicate SliceSoFar(sch: Schema, d: Design, at: Path, done: Done, s: Design) {
    PinsPresent(sch, d, at, done, s) && forall p :: PathSliced(sch, d, at, done, s, p)
  }

  lemma AllDoneIsSlice(sch: Schema, d: Design, at: Path, done: Done, s: Design)
    requires SliceSoFar(sch, d, at, done, s)
    requires forall p, b :: p in d && b in d[p].binds ==> (p, b) in done
    ensures IsSlice(sch, d, at, s)
  {
    hide Carry;
    forall p, b | p in d ensures CarriedSoFar(sch, d, at, done, p, b) <==> CarriedBind(sch, d, at, p, b) {
      if c :| c in d[p].binds && ((Carry(sch, d, at, p, c).Keep? && b == c) || Carry(sch, d, at, p, c) == Redirect(b)) {
        assert (p, c) in done;
      }
    }
    forall land, rs ensures PinnedSoFar(sch, d, at, done, land, rs) <==> Pinned(sch, d, at, land, rs) {
      if p, b :| p in d && b in d[p].binds && Carry(sch, d, at, p, b) == Pin(land, rs) {
        assert (p, b) in done;
      }
    }
    hide CarriedSoFar, CarriedBind, PinnedSoFar, Pinned;
    forall p
      ensures p in d && p < at ==> p in s && s[p] == Bare(d[p])
      ensures p in d && Inside(at, p) ==>
                p in s && s[p].(binds := []) == d[p].(binds := []) &&
                forall b :: b in s[p].binds <==> CarriedBind(sch, d, at, p, b)
      ensures p in s && !(p in d && (p < at || Inside(at, p))) ==> PinnedAt(sch, d, at, p, s[p])
    {
      assert PathSliced(sch, d, at, done, s, p);
    }
  }

  class Composition {
    var nodes: Design

    constructor ()
      ensures nodes == map[]
    {
      nodes := map[];
    }

    /** `_clone_node`: identity only, or identity and attributes; references come in a second pass. */
    method CloneNode(path: Path, n: Decl, bare: bool)
      modifies this
      ensures nodes == old(nodes)[path := if bare then Bare(n) else n.(binds := [])]
    {
      nodes := nodes[path := if bare then Bare(n) else n.(binds := [])];
    }

    method AppendBind(path: Path, b: Bind)
      requires path in nodes
      modifies this
      ensures nodes == old(nodes)[path := old(nodes)[path].(binds := old(nodes)[path].binds + [b])]
    {
      nodes := nodes[path := nodes[path].(binds := nodes[path].binds + [b])];
    }

    /** `_pin_rs`: an identical relation already there is the same wire object; any other is refused. */
    method PinRs(land: Path, rs: Rs, name: string) returns (ok: bool)
      modifies this
      ensures var path := land + [rs.rn];
              && ok == (path !in old(nodes) || (old(nodes)[path].cls == rs.cls && WireAttrs(old(nodes)[path]) == rs.attrs))
              && nodes == if path in old(nodes) then old(nodes) else old(nodes)[path := Decl(rs.cls, name, map[], rs.attrs, [])]
    {
      var path := land + [rs.rn];
      if path in nodes {
        return nodes[path].cls == rs.cls && WireAttrs(nodes[path]) == rs.attrs;
      }
      nodes := nodes[path := Decl(rs.cls, name, map[], rs.attrs, [])];
      return true;
    }
  }

  /** The owner gains these references at the end of its list, and no other object gains any. */
  ghost predicate BindsGrow(a: Design, b: Design, owner: Path, more: seq<Bind>) {
    forall p :: p in a ==> p in b && b[p].binds == a[p].binds + if p == owner then more else []
  }

  lemma GrowAgain(a: Design, b: Design, c: Design, owner: Path, x: seq<Bind>, y: seq<Bind>)
    requires BindsGrow(a, b, owner, x) && BindsGrow(b, c, owner, y)
    ensures BindsGrow(a, c, owner, x + y)
  {
  }

  // ---- One reference

  lemma CarryDrops(sch: Schema, d: Design, at: Path, done: Done, s: Design, p: Path, b: Bind)
    requires SliceSoFar(sch, d, at, done, s) && p in d && Carry(sch, d, at, p, b).Drop?
    ensures SliceSoFar(sch, d, at, done + {(p, b)}, s)
  {
    SameCarriage(sch, d, at, done, p, b);
    hide Carry, CarriedSoFar, PinnedSoFar;
    forall q ensures PathSliced(sch, d, at, done + {(p, b)}, s, q) {
      assert PathSliced(sch, d, at, done, s, q);
    }
  }

  /** A reference that is neither carried nor pinned changes neither relation. */
  lemma SameCarriage(sch: Schema, d: Design, at: Path, done: Done, p: Path, b: Bind)
    requires p in d && Carry(sch, d, at, p, b).Drop?
    ensures forall q, x :: q in d ==> (CarriedSoFar(sch, d, at, done + {(p, b)}, q, x) <==> CarriedSoFar(sch, d, at, done, q, x))
    ensures forall land, rs :: PinnedSoFar(sch, d, at, done + {(p, b)}, land, rs) <==> PinnedSoFar(sch, d, at, done, land, rs)
  {
    hide Carry;
  }

  lemma AppendGrows(sch: Schema, d: Design, at: Path, done: Done, p: Path, b: Bind, x: Bind)
    requires p in d && b in d[p].binds
    requires (Carry(sch, d, at, p, b).Keep? && x == b) || Carry(sch, d, at, p, b) == Redirect(x)
    ensures forall q, y :: q in d ==>
              (CarriedSoFar(sch, d, at, done + {(p, b)}, q, y) <==> CarriedSoFar(sch, d, at, done, q, y) || (q == p && y == x))
    ensures forall land, rs :: PinnedSoFar(sch, d, at, done + {(p, b)}, land, rs) <==> PinnedSoFar(sch, d, at, done, land, rs)
  {
    hide Carry;
    assert (p, b) in done + {(p, b)};
  }

  lemma PinGrows(sch: Schema, d: Design, at: Path, done: Done, p: Path, b: Bind, land: Path, rs: Rs)
    requires p in d && b in d[p].binds && Carry(sch, d, at, p, b) == Pin(land, rs)
    ensures forall q, y :: q in d ==> (CarriedSoFar(sch, d, at, done + {(p, b)}, q, y) <==> CarriedSoFar(sch, d, at, done, q, y))
    ensures forall l, r :: PinnedSoFar(sch, d, at, done + {(p, b)}, l, r) <==>
                           PinnedSoFar(sch, d, at, done, l, r) || (l == land && r == rs)
  {
    hide Carry;
    assert (p, b) in done + {(p, b)};
  }

  lemma CarryAppends(sch: Schema, d: Design, at: Path, done: Done, s: Design, p: Path, b: Bind, x: Bind)
    requires SliceSoFar(sch, d, at, done, s) && p in d && b in d[p].binds && Inside(at, p)
    requires (Carry(sch, d, at, p, b).Keep? && x == b) || Carry(sch, d, at, p, b) == Redirect(x)
    ensures p in s && SliceSoFar(sch, d, at, done + {(p, b)}, s[p := s[p].(binds := s[p].binds + [x])])
  {
    AppendGrows(sch, d, at, done, p, b, x);
    hide Carry, CarriedSoFar, PinnedSoFar;
    assert PathSliced(sch, d, at, done, s, p);
    var after := s[p := s[p].(binds := s[p].binds + [x])];
    forall q ensures PathSliced(sch, d, at, done + {(p, b)}, after, q) {
      assert PathSliced(sch, d, at, done, s, q);
      if q in s { SamePins(sch, d, at, done, done + {(p, b)}, q, s[q]); }
    }
  }

  lemma SamePins(sch: Schema, d: Design, at: Path, done: Done, more: Done, path: Path, n: Decl)
    requires forall l, r :: PinnedSoFar(sch, d, at, done, l, r) ==> PinnedSoFar(sch, d, at, more, l, r)
    ensures PinnedAtSoFar(sch, d, at, done, path, n) ==> PinnedAtSoFar(sch, d, at, more, path, n)
  {
    hide PinnedSoFar;
  }

  lemma CarryPins(sch: Schema, d: Design, at: Path, done: Done, s: Design, p: Path, b: Bind, land: Path, rs: Rs, name: string)
    requires SliceSoFar(sch, d, at, done, s) && p in d && b in d[p].binds
    requires Carry(sch, d, at, p, b) == Pin(land, rs) && Inside(at, land)
    ensures var path := land + [rs.rn];
            SliceSoFar(sch, d, at, done + {(p, b)},
                       if path in s then s else s[path := Decl(rs.cls, name, map[], rs.attrs, [])])
  {
    PinGrows(sch, d, at, done, p, b, land, rs);
    hide Carry, CarriedSoFar, PinnedSoFar;
    var path, more := land + [rs.rn], done + {(p, b)};
    var n := Decl(rs.cls, name, map[], rs.attrs, []);
    var after := if path in s then s else s[path := n];
    assert WireAttrs(n) == rs.attrs by { assert map[] + rs.attrs == rs.attrs; }
    assert PinnedSoFar(sch, d, at, more, land, rs);
    assert PinnedAtSoFar(sch, d, at, more, path, n);
    forall q ensures PathSliced(sch, d, at, more, after, q) {
      assert PathSliced(sch, d, at, done, s, q);
      if q in s { SamePins(sch, d, at, done, more, q, s[q]); }
    }
  }

  lemma PinLandsInside(sch: Schema, d: Design, at: Path, p: Path, b: Bind)
    requires p in d
    ensures Carry(sch, d, at, p, b).Pin? ==> Inside(at, Carry(sch, d, at, p, b).land)
    ensures Carry(sch, d, at, p, b).Keep? || Carry(sch, d, at, p, b).Redirect? ==> Inside(at, p)
  {
    hide LookupTarget;
  }

  /** A pin never contradicts the slice of a design that resolves. */
  lemma PinAgrees(sch: Schema, d: Design, at: Path, done: Done, s: Design, p: Path, b: Bind, land: Path, rs: Rs)
    requires Resolves(sch, d) && SliceSoFar(sch, d, at, done, s) && p in d && b in d[p].binds
    requires Carry(sch, d, at, p, b) == Pin(land, rs) && land + [rs.rn] in s
    ensures var n := s[land + [rs.rn]]; n.cls == rs.cls && WireAttrs(n) == rs.attrs
  {
    var path := land + [rs.rn];
    PinIsEmission(sch, d, at, p, b, land, rs);
    assert Inside(at, path) && Emitted(sch, d, land, rs);
    assert PathSliced(sch, d, at, done, s, path);
    hide Carry, Emit;
    if path in d {
      assert OwnWire(d, path, rs.cls, rs.attrs);
      assert s[path].(binds := []) == d[path].(binds := []);
    } else {
      assert PinnedAtSoFar(sch, d, at, done, path, s[path]);
      var l, r :| PinnedSoFar(sch, d, at, done, l, r) && path == l + [r.rn] && s[path].cls == r.cls && WireAttrs(s[path]) == r.attrs;
      var q, c :| (q, c) in done && q in d && c in d[q].binds && Carry(sch, d, at, q, c) == Pin(l, r);
      PinIsEmission(sch, d, at, q, c, l, r);
      assert Emitted(sch, d, l, r);
      hide Emitted;
      assert l == path[..|path| - 1] == land && r.rn == path[|path| - 1] == rs.rn;
    }
  }

  method ComputeCarry(sch: Schema, d: Design, order: seq<Path>, index: Index, at: Path, owner: Path, b: Bind) returns (c: Carried)
    requires WfSchema(sch) && Enumerates(order, d) && Indexes(index, d, order) && owner in d
    ensures c == Carry(sch, d, at, owner, b)
  {
    if b.ToDn? { return if Inside(at, owner) then Keep else Drop; }
    var found := ComputeLookup(sch, d, order, index, owner, b.targetCls, b.name);
    if found.Found? {
      WinnerIsFound(sch, d, owner, b.targetCls, b.name, found.target);
      return CarryFound(sch, d, at, owner, b, found.target);
    }
    return if Inside(at, owner) then Keep else Drop;
  }

  /** `_carry_bind` on the composition. */
  method CarryBind(comp: Composition, sch: Schema, d: Design, order: seq<Path>, index: Index, at: Path, owner: Path, b: Bind, ghost done: Done)
    returns (ok: bool)
    requires WfSchema(sch) && Enumerates(order, d) && Indexes(index, d, order)
    requires owner in d && b in d[owner].binds && SliceSoFar(sch, d, at, done, comp.nodes)
    modifies comp
    ensures ok ==> SliceSoFar(sch, d, at, done + {(owner, b)}, comp.nodes)
    ensures ok ==> BindsGrow(old(comp.nodes), comp.nodes, owner, CarriedAs(sch, d, at, owner, b))
    ensures Resolves(sch, d) ==> ok
  {
    var c := ComputeCarry(sch, d, order, index, at, owner, b);
    PinLandsInside(sch, d, at, owner, b);
    ghost var s := comp.nodes;
    assert Resolves(sch, d) ==> !c.PinRaises? by { NoPinRaises(sch, d, at, owner, b); }
    hide Carry, Resolves, SliceSoFar;
    match c
    case Drop =>
      CarryDrops(sch, d, at, done, s, owner, b);
      ok := true;
    case Keep =>
      CarryAppends(sch, d, at, done, s, owner, b, b);
      comp.AppendBind(owner, b);
      ok := true;
    case Redirect(x) =>
      CarryAppends(sch, d, at, done, s, owner, b, x);
      comp.AppendBind(owner, x);
      ok := true;
    case Pin(land, rs) =>
      CarryPins(sch, d, at, done, s, owner, b, land, rs, "");
      if Resolves(sch, d) && land + [rs.rn] in s { PinAgrees(sch, d, at, done, s, owner, b, land, rs); }
      ok := comp.PinRs(land, rs, "");
    case PinRaises =>
      ok := false;
  }

  lemma NoPinRaises(sch: Schema, d: Design, at: Path, owner: Path, b: Bind)
    requires owner in d && b in d[owner].binds
    ensures Resolves(sch, d) ==> !Carry(sch, d, at, owner, b).PinRaises?
  {
    if Resolves(sch, d) {
      assert Emit(sch, d, owner, b).Emits?;
      CarryOfEmission(sch, d, at, owner, b);
    }
  }

  // ---- The whole slice

  lemma EmptyDone(sch: Schema, d: Design, at: Path, s: Design)
    requires forall p :: p in s <==> p in d && (p < at || Inside(at, p))
    requires forall p :: p in s ==> s[p] == if p < at then Bare(d[p]) else d[p].(binds := [])
    ensures SliceSoFar(sch, d, at, {}, s)
  {
    hide Carry;
  }

  /** The ancestors of the slice, root first, by identity only. */
  method CloneChain(comp: Composition, d: Design, at: Path)
    requires WfPaths(d) && at in d && comp.nodes == map[]
    modifies comp
    ensures forall p :: p in comp.nodes <==> p in d && p < at
    ensures forall p :: p in comp.nodes ==> comp.nodes[p] == Bare(d[p])
  {
    for n := 1 to |at|
      invariant forall p :: p in comp.nodes <==> p in d && p < at && |p| < n
      invariant forall p :: p in comp.nodes ==> comp.nodes[p] == Bare(d[p])
    {
      PrefixDeclared(d, at, n);
      assert at[..n] < at && forall p :: p < at && |p| == n ==> p == at[..n];
      comp.CloneNode(at[..n], d[at[..n]], true);
    }
  }

  /** The sliced node and everything below it, with attributes. */
  method CloneSubtree(comp: Composition, d: Design, order: seq<Path>, at: Path)
    requires forall p :: p in order ==> p in d
    modifies comp
    ensures forall p :: p in comp.nodes <==> p in old(comp.nodes) || (Inside(at, p) && p in order)
    ensures forall p :: p in comp.nodes ==>
              comp.nodes[p] == if Inside(at, p) && p in order then d[p].(binds := []) else old(comp.nodes)[p]
  {
    for i := 0 to |order|
      invariant forall p :: p in comp.nodes <==> p in old(comp.nodes) || (Inside(at, p) && p in order[..i])
      invariant forall p :: p in comp.nodes ==>
                  comp.nodes[p] == if Inside(at, p) && p in order[..i] then d[p].(binds := []) else old(comp.nodes)[p]
    {
      assert order[i] in order && order[..i + 1] == order[..i] + [order[i]];
      if Inside(at, order[i]) { comp.CloneNode(order[i], d[order[i]], false); }
    }
    assert order[..|order|] == order;
  }

  /** The node at a DN, as the walk over the design finds it. */
  method LocateByDn(d: Design, order: seq<Path>, dn: string) returns (at: Option<Path>)
    requires Enumerates(order, d)
    ensures at.None? <==> forall p :: p in d ==> JoinDn(p) != dn
    ensures at.Some? ==> at.value in d && JoinDn(at.value) == dn
  {
    at := None;
    for i := 0 to |order|
      invariant at.None? <==> forall p :: p in order[..i] ==> JoinDn(p) != dn
      invariant at.Some? ==> at.value in d && JoinDn(at.value) == dn
    {
      assert order[i] in order && order[..i + 1] == order[..i] + [order[i]];
      if JoinDn(order[i]) == dn { at := Some(order[i]); }
    }
    assert order[..|order|] == order;
  }

  /** The references of one owner, identical duplicates examined once. */
  method CarryBinds(comp: Composition, sch: Schema, d: Design, order: seq<Path>, index: Index, at: Path, owner: Path, ghost done: Done)
    returns (ok: bool, ghost after: Done)
    requires WfSchema(sch) && Enumerates(order, d) && Indexes(index, d, order) && KeysIdentify(d)
    requires owner in d && SliceSoFar(sch, d, at, done, comp.nodes)
    modifies comp
    ensures ok ==> SliceSoFar(sch, d, at, after, comp.nodes) && done <= after && forall b :: b in d[owner].binds ==> (owner, b) in after
    ensures ok ==> BindsGrow(old(comp.nodes), comp.nodes, owner, CarriedList(sch, d, at, owner, d[owner].binds))
    ensures Resolves(sch, d) ==> ok
  {
    hide SliceSoFar, Resolves, Indexes, WfSchema, Enumerates, CarriedAs;
    ghost var start := comp.nodes;
    var binds := d[owner].binds;
    var seen: set<(nat, string, string, string, map<string, string>)> := {};
    after := done;
    for i := 0 to |binds|
      invariant SliceSoFar(sch, d, at, after, comp.nodes) && done <= after
      invariant forall b :: b in binds[..i] ==> (owner, b) in after
      invariant KeysOf(seen, binds[..i])
      invariant BindsGrow(start, comp.nodes, owner, CarriedList(sch, d, at, owner, binds[..i]))
    {
      var b := binds[i];
      assert b in binds && binds[..i + 1] == binds[..i] + [b];
      CarriedSnoc(sch, d, at, owner, binds, i);
      KeysSnoc(seen, binds[..i], b);
      hide CarriedList, BindsGrow, KeysOf, BindKey;
      ghost var mid := comp.nodes;
      if BindKey(b) !in seen {
        seen := seen + {BindKey(b)};
        ok := CarryBind(comp, sch, d, order, index, at, owner, b, after);
        if !ok { return; }
        after := after + {(owner, b)};
        GrowAgain(start, mid, comp.nodes, owner, CarriedList(sch, d, at, owner, binds[..i]), CarriedAs(sch, d, at, owner, b));
      }
    }
    assert binds[..|binds|] == binds;
    ok := true;
  }

  ghost predicate KeysOf(seen: set<(nat, string, string, string, map<string, string>)>, binds: seq<Bind>) {
    forall k :: k in seen <==> exists b :: b in binds && BindKey(b) == k
  }

  lemma KeysSnoc(seen: set<(nat, string, string, string, map<string, string>)>, binds: seq<Bind>, b: Bind)
    requires KeysOf(seen, binds)
    ensures BindKey(b) in seen <==> KeySeen(binds, b)
    ensures KeysOf(seen + {BindKey(b)}, binds + [b])
    ensures BindKey(b) in seen ==> KeysOf(seen, binds + [b]) && exists c :: c in binds && BindKey(c) == BindKey(b)
  {
    hide BindKey;
    assert forall c :: c in binds + [b] <==> c in binds || c == b;
  }

  lemma CarriedSnoc(sch: Schema, d: Design, at: Path, owner: Path, binds: seq<Bind>, i: nat)
    requires owner in d && i < |binds|
    ensures CarriedList(sch, d, at, owner, binds[..i + 1]) ==
            CarriedList(sch, d, at, owner, binds[..i]) +
            if KeySeen(binds[..i], binds[i]) then [] else CarriedAs(sch, d, at, owner, binds[i])
  {
    hide BindKey, CarriedAs;
    assert binds[..i + 1][..i] == binds[..i];
  }

  /** The owners seen so far have gained what their references leave. */
  ghost predicate AllGrown(sch: Schema, d: Design, at: Path, a: Design, b: Design, owners: seq<Path>) {
    forall p :: p in a ==> p in b && b[p].binds == a[p].binds + if p in owners && p in d then CarriedList(sch, d, at, p, d[p].binds) else []
  }

  lemma GrownSnoc(sch: Schema, d: Design, at: Path, a: Design, b: Design, c: Design, owners: seq<Path>, p: Path)
    requires AllGrown(sch, d, at, a, b, owners) && p in d && p !in owners
    requires BindsGrow(b, c, p, CarriedList(sch, d, at, p, d[p].binds))
    ensures AllGrown(sch, d, at, a, c, owners + [p])
  {
    hide CarriedList;
    forall q | q in a
      ensures q in c && c[q].binds == a[q].binds + if q in owners + [p] && q in d then CarriedList(sch, d, at, q, d[q].binds) else []
    {
      assert q in b;
    }
  }

  method CarryAll(comp: Composition, sch: Schema, d: Design, order: seq<Path>, index: Index, at: Path) returns (ok: bool)
    requires WfSchema(sch) && Enumerates(order, d) && Indexes(index, d, order) && KeysIdentify(d)
    requires SliceSoFar(sch, d, at, {}, comp.nodes)
    modifies comp
    ensures ok ==> IsSlice(sch, d, at, comp.nodes)
    ensures ok ==> AllGrown(sch, d, at, old(comp.nodes), comp.nodes, order)
    ensures Resolves(sch, d) ==> ok
  {
    hide SliceSoFar, Resolves, Indexes, IsSlice, WfSchema, KeysIdentify, CarriedList;
    ghost var start := comp.nodes;
    ghost var done: Done := {};
    for i := 0 to |order|
      invariant SliceSoFar(sch, d, at, done, comp.nodes)
      invariant forall p, b :: p in order[..i] && p in d && b in d[p].binds ==> (p, b) in done
      invariant AllGrown(sch, d, at, start, comp.nodes, order[..i])
    {
      assert order[i] in order && order[..i + 1] == order[..i] + [order[i]];
      assert order[i] !in order[..i];
      hide AllGrown, BindsGrow;
      ghost var before, mid := done, comp.nodes;
      ok, done := CarryBinds(comp, sch, d, order, index, at, order[i], done);
      if !ok { return; }
      GrownSnoc(sch, d, at, start, mid, comp.nodes, order[..i], order[i]);
    }
    assert order[..|order|] == order;
    AllDoneIsSlice(sch, d, at, done, comp.nodes);
    ok := true;
  }

  lemma AllHave(sch: Schema, d: Design, at: Path, a: Design, b: Design, order: seq<Path>)
    requires AllGrown(sch, d, at, a, b, order) && forall p :: p in d ==> p in order
    requires forall p :: p in d && at <= p ==> p in a && a[p].binds == []
    ensures forall p :: p in d && at <= p ==> p in b && b[p].binds == CarriedList(sch, d, at, p, d[p].binds)
  {
    hide CarriedList;
  }

  /**
   * `slice_design`: refused when nothing is declared at the DN; on a design that resolves it always
   * returns the slice of the node found there.
   */
  method SliceDesign(sch: Schema, d: Design, order: seq<Path>, dn: string) returns (r: Option<Design>, ghost at: Option<Path>)
    requires WfSchema(sch) && Enumerates(order, d) && WfPaths(d) && KeysIdentify(d)
    ensures at.None? <==> forall p :: p in d ==> JoinDn(p) != dn
    ensures at.None? ==> r.None?
    ensures at.Some? ==> at.value in d && JoinDn(at.value) == dn
    ensures at.Some? && Resolves(sch, d) ==> r.Some?
    ensures r.Some? ==> at.Some? && IsSlice(sch, d, at.value, r.value)
    ensures r.Some? ==> forall p :: p in d && at.value <= p ==>
              p in r.value && r.value[p].binds == CarriedList(sch, d, at.value, p, d[p].binds)
  {
    var target := LocateByDn(d, order, dn);
    at := target;
    if target.None? { return None, at; }
    var index := BuildIndex(d, order);
    var comp := new Composition();
    CloneChain(comp, d, target.value);
    CloneSubtree(comp, d, order, target.value);
    EmptyDone(sch, d, target.value, comp.nodes);
    ghost var start := comp.nodes;
    assert forall p :: p in d && target.value <= p ==> p in start && start[p].binds == [] by {
      assert forall p :: p in d ==> p in order;
    }
    var ok := CarryAll(comp, sch, d, order, index, target.value);
    hide CarriedList, IsSlice, Resolves;
    assert ok ==> forall p :: p in d && target.value <= p ==>
             p in comp.nodes && comp.nodes[p].binds == CarriedList(sch, d, target.value, p, d[p].binds) by {
      if ok { AllHave(sch, d, target.value, start, comp.nodes, order); }
    }
    return if ok then Some(comp.nodes) else None, at;
  }
}
