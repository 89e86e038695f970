/** Exactly which designs their emitted code rebuilds (`to_code` in `_emit.py`, the doors of `_cursor.py`). */
module ReplayExact {
  import opened Text
  import opened Dn
  import opened Emit
  import opened Replay
  import opened ReplayTheorems

  // ---- What a run never takes back

  ghost predicate SameMade(a: Cell, b: Cell) {
    a.cls == b.cls && a.position == b.position && a.naming == b.naming && a.attrs == b.attrs && a.refs == b.refs
  }

  /** Cells are only added: class, position, naming, attributes and references of those there stay. */
  ghost predicate Kept(a: seq<Cell>, b: seq<Cell>) {
    |a| <= |b| && forall i :: 0 <= i < |a| ==> SameMade(a[i], b[i])
  }

  lemma KeptTransitive(a: seq<Cell>, b: seq<Cell>, c: seq<Cell>)
    requires Kept(a, b) && Kept(b, c)
    ensures Kept(a, c)
  {
  }

  // ---- References that were taken

  /** The references `more` have been looked up and added to those of `a`. */
  ghost predicate Took(lang: Lang, a: Cell, more: seq<Ref>, b: Cell) {
    && b == a.(refs := b.refs) && |b.refs| == |a.refs| + |more| && b.refs[..|a.refs|] == a.refs
    && Callable(lang, a.cls, a.position, more)
    && forall i :: 0 <= i < |more| ==> Some(b.refs[|a.refs| + i].cls) == lang.pointsAt(a.cls, more[i].kind, more[i].alias)
  }

  lemma TookOne(lang: Lang, env: map<string, nat>, c: Cell, r: Ref)
    requires WithRef(lang, env, c, CallOf(r)).Some?
    ensures Took(lang, c, [r], WithRef(lang, env, c, CallOf(r)).value)
  {
  }

  lemma TookMore(lang: Lang, a: Cell, r: Ref, b: Cell, rest: seq<Ref>, c: Cell)
    requires Took(lang, a, [r], b) && Took(lang, b, rest, c)
    ensures Took(lang, a, [r] + rest, c)
  {
    var more, n := [r] + rest, |a.refs|;
    assert c.refs[..n] == c.refs[..n + 1][..n];
    assert r in [r];
    forall i | 0 <= i < |more| ensures Some(c.refs[n + i].cls) == lang.pointsAt(a.cls, more[i].kind, more[i].alias) {
      if i == 0 { assert c.refs[n] == c.refs[..n + 1][n] == b.refs[n]; } else { assert c.refs[|b.refs| + (i - 1)] == c.refs[n + i]; }
    }
  }

  lemma {:induction false} CallsTaken(lang: Lang, env: map<string, nat>, c: Cell, refs: seq<Ref>)
    requires WithRefs(lang, env, c, CallsOf(refs)).Some?
    ensures Took(lang, c, refs, WithRefs(lang, env, c, CallsOf(refs)).value)
    decreases |refs|
  {
    if refs != [] {
      var next := WithRef(lang, env, c, CallOf(refs[0])).value;
      assert CallsOf(refs)[1..] == CallsOf(refs[1..]);
      TookOne(lang, env, c, refs[0]);
      CallsTaken(lang, env, next, refs[1..]);
      assert refs == [refs[0]] + refs[1..];
      hide WithRef, Took;
      TookMore(lang, c, refs[0], next, refs[1..], WithRefs(lang, env, next, CallsOf(refs[1..])).value);
    }
  }

  /** Only the cell `i` changed. */
  ghost predicate OnlyAt(a: seq<Cell>, b: seq<Cell>, i: nat) {
    |a| == |b| && i < |a| && forall j :: 0 <= j < |a| && j != i ==> b[j] == a[j]
  }

  lemma {:induction false} RefLinesTaken(lang: Lang, m: Machine, v: string, i: nat, refs: seq<Ref>, after: Machine)
    requires v in m.env && m.env[v] == i < |m.cells| && Run(lang, m, RefLines(v, refs)) == Some(after)
    ensures after.env == m.env && OnlyAt(m.cells, after.cells, i) && Took(lang, m.cells[i], refs, after.cells[i])
    decreases |refs|
  {
    if refs != [] {
      var line := AddRef(v, CallOf(refs[0]));
      assert RefLines(v, refs)[0] == line && RefLines(v, refs)[1..] == RefLines(v, refs[1..]);
      var next := Step(lang, m, line).value;
      TookOne(lang, m.env, m.cells[i], refs[0]);
      hide Took, WithRef;
      RefLinesTaken(lang, next, v, i, refs[1..], after);
      assert refs == [refs[0]] + refs[1..];
      TookMore(lang, m.cells[i], refs[0], next.cells[i], refs[1..], after.cells[i]);
    }
  }

  lemma RawLinesTaken(lang: Lang, m: Machine, v: string, i: nat, raw: map<string, string>, after: Machine)
    requires v in m.env && m.env[v] == i < |m.cells| && Run(lang, m, RawLines(v, raw)) == Some(after)
    ensures after.env == m.env && OnlyAt(m.cells, after.cells, i) && SameMade(m.cells[i], after.cells[i])
  {
    if raw != map[] {
      OnlyStep(lang, m, RawSet(v, raw), after);
    }
  }

  lemma OnlyStep(lang: Lang, m: Machine, stmt: Stmt, after: Machine)
    requires Run(lang, m, [stmt]) == Some(after)
    ensures Step(lang, m, stmt) == Some(after)
  {
    assert [stmt][1..] == [];
  }

  // ---- One object

  /** What a door that worked says of the object it was written for, its references taken. */
  ghost predicate Came(lang: Lang, n: View, owner: Cell, c: Cell) {
    && c.cls == n.cls && c.position == NewPosition(n, owner.position)
    && Admitted(lang, n, owner.cls, owner.position) && Callable(lang, n.cls, c.position, n.refs)
    && (c.naming == n.naming && c.attrs == n.attrs ==> Unchanged(lang, n))
    && (c.refs == n.refs ==> RefsOk(lang, n.cls, n.refs))
  }

  /** Came, but for the references. */
  ghost predicate Made(lang: Lang, n: View, owner: Cell, c: Cell) {
    && c.cls == n.cls && c.position == NewPosition(n, owner.position) && c.refs == []
    && Admitted(lang, n, owner.cls, owner.position)
    && (c.naming == n.naming && c.attrs == n.attrs ==> Unchanged(lang, n))
  }

  lemma MadeTakes(lang: Lang, n: View, owner: Cell, a: Cell, b: Cell)
    requires Made(lang, n, owner, a) && Took(lang, a, n.refs, b)
    ensures Came(lang, n, owner, b)
  {
    if b.refs == n.refs {
      forall r | r in n.refs ensures lang.pointsAt(n.cls, r.kind, r.alias) == Some(r.cls) {
        var i :| 0 <= i < |n.refs| && n.refs[i] == r;
        assert b.refs[|a.refs| + i] == r;
      }
    }
  }

  lemma DoorWorked(lang: Lang, n: View, owner: Cell)
    requires Declared(lang, n, owner.cls) && Created(lang, owner, DoorOf(lang, n)).Some?
    ensures Made(lang, n, owner, Created(lang, owner, DoorOf(lang, n)).value)
  {
    hide Created, DoorOf, Declared, Leading, Admitted;
    if n.position.Some? {
      var naming := MakerCreates(lang, n, owner);
    } else {
      RawDoorCreates(lang, n, owner);
    }
  }

  lemma RawKeepsMade(lang: Lang, c: Cell, raw: map<string, string>)
    requires WithRaw(lang, c, raw).Some?
    ensures SameMade(c, WithRaw(lang, c, raw).value)
  {
  }

  /** A creation that worked: one cell more, made by the door, with the references of the call. */
  lemma MakeWorked(lang: Lang, n: View, refs: seq<Ref>, stmt: Stmt, m: Machine, p: nat, after: Machine) returns (made: Cell, taken: Cell)
    requires stmt.Make? && stmt.door == DoorOf(lang, n) && stmt.calls == CallsOf(refs)
    requires stmt.parent in m.env && m.env[stmt.parent] == p < |m.cells| && Declared(lang, n, m.cells[p].cls)
    requires Step(lang, m, stmt) == Some(after)
    ensures Kept(m.cells, after.cells) && |after.cells| == |m.cells| + 1
    ensures Made(lang, n, m.cells[p], made) && Took(lang, made, refs, taken) && SameMade(taken, after.cells[|m.cells|])
    ensures after.env == if stmt.result.Some? then m.env[stmt.result.value := |m.cells|] else m.env
  {
    made := Created(lang, m.cells[p], stmt.door).value;
    taken := WithRefs(lang, m.env, made, stmt.calls).value;
    hide Created, DoorOf, WithRefs, WithRaw, Duplicate, Declared, Callable, CallsOf, Made, Took;
    DoorWorked(lang, n, m.cells[p]);
    CallsTaken(lang, m.env, made, refs);
    if stmt.raw != map[] { RawKeepsMade(lang, taken, stmt.raw); }
  }

  lemma TookNothing(lang: Lang, a: Cell, b: Cell)
    requires Took(lang, a, [], b)
    ensures a == b
  {
  }

  lemma MadeStays(lang: Lang, n: View, owner: Cell, a: Cell, b: Cell)
    requires Made(lang, n, owner, a) && SameMade(a, b)
    ensures Made(lang, n, owner, b)
  {
  }

  /** The head lines of an object with children, when they worked. */
  lemma HeadWorked(lang: Lang, n: View, parent: string, v: string, m: Machine, p: nat, after: Machine)
    requires parent in m.env && m.env[parent] == p < |m.cells| && Declared(lang, n, m.cells[p].cls)
    requires Run(lang, m, HeadCode(lang, n, parent, v)) == Some(after)
    ensures Kept(m.cells, after.cells) && |after.cells| == |m.cells| + 1 && after.env == m.env[v := |m.cells|]
    ensures Came(lang, n, m.cells[p], after.cells[|m.cells|])
  {
    var make := Make(Some(v), parent, DoorOf(lang, n), [], map[]);
    var id := |m.cells|;
    hide Step, Declared, Callable, RefLines, RawLines, Came, Made, Took;
    RunConcat(lang, m, [make], RefLines(v, n.refs));
    RunConcat(lang, m, [make] + RefLines(v, n.refs), RawLines(v, n.raw));
    assert [make][1..] == [];
    var m1 := Step(lang, m, make).value;
    assert Run(lang, m, [make]) == Some(m1);
    var m2 := Run(lang, m1, RefLines(v, n.refs)).value;
    hide Run;
    assert CallsOf([]) == [];
    var made, taken := MakeWorked(lang, n, [], make, m, p, m1);
    TookNothing(lang, made, taken);
    MadeStays(lang, n, m.cells[p], made, m1.cells[id]);
    RefLinesTaken(lang, m1, v, id, n.refs, m2);
    MadeTakes(lang, n, m.cells[p], m1.cells[id], m2.cells[id]);
    RawLinesTaken(lang, m2, v, id, n.raw, after);
    CameStays(lang, n, m.cells[p], m2.cells[id], after.cells[id]);
  }

  lemma CameAs(lang: Lang, n: View, owner: Cell, c: Cell)
    requires Came(lang, n, owner, c)
    ensures c.cls == n.cls && c.position == NewPosition(n, owner.position)
  {
  }

  lemma CameStays(lang: Lang, n: View, owner: Cell, a: Cell, b: Cell)
    requires Came(lang, n, owner, a) && SameMade(a, b)
    ensures Came(lang, n, owner, b)
  {
  }

  // ---- An object and its subtree

  ghost predicate SameValue(a: Cell, b: Cell) {
    a.naming == b.naming && a.attrs == b.attrs && a.refs == b.refs
  }

  /** From cell `base` on, the cells carry the naming, attributes and references of a layout. */
  ghost predicate Carries(cells: seq<Cell>, base: nat, layout: seq<Cell>) {
    base + |layout| <= |cells| && forall i :: 0 <= i < |layout| ==> SameValue(cells[base + i], layout[i])
  }

  lemma CarriesParts(a: seq<Cell>, b: seq<Cell>, base: nat, l: seq<Cell>, r: seq<Cell>)
    requires Kept(a, b) && base + |l| <= |a| && Carries(b, base, l + r)
    ensures Carries(a, base, l) && Carries(b, base + |l|, r)
  {
    forall i | 0 <= i < |l| ensures SameValue(a[base + i], l[i]) {
      assert (l + r)[i] == l[i] && SameMade(a[base + i], b[base + i]);
    }
    forall i | 0 <= i < |r| ensures SameValue(b[base + |l| + i], r[i]) {
      assert (l + r)[|l| + i] == r[i] && b[base + (|l| + i)] == b[base + |l| + i];
    }
  }

  /** A run of the lines of an object, when it worked. */
  ghost predicate Ran(m: Machine, after: Machine, names: set<string>, layout: seq<Cell>) {
    Kept(m.cells, after.cells) && |after.cells| == |m.cells| + |layout| && EnvKept(m, after, names)
  }

  lemma RelabelledLayout(n: View, owner: Option<string>, base: nat)
    ensures var r := Relabelled(n, owner);
            r.children == RelabelledAll(n.children, NewPosition(n, owner)) &&
            Layout(r, base) == [CellOf(r, Ids(r.children, base + 1))] + LayoutAll(r.children, base + 1) &&
            CellOf(r, Ids(r.children, base + 1)).naming == n.naming && CellOf(r, Ids(r.children, base + 1)).attrs == n.attrs &&
            CellOf(r, Ids(r.children, base + 1)).refs == n.refs
  {
  }

  lemma LeafRan(lang: Lang, n: View, parent: string, names: set<string>, m: Machine, p: nat, after: Machine)
    requires n.children == [] && Ready(m, names, parent, p) && Declared(lang, n, m.cells[p].cls)
    requires Run(lang, m, NodeCode(lang, n, parent, names).lines) == Some(after)
    ensures Ran(m, after, names, Layout(Relabelled(n, m.cells[p].position), |m.cells|))
    ensures Accepted(lang, n, m.cells[p].cls, m.cells[p].position)
    ensures Carries(after.cells, |m.cells|, Layout(Relabelled(n, m.cells[p].position), |m.cells|)) ==> Restored(lang, n)
  {
    var stmt := Make(None, parent, DoorOf(lang, n), CallsOf(n.refs), n.raw);
    assert NodeCode(lang, n, parent, names).lines == [stmt];
    hide *;
    var owner, base := m.cells[p], |m.cells|;
    OnlyStep(lang, m, stmt, after);
    ReadyParent(m, names, parent, p);
    var made, taken := MakeWorked(lang, n, n.refs, stmt, m, p, after);
    MadeTakes(lang, n, owner, made, taken);
    CameStays(lang, n, owner, taken, after.cells[base]);
    LeafLayout(n, owner.position, base);
    CameAs(lang, n, owner, after.cells[base]);
    CameAccepted(lang, n, owner, after.cells[base]);
    LeafReady(m, after, names, parent, p);
    var own := [Head(n, owner.position)];
    HeadIdentity(n, owner.position);
    RanIs(m, after, names, own);
    if Carries(after.cells, base, own) { CameRestored(lang, n, owner, after.cells, base, own); }
  }

  lemma HeadIdentity(n: View, owner: Option<string>)
    ensures Head(n, owner) == Fresh(n, owner).(refs := n.refs, raw := n.raw)
    ensures Head(n, owner).naming == n.naming && Head(n, owner).attrs == n.attrs && Head(n, owner).refs == n.refs
  {
  }

  lemma LeafReady(m: Machine, after: Machine, names: set<string>, parent: string, p: nat)
    requires Ready(m, names, parent, p) && after.env == m.env && |after.cells| == |m.cells| + 1
    ensures EnvKept(m, after, names)
  {
  }

  lemma {:induction false} NodeRan(lang: Lang, n: View, parent: string, names: set<string>, m: Machine, p: nat, after: Machine)
    requires Ready(m, names, parent, p) && Declared(lang, n, m.cells[p].cls)
    requires Run(lang, m, NodeCode(lang, n, parent, names).lines) == Some(after)
    ensures Ran(m, after, NodeCode(lang, n, parent, names).names, Layout(Relabelled(n, m.cells[p].position), |m.cells|))
    ensures Accepted(lang, n, m.cells[p].cls, m.cells[p].position)
    ensures Carries(after.cells, |m.cells|, Layout(Relabelled(n, m.cells[p].position), |m.cells|)) ==> Restored(lang, n)
    decreases n, 0
  {
    hide *;
    if n.children == [] {
      LeafRan(lang, n, parent, names, m, p, after);
      LeafNames(lang, n, parent, names);
    } else {
      ReadyParent(m, names, parent, p);
      var owner, base := m.cells[p], |m.cells|;
      var v := VarOf(lang, n, names);
      var head, below := HeadCode(lang, n, parent, v), AllCode(lang, n.children, v, names + {v});
      InnerCode(lang, n, parent, names);
      RunConcat(lang, m, head, below.lines);
      var mid := Run(lang, m, head).value;
      HeadWorked(lang, n, parent, v, m, p, mid);
      DeclaredParts(lang, n, owner.cls);
      VarIsNotRef(lang, n, names);
      HeadReady(m, mid, names, parent, p, v);
      CameAs(lang, n, owner, mid.cells[base]);
      AllRan(lang, n.children, v, names + {v}, mid, base, after);
      RelabelledLayout(n, owner.position, base);
      var r := Relabelled(n, owner.position);
      var own, rest := [CellOf(r, Ids(r.children, base + 1))], LayoutAll(r.children, base + 1);
      RanTwice(m, mid, after, v, names, below.names, own, rest);
      CameAccepted(lang, n, owner, mid.cells[base]);
      if Carries(after.cells, base, own + rest) {
        RanKept(mid, after, below.names, rest);
        CarriesParts(mid.cells, after.cells, base, own, rest);
        CameRestored(lang, n, owner, mid.cells, base, own);
      }
    }
  }

  lemma LeafNames(lang: Lang, n: View, parent: string, names: set<string>)
    requires n.children == []
    ensures NodeCode(lang, n, parent, names).names == names
  {
  }

  lemma ReadyParent(m: Machine, names: set<string>, parent: string, p: nat)
    requires Ready(m, names, parent, p)
    ensures parent in m.env && m.env[parent] == p < |m.cells| && m.env.Keys <= names
  {
  }

  lemma HeadReady(m: Machine, mid: Machine, names: set<string>, parent: string, p: nat, v: string)
    requires Ready(m, names, parent, p) && mid.env == m.env[v := |m.cells|] && |mid.cells| == |m.cells| + 1 && v != "ref"
    ensures Ready(mid, names + {v}, v, |m.cells|)
  {
  }

  lemma RanKept(m: Machine, after: Machine, names: set<string>, layout: seq<Cell>)
    requires Ran(m, after, names, layout)
    ensures Kept(m.cells, after.cells) && EnvKept(m, after, names) && |after.cells| == |m.cells| + |layout|
  {
  }

  lemma RanTwice(m: Machine, mid: Machine, after: Machine, v: string, names: set<string>, taken: set<string>, own: seq<Cell>, rest: seq<Cell>)
    requires Kept(m.cells, mid.cells) && |mid.cells| == |m.cells| + |own| && mid.env == m.env[v := |m.cells|]
    requires m.env.Keys <= names && v !in names && Ran(mid, after, taken, rest)
    ensures Ran(m, after, taken, own + rest)
  {
    assert v !in m.env;
  }

  lemma CameAccepted(lang: Lang, n: View, owner: Cell, c: Cell)
    requires Came(lang, n, owner, c)
    requires forall x :: x in n.children ==> Accepted(lang, x, c.cls, c.position)
    ensures Accepted(lang, n, owner.cls, owner.position)
  {
    hide Callable, Admitted, Unchanged;
  }

  lemma CameRestored(lang: Lang, n: View, owner: Cell, cells: seq<Cell>, base: nat, own: seq<Cell>)
    requires |own| == 1 && own[0].naming == n.naming && own[0].attrs == n.attrs && own[0].refs == n.refs && Carries(cells, base, own)
    requires Came(lang, n, owner, cells[base])
    requires forall x :: x in n.children ==> Restored(lang, x)
    ensures Restored(lang, n)
  {
    assert cells[base + 0] == cells[base];
    hide Callable, Admitted, Unchanged, RefsOk;
  }

  lemma {:induction false} AllRan(lang: Lang, ns: seq<View>, parent: string, names: set<string>, m: Machine, p: nat, after: Machine)
    requires Ready(m, names, parent, p) && DeclaredAll(lang, ns, m.cells[p].cls)
    requires Run(lang, m, AllCode(lang, ns, parent, names).lines) == Some(after)
    ensures Ran(m, after, AllCode(lang, ns, parent, names).names, LayoutAll(RelabelledAll(ns, m.cells[p].position), |m.cells|))
    ensures forall n :: n in ns ==> Accepted(lang, n, m.cells[p].cls, m.cells[p].position)
    ensures Carries(after.cells, |m.cells|, LayoutAll(RelabelledAll(ns, m.cells[p].position), |m.cells|)) ==>
              forall n :: n in ns ==> Restored(lang, n)
    decreases ns
  {
    hide *;
    if ns == [] {
      NoneRan(lang, parent, names, m, p, after);
    } else {
      var init, last := ns[..|ns| - 1], ns[|ns| - 1];
      assert ns == init + [last] && last in ns;
      ReadyParent(m, names, parent, p);
      InitDeclared(lang, ns, m.cells[p].cls);
      var owner, base := m.cells[p].position, |m.cells|;
      var before := AllCode(lang, init, parent, names);
      var code := NodeCode(lang, last, parent, before.names);
      AllCodeSnoc(lang, init, last, parent, names);
      RunConcat(lang, m, before.lines, code.lines);
      var mid := Run(lang, m, before.lines).value;
      AllRan(lang, init, parent, names, m, p, mid);
      var below, r := RelabelledAll(init, owner), Relabelled(last, owner);
      RanKept(m, mid, before.names, LayoutAll(below, base));
      StillReady(m, mid, names, before.names, parent, p);
      SameMadeAt(m.cells, mid.cells, p);
      NodeRan(lang, last, parent, before.names, mid, p, after);
      RelabelledSnoc(init, last, owner);
      LayoutConcat(below, [r], base);
      OneLayout(r, |mid.cells|);
      RanKept(mid, after, code.names, Layout(r, |mid.cells|));
      KeptTwice(m, mid, after, before.names, code.names);
      KeptTransitive(m.cells, mid.cells, after.cells);
      RanIs(m, after, code.names, LayoutAll(below, base) + Layout(r, |mid.cells|));
      if Carries(after.cells, base, LayoutAll(below, base) + Layout(r, |mid.cells|)) {
        CarriesParts(mid.cells, after.cells, base, LayoutAll(below, base), Layout(r, |mid.cells|));
      }
    }
  }

  lemma NoneRan(lang: Lang, parent: string, names: set<string>, m: Machine, p: nat, after: Machine)
    requires Ready(m, names, parent, p) && Run(lang, m, AllCode(lang, [], parent, names).lines) == Some(after)
    ensures Ran(m, after, AllCode(lang, [], parent, names).names, LayoutAll(RelabelledAll([], m.cells[p].position), |m.cells|))
  {
  }

  lemma RanIs(m: Machine, after: Machine, names: set<string>, layout: seq<Cell>)
    requires Kept(m.cells, after.cells) && |after.cells| == |m.cells| + |layout| && EnvKept(m, after, names)
    ensures Ran(m, after, names, layout)
  {
  }

  lemma SameMadeAt(a: seq<Cell>, b: seq<Cell>, p: nat)
    requires Kept(a, b) && p < |a|
    ensures b[p].cls == a[p].cls && b[p].position == a[p].position
  {
  }

  lemma InitDeclared(lang: Lang, ns: seq<View>, owner: string)
    requires ns != [] && DeclaredAll(lang, ns, owner)
    ensures DeclaredAll(lang, ns[..|ns| - 1], owner) && Declared(lang, ns[|ns| - 1], owner)
  {
    hide Declared, SameSibling;
    assert forall n :: n in ns[..|ns| - 1] ==> n in ns;
    assert ns[|ns| - 1] in ns;
  }

  // ---- The whole program

  /** The emitted program runs, and what it leaves is the design `t`. */
  ghost predicate Rebuilds(lang: Lang, root: View, v: string, t: View) {
    var end := Run(lang, Machine([], map[]), RootCode(lang, root, v));
    end.Some? && end.value.cells == Layout(t, 0)
  }

  /** The head of a program that ran: the root was made, and took its attributes. */
  lemma RootHeadRan(lang: Lang, root: View, v: string, after: Machine)
    requires RootDeclared(lang, root)
    requires Run(lang, Machine([], map[]), [NewDesign(v)] + AttrLines(v, root.attrs) + RawLines(v, root.raw)) == Some(after)
    ensures RawOk(lang, root.cls, root.raw) && |after.cells| == 1 && after.env == map[v := 0]
    ensures after.cells[0].cls == root.cls && after.cells[0].position == root.position && after.cells[0].naming == map[]
    ensures after.cells[0].attrs == root.attrs ==> RootSurvives(lang, root)
  {
    var m0, m1 := Machine([], map[]), Machine([ROOT_CELL], map[v := 0]);
    assert m0.cells + [ROOT_CELL] == [ROOT_CELL];
    OneStep(lang, m0, NewDesign(v), m1);
    hide Run, RawLines, AttrLines;
    RunConcat(lang, m0, [NewDesign(v)], AttrLines(v, root.attrs));
    RunConcat(lang, m0, [NewDesign(v)] + AttrLines(v, root.attrs), RawLines(v, root.raw));
    var m2 := Run(lang, m1, AttrLines(v, root.attrs)).value;
    RootAttrsRan(lang, root, v, m1, m2);
    RootRawRan(lang, root, v, m2, after);
  }

  lemma RootAttrsRan(lang: Lang, root: View, v: string, m: Machine, after: Machine)
    requires RootDeclared(lang, root) && m == Machine([ROOT_CELL], map[v := 0])
    requires Run(lang, m, AttrLines(v, root.attrs)) == Some(after)
    ensures |after.cells| == 1 && after.env == m.env
    ensures after.cells[0] == ROOT_CELL.(attrs := after.cells[0].attrs)
    ensures after.cells[0].attrs == root.attrs ==> root.attrs == map[] || lang.sugar(root.cls, root.attrs) == root.attrs
  {
    if root.attrs != map[] {
      var line := SetAttrs(v, root.attrs);
      OnlyStep(lang, m, line, after);
      var sugared := lang.sugar(root.cls, root.attrs);
      assert map[] + sugared == sugared;
    }
  }

  lemma RootRawRan(lang: Lang, root: View, v: string, m: Machine, after: Machine)
    requires |m.cells| == 1 && m.env == map[v := 0] && m.cells[0].cls == root.cls
    requires Run(lang, m, RawLines(v, root.raw)) == Some(after)
    ensures RawOk(lang, root.cls, root.raw) && |after.cells| == 1 && after.env == m.env && SameMade(m.cells[0], after.cells[0])
  {
    if root.raw != map[] {
      OnlyStep(lang, m, RawSet(v, root.raw), after);
    }
  }

  /** What ran was accepted, and what came out as declared was restored. */
  lemma RootRan(lang: Lang, root: View, v: string, after: Machine)
    requires RootDeclared(lang, root) && v != "ref" && Run(lang, Machine([], map[]), RootCode(lang, root, v)) == Some(after)
    ensures forall n :: n in root.children ==> Accepted(lang, n, root.cls, root.position)
    ensures Carries(after.cells, 0, Layout(AsReplayed(root), 0)) ==> RootReplays(lang, root)
  {
    var m0, head := Machine([], map[]), [NewDesign(v)] + AttrLines(v, root.attrs) + RawLines(v, root.raw);
    var below := RelabelledAll(root.children, root.position);
    RootCodeParts(lang, root, v);
    hide Run, AttrLines, RawLines, AllCode, DeclaredAll, Accepted, Restored, RelabelledAll;
    RunConcat(lang, m0, head, AllCode(lang, root.children, v, {v}).lines);
    var mid := Run(lang, m0, head).value;
    RootHeadRan(lang, root, v, mid);
    assert Ready(mid, {v}, v, 0);
    AllRan(lang, root.children, v, {v}, mid, 0, after);
    hide RootReplays, LayoutAll, Layout;
    RootLayout(root, below);
    var own := [CellOf(AsReplayed(root), Ids(below, 1))];
    if Carries(after.cells, 0, own + LayoutAll(below, 1)) {
      CarriesParts(mid.cells, after.cells, 0, own, LayoutAll(below, 1));
      assert mid.cells[0 + 0].attrs == own[0].attrs;
      RootReplaysIs(lang, root);
    }
  }

  lemma RootReplaysIs(lang: Lang, root: View)
    requires RootSurvives(lang, root) && forall n :: n in root.children ==> Accepted(lang, n, root.cls, root.position) && Restored(lang, n)
    ensures RootReplays(lang, root)
  {
  }

  lemma RootLayout(root: View, below: seq<View>)
    requires below == RelabelledAll(root.children, root.position)
    ensures Layout(AsReplayed(root), 0) == [CellOf(AsReplayed(root), Ids(below, 1))] + LayoutAll(below, 1)
  {
  }

  ghost predicate SameValues(a: seq<Cell>, b: seq<Cell>) {
    |a| == |b| && forall i :: 0 <= i < |a| ==> SameValue(a[i], b[i])
  }

  /** Relabelling changes no naming and no attribute, and no place in the layout. */
  lemma {:induction false} RelabelledValues(n: View, owner: Option<string>, base: nat)
    ensures SameValues(Layout(n, base), Layout(Relabelled(n, owner), base))
    decreases n, 0
  {
    hide RelabelledAll, LayoutAll, Ids;
    RelabelledAllValues(n.children, NewPosition(n, owner), base + 1);
    RelabelledLayout(n, owner, base);
  }

  lemma {:induction false} RelabelledAllValues(ns: seq<View>, owner: Option<string>, base: nat)
    ensures SameValues(LayoutAll(ns, base), LayoutAll(RelabelledAll(ns, owner), base))
    decreases ns
  {
    hide *;
    if ns == [] {
      NoValues(owner, base);
    } else {
      var init, last := ns[..|ns| - 1], ns[|ns| - 1];
      assert ns == init + [last] && last in ns;
      var below, r := RelabelledAll(init, owner), Relabelled(last, owner);
      RelabelledAllValues(init, owner, base);
      SameSize(LayoutAll(init, base), LayoutAll(below, base));
      assert SizeAll(init) == |LayoutAll(init, base)| == |LayoutAll(below, base)| == SizeAll(below);
      RelabelledValues(last, owner, base + SizeAll(init));
      RelabelledSnoc(init, last, owner);
      LayoutConcat(init, [last], base);
      LayoutConcat(below, [r], base);
      OneLayout(last, base + SizeAll(init));
      OneLayout(r, base + SizeAll(init));
      SameValuesConcat(LayoutAll(init, base), LayoutAll(below, base), Layout(last, base + SizeAll(init)), Layout(r, base + SizeAll(init)));
    }
  }

  lemma NoValues(owner: Option<string>, base: nat)
    ensures SameValues(LayoutAll([], base), LayoutAll(RelabelledAll([], owner), base))
  {
  }

  lemma SameSize(a: seq<Cell>, b: seq<Cell>)
    requires SameValues(a, b)
    ensures |a| == |b|
  {
  }

  lemma SameValuesConcat(a: seq<Cell>, b: seq<Cell>, c: seq<Cell>, d: seq<Cell>)
    requires SameValues(a, b) && SameValues(c, d)
    ensures SameValues(a + c, b + d)
  {
  }

  /** The layout of a design, relabelled or not, carries the values of its relabelling. */
  lemma CarriesValues(root: View)
    ensures Carries(Layout(root, 0), 0, Layout(AsReplayed(root), 0)) && Carries(Layout(AsReplayed(root), 0), 0, Layout(AsReplayed(root), 0))
  {
    hide RelabelledAll, LayoutAll, Ids;
    RelabelledAllValues(root.children, root.position, 1);
    assert AsReplayed(root).children == RelabelledAll(root.children, root.position);
    assert SameValues(Layout(root, 0), Layout(AsReplayed(root), 0));
  }

  // ---- Makers and positions

  /** Objects outside the vocabulary carry the class for a maker, and so does all below them. */
  ghost predicate Placed(n: View, owner: Option<string>)
    decreases n
  {
    && n.position == NewPosition(n, owner) && (n.position.None? ==> n.word == n.cls)
    && forall c :: c in n.children ==> Placed(c, n.position)
  }

  lemma {:induction false} PlacedIff(n: View, owner: Option<string>)
    ensures Relabelled(n, owner) == n <==> Placed(n, owner)
    decreases n, 0
  {
    var r := Relabelled(n, owner);
    hide Placed, RelabelledAll;
    PlacedStep(n, owner);
    PlacedAllIff(n.children, NewPosition(n, owner));
    assert r.children == RelabelledAll(n.children, NewPosition(n, owner));
  }

  lemma PlacedStep(n: View, owner: Option<string>)
    ensures Placed(n, owner) <==>
            n.position == NewPosition(n, owner) && (n.position.None? ==> n.word == n.cls) && forall c :: c in n.children ==> Placed(c, n.position)
  {
  }

  lemma {:induction false} PlacedAllIff(ns: seq<View>, owner: Option<string>)
    ensures RelabelledAll(ns, owner) == ns <==> forall c :: c in ns ==> Placed(c, owner)
    decreases ns
  {
    if ns != [] {
      var init, last := ns[..|ns| - 1], ns[|ns| - 1];
      assert ns == init + [last] && last in ns;
      PlacedAllIff(init, owner);
      PlacedIff(last, owner);
      RelabelledSnoc(init, last, owner);
      hide Placed, Relabelled, RelabelledAll;
      assert RelabelledAll(ns, owner)[..|init|] == RelabelledAll(init, owner);
    }
  }

  /**
   * Emitted code rebuilds the design (naming, attributes, raw attributes, references and children in
   * order) exactly when the doors accept and restore every object; makers and positions come back too
   * exactly when objects outside the vocabulary were declared as `raw()` declares them.
   */
  lemma EmittedCodeReplays(lang: Lang, root: View, v: string)
    requires RootDeclared(lang, root) && v != "ref"
    ensures Rebuilds(lang, root, v, AsReplayed(root)) <==> RootReplays(lang, root)
    ensures Rebuilds(lang, root, v, root) <==> RootReplays(lang, root) && forall n :: n in root.children ==> Placed(n, root.position)
  {
    hide RootDeclared, RootReplays, Placed, AsReplayed, Layout, Run, RootCode, Carries;
    if RootReplays(lang, root) { var after := RootRuns(lang, root, v); }
    if Run(lang, Machine([], map[]), RootCode(lang, root, v)).Some? {
      RootRan(lang, root, v, Run(lang, Machine([], map[]), RootCode(lang, root, v)).value);
    }
    CarriesValues(root);
    PlacedRoot(root);
    if Layout(AsReplayed(root), 0) == Layout(root, 0) { LayoutInjective(AsReplayed(root), root, 0); }
  }

  lemma PlacedRoot(root: View)
    ensures AsReplayed(root) == root <==> forall n :: n in root.children ==> Placed(n, root.position)
  {
    PlacedAllIff(root.children, root.position);
  }

  // ---- Code that does not replay

  /** `to_code` accepts every design this module speaks of. */
  lemma {:induction false} DeclaredIsReplayable(lang: Lang, ns: seq<View>, owner: string)
    requires DeclaredAll(lang, ns, owner)
    ensures forall n :: n in Objects(ns) ==> Replayable(lang, n)
    decreases ns
  {
    forall n | n in Objects(ns) ensures Replayable(lang, n) {
      ObjectsAre(ns, n);
      var c :| c in ns && (n == c || n in Objects(c.children));
      DeclaredParts(lang, c, owner);
      DeclaredIsReplayable(lang, c.children, c.cls);
    }
  }

  /** Whatever the emitted program does, it stops at an object that `raw()` or a cursor refuses. */
  lemma RefusedStops(lang: Lang, root: View, v: string, n: View)
    requires RootDeclared(lang, root) && v != "ref" && n in root.children && !Accepted(lang, n, root.cls, root.position)
    ensures Run(lang, Machine([], map[]), RootCode(lang, root, v)) == None
  {
    hide Run, RootCode, RootDeclared, Accepted;
    if Run(lang, Machine([], map[]), RootCode(lang, root, v)).Some? {
      RootRan(lang, root, v, Run(lang, Machine([], map[]), RootCode(lang, root, v)).value);
    }
  }

  /** A corner of the tables: tenants, VRFs, a relation named by `name` and by `af`, which has a default, and subnets. */
  function SampleLang(): Lang {
    Lang((cls, word) => if cls == "polUni" && word == "tenant" then Some("fvTenant")
                        else if cls == "fvTenant" && word == "vrf" then Some("fvCtx") else None,
         (position: Option<string>, word) => position.Some?,
         (owner, cls) => (owner == "polUni" && cls == "fvTenant") || (owner == "fvTenant" && cls == "fvCtx")
                         || (owner == "fvCtx" && cls == "fvRsCtxToBgpCtxAfPol") || (owner in ["fvBD", "fvAEPg"] && cls == "fvSubnet"),
         cls => if cls == "fvRsCtxToBgpCtxAfPol" then ["name", "af"] else if cls == "fvSubnet" then ["ip"]
                else if cls == "polUni" then [] else ["name"],
         (cls, attrs) => attrs,
         (cls, naming) => cls,
         (cls, kind, alias) => None,
         (position, verb) => false,
         cls => Some({}),
         (word, naming) => word)
  }

  /** A design of one object below the root. */
  function RootOver(child: View): View {
    View("polUni", "uni", Some(""), map[], map[], map[], [], [child])
  }

  /** The relation as a slice pins it: by the name of its policy alone. */
  function PinnedRelation(policy: string): View {
    View("fvRsCtxToBgpCtxAfPol", "fvRsCtxToBgpCtxAfPol", None, map["name" := policy], map[], map[], [], [])
  }

  /** The slice at a VRF bound to a BGP address-family policy outside the slice. */
  function SlicedVrf(tenant: string, vrf: string, policy: string): View {
    var ctx := View("fvCtx", "vrf", Some("tenant.vrf"), map["name" := vrf], map[], map[], [], [PinnedRelation(policy)]);
    RootOver(View("fvTenant", "tenant", Some("tenant"), map["name" := tenant], map[], map[], [], [ctx]))
  }

  lemma SlicedVrfDeclared(tenant: string, vrf: string, policy: string)
    ensures RootDeclared(SampleLang(), SlicedVrf(tenant, vrf, policy))
  {
    var lang, root := SampleLang(), SlicedVrf(tenant, vrf, policy);
    var tn := root.children[0];
    var ctx := tn.children[0];
    var pin := ctx.children[0];
    assert lang.props(pin.cls)[0] == "name" && lang.props(ctx.cls)[0] == "name" && lang.props(tn.cls)[0] == "name";
    assert Declared(lang, pin, "fvCtx");
    assert DeclaredAll(lang, [pin], "fvCtx");
    assert Declared(lang, ctx, "fvTenant");
    assert DeclaredAll(lang, [ctx], "fvTenant");
    assert Declared(lang, tn, "polUni");
  }

  /** `to_code` accepts that slice, and the code it gives stops at the relation: `raw()` misses `af`. */
  lemma PinnedRelationStops(tenant: string, vrf: string, policy: string, v: string)
    requires v != "ref"
    ensures forall n :: n in Objects(SlicedVrf(tenant, vrf, policy).children) ==> Replayable(SampleLang(), n)
    ensures Run(SampleLang(), Machine([], map[]), RootCode(SampleLang(), SlicedVrf(tenant, vrf, policy), v)) == None
  {
    var lang, root := SampleLang(), SlicedVrf(tenant, vrf, policy);
    var tn := root.children[0];
    var ctx := tn.children[0];
    var pin := ctx.children[0];
    SlicedVrfDeclared(tenant, vrf, policy);
    DeclaredIsReplayable(lang, root.children, root.cls);
    assert lang.props(pin.cls)[1] == "af" && "af" !in pin.naming;
    assert "af" in SetOf(lang.props(pin.cls));
    assert pin in ctx.children && ctx in tn.children && tn in root.children;
    assert !Accepted(lang, pin, ctx.cls, NewPosition(ctx, NewPosition(tn, root.position)));
    assert !Accepted(lang, ctx, tn.cls, NewPosition(tn, root.position));
    assert !Accepted(lang, tn, root.cls, root.position);
    RefusedStops(lang, root, v, tn);
  }

  /** A subnet that a snapshot holds directly under `uni`, as the importer attaches it. */
  function ImportedSubnet(ip: string): View {
    RootOver(View("fvSubnet", "fvSubnet", None, map["ip" := ip], map[], map[], [], []))
  }

  /** `to_code` accepts that import, and the code it gives stops: the tables know no subnet under the root. */
  lemma ImportedSubnetStops(ip: string, v: string)
    requires v != "ref"
    ensures forall n :: n in Objects(ImportedSubnet(ip).children) ==> Replayable(SampleLang(), n)
    ensures Run(SampleLang(), Machine([], map[]), RootCode(SampleLang(), ImportedSubnet(ip), v)) == None
  {
    var lang, root := SampleLang(), ImportedSubnet(ip);
    var subnet := root.children[0];
    assert lang.props(subnet.cls)[0] == "ip";
    assert Declared(lang, subnet, "polUni");
    assert DeclaredAll(lang, [subnet], "polUni");
    DeclaredIsReplayable(lang, root.children, root.cls);
    assert subnet in root.children && !Accepted(lang, subnet, root.cls, root.position);
    RefusedStops(lang, root, v, subnet);
  }
}
