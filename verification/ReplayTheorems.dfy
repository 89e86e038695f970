/** Emitted code replays (`to_code` in `_emit.py`). */
module ReplayTheorems {
  import opened Text
  import opened Dn
  import opened Emit
  import opened Replay

  /** What the door of an object makes of it under an owner at `owner`: its identity and attributes. */
  function Fresh(n: View, owner: Option<string>): Cell {
    Cell(n.cls, if n.position.Some? then n.word else n.cls, NewPosition(n, owner), n.naming, n.attrs, map[], [], [])
  }

  /** A declared object that the doors accept and give back as it was. */
  ghost predicate Replays(lang: Lang, n: View, owner: Cell) {
    Declared(lang, n, owner.cls) && Accepted(lang, n, owner.cls, owner.position) && Restored(lang, n)
  }

  ghost predicate ReplaysAll(lang: Lang, ns: seq<View>, owner: Cell) {
    DeclaredAll(lang, ns, owner.cls) && forall n :: n in ns ==> Accepted(lang, n, owner.cls, owner.position) && Restored(lang, n)
  }

  lemma SplitMaker(props: seq<string>, args: seq<string>, naming: map<string, string>, attrs: map<string, string>)
    requires Zip(props, args) == naming && |args| <= |props| && forall k :: k in attrs ==> k !in props
    ensures SplitNaming(props, args, attrs) == Some((naming, attrs))
  {
    hide Zip;
    assert (map k | k in attrs && k in props :: attrs[k]) == map[];
    assert (map k | k in attrs && k !in props :: attrs[k]) == attrs;
    assert naming + map[] == naming;
  }

  lemma SplitRaw(props: seq<string>, naming: map<string, string>, attrs: map<string, string>)
    requires naming.Keys <= SetOf(props) && forall k :: k in attrs ==> k !in props
    ensures SplitNaming(props, [], naming + attrs) == Some((naming, attrs))
  {
    var fields := naming + attrs;
    assert Zip(props, []) == map[];
    hide Zip;
    assert forall k :: k in naming ==> k in props by { assert forall k :: k in naming.Keys ==> k in SetOf(props); }
    assert (map k | k in fields && k in props :: fields[k]) == naming;
    assert (map k | k in fields && k !in props :: fields[k]) == attrs;
    assert map[] + naming == naming;
  }

  lemma DeclaredParts(lang: Lang, n: View, owner: string)
    requires Declared(lang, n, owner)
    ensures NoRepeat(lang.props(n.cls)) && n.naming.Keys <= SetOf(lang.props(n.cls))
    ensures forall k :: k in n.attrs ==> k !in lang.props(n.cls)
    ensures n.position.Some? ==> lang.maker(owner, n.word) == Some(n.cls)
    ensures Replayable(lang, n)
    ensures n.children != [] ==> lang.slug(n.word, n.naming) != "ref"
    ensures DeclaredAll(lang, n.children, n.cls)
  {
  }

  lemma MakerCreates(lang: Lang, n: View, owner: Cell) returns (naming: map<string, string>)
    requires Declared(lang, n, owner.cls) && n.position.Some?
    ensures Created(lang, owner, DoorOf(lang, n)) ==
            if Admitted(lang, n, owner.cls, owner.position)
            then Some(Fresh(n, owner.position).(naming := naming, attrs := lang.sugar(n.cls, n.attrs))) else None
    ensures naming == n.naming <==> Leading(lang.props(n.cls), n.naming)
  {
    var props := lang.props(n.cls);
    var args := Positional(props, n.naming);
    naming := Zip(props, args);
    DeclaredParts(lang, n, owner.cls);
    hide Declared, Leading, Positional, Zip, SplitNaming, Replayable;
    PositionalFull(props, n.naming);
    PositionalRestoresIff(props, n.naming);
    SplitMaker(props, args, naming, n.attrs);
    assert forall k :: k in props <==> k in SetOf(props);
  }

  lemma RawDoorCreates(lang: Lang, n: View, owner: Cell)
    requires Declared(lang, n, owner.cls) && n.position.None?
    ensures Created(lang, owner, DoorOf(lang, n)) ==
            if Admitted(lang, n, owner.cls, owner.position) then Some(Fresh(n, owner.position)) else None
  {
    var props := lang.props(n.cls);
    DeclaredParts(lang, n, owner.cls);
    hide Declared, SplitNaming, Replayable;
    SplitRaw(props, n.naming, n.attrs);
    assert forall k :: k in props <==> k in SetOf(props);
  }

  /**
   * The door an object is emitted as creates that object exactly when it is let in and comes out unchanged.
   * It is let in when the tables know its class under that of its owner and, under `raw()` or a generated
   * maker, every naming property has a value. It comes out of a maker unchanged when its values lead the
   * naming properties and sugar leaves its attributes alone.
   */
  lemma DoorRestoresIff(lang: Lang, n: View, owner: Cell)
    requires Declared(lang, n, owner.cls)
    ensures Created(lang, owner, DoorOf(lang, n)) == Some(Fresh(n, owner.position)) <==>
            Admitted(lang, n, owner.cls, owner.position) && Unchanged(lang, n)
  {
    hide Created, DoorOf, Declared, Admitted;
    if n.position.Some? {
      var naming := MakerCreates(lang, n, owner);
    } else {
      RawDoorCreates(lang, n, owner);
    }
  }

  // ---- References and raw attributes

  lemma OneRef(lang: Lang, env: map<string, nat>, c: Cell, r: Ref)
    requires RefsOk(lang, c.cls, [r]) && Callable(lang, c.cls, c.position, [r]) && "ref" !in env
    ensures WithRef(lang, env, c, CallOf(r)) == Some(c.(refs := c.refs + [r]))
  {
    assert r in [r];
  }

  lemma {:induction false} RefsRestore(lang: Lang, env: map<string, nat>, c: Cell, refs: seq<Ref>)
    requires RefsOk(lang, c.cls, refs) && Callable(lang, c.cls, c.position, refs) && "ref" !in env
    ensures WithRefs(lang, env, c, CallsOf(refs)) == Some(c.(refs := c.refs + refs))
    decreases |refs|
  {
    if refs == [] {
      assert c.refs + refs == c.refs;
    } else {
      OneRef(lang, env, c, refs[0]);
      var next := c.(refs := c.refs + [refs[0]]);
      assert CallsOf(refs)[1..] == CallsOf(refs[1..]);
      hide WithRef;
      RefsRestore(lang, env, next, refs[1..]);
      assert (c.refs + [refs[0]]) + refs[1..] == c.refs + refs;
    }
  }

  lemma {:induction false} RefLinesRun(lang: Lang, m: Machine, v: string, i: nat, refs: seq<Ref>)
    requires v in m.env && m.env[v] == i < |m.cells| && "ref" !in m.env
    requires RefsOk(lang, m.cells[i].cls, refs) && Callable(lang, m.cells[i].cls, m.cells[i].position, refs)
    ensures Run(lang, m, RefLines(v, refs)) == Some(m.(cells := m.cells[i := m.cells[i].(refs := m.cells[i].refs + refs)]))
    decreases |refs|
  {
    var c := m.cells[i];
    if refs == [] {
      assert c.refs + refs == c.refs && m.cells[i := c] == m.cells;
    } else {
      OneRef(lang, m.env, c, refs[0]);
      var next := m.(cells := m.cells[i := c.(refs := c.refs + [refs[0]])]);
      assert Step(lang, m, AddRef(v, CallOf(refs[0]))) == Some(next);
      assert RefLines(v, refs)[0] == AddRef(v, CallOf(refs[0])) && RefLines(v, refs)[1..] == RefLines(v, refs[1..]);
      hide Step, WithRef, RefLines;
      RefLinesRun(lang, next, v, i, refs[1..]);
      assert (c.refs + [refs[0]]) + refs[1..] == c.refs + refs;
      assert next.cells[i := c.(refs := c.refs + refs)] == m.cells[i := c.(refs := c.refs + refs)];
    }
  }

  ghost predicate RawOk(lang: Lang, cls: string, raw: map<string, string>) {
    lang.wires(cls).Some? ==> forall wire :: wire in raw ==> wire in lang.wires(cls).value
  }

  lemma RawLinesRun(lang: Lang, m: Machine, v: string, i: nat, raw: map<string, string>)
    requires v in m.env && m.env[v] == i < |m.cells| && RawOk(lang, m.cells[i].cls, raw) && m.cells[i].raw == map[]
    ensures Run(lang, m, RawLines(v, raw)) == Some(m.(cells := m.cells[i := m.cells[i].(raw := raw)]))
  {
    var c := m.cells[i];
    assert m.cells[i := c] == m.cells;
    if raw != map[] {
      assert map[] + raw == raw;
      assert WithRaw(lang, c, raw) == Some(c.(raw := raw));
      assert RawLines(v, raw)[1..] == [];
    }
  }

  // ---- One object

  /** The machine as the emitter's names describe it; `p` is the cell the parent variable holds. */
  ghost predicate Ready(m: Machine, names: set<string>, parent: string, p: nat) {
    && m.env.Keys <= names && "ref" !in m.env
    && parent in m.env && m.env[parent] == p < |m.cells|
    && forall v :: v in m.env ==> m.env[v] < |m.cells|
  }

  /** Variables are only added, under names taken in the meantime. */
  ghost predicate EnvKept(m: Machine, after: Machine, names: set<string>) {
    && (forall v :: v in m.env ==> v in after.env && after.env[v] == m.env[v])
    && after.env.Keys <= names && "ref" !in after.env
    && (forall v :: v in after.env ==> after.env[v] < |after.cells|)
  }

  ghost predicate NoTwin(lang: Lang, cells: seq<Cell>, p: nat, n: View)
    requires p < |cells|
  {
    forall i :: i in cells[p].children && i < |cells| ==>
      !(cells[i].cls == n.cls && lang.rnOf(cells[i].cls, cells[i].naming) == lang.rnOf(n.cls, n.naming))
  }

  function WithChild(cells: seq<Cell>, p: nat): seq<Cell>
    requires p < |cells|
  {
    cells[p := cells[p].(children := cells[p].children + [|cells|])]
  }

  lemma RawIsOk(lang: Lang, n: View)
    requires Replayable(lang, n)
    ensures RawOk(lang, n.cls, n.raw)
  {
  }

  /** A creation that meets no refusal. */
  lemma MakeStep(lang: Lang, m: Machine, stmt: Stmt, p: nat, made: Cell, referred: Cell, c: Cell)
    requires stmt.Make? && stmt.result.None? && stmt.parent in m.env && m.env[stmt.parent] == p < |m.cells|
    requires Created(lang, m.cells[p], stmt.door) == Some(made) && !Duplicate(lang, m.cells, m.cells[p], made)
    requires WithRefs(lang, m.env, made, stmt.calls) == Some(referred)
    requires if stmt.raw == map[] then c == referred else WithRaw(lang, referred, stmt.raw) == Some(c)
    ensures Step(lang, m, stmt) == Some(m.(cells := WithChild(m.cells, p) + [c]))
  {
    hide Created, WithRefs, WithRaw, Duplicate;
  }

  lemma RawRestores(lang: Lang, c: Cell, raw: map<string, string>)
    requires RawOk(lang, c.cls, raw) && c.raw == map[]
    ensures WithRaw(lang, c, raw) == Some(c.(raw := raw))
  {
    assert map[] + raw == raw;
  }

  lemma NotDuplicate(lang: Lang, cells: seq<Cell>, p: nat, n: View)
    requires p < |cells| && NoTwin(lang, cells, p, n)
    ensures !Duplicate(lang, cells, cells[p], Fresh(n, cells[p].position))
  {
  }

  lemma LeafLayout(n: View, owner: Option<string>, base: nat)
    requires n.children == []
    ensures Layout(Relabelled(n, owner), base) == [Fresh(n, owner).(refs := n.refs, raw := n.raw)]
  {
  }

  /** What a replaying object gives its proofs. */
  lemma ReplaysParts(lang: Lang, n: View, owner: Cell)
    requires Replays(lang, n, owner)
    ensures Admitted(lang, n, owner.cls, owner.position) && Unchanged(lang, n)
    ensures RefsOk(lang, n.cls, n.refs) && Callable(lang, n.cls, NewPosition(n, owner.position), n.refs)
    ensures ReplaysAll(lang, n.children, Fresh(n, owner.position))
  {
  }

  lemma LeafRuns(lang: Lang, n: View, parent: string, names: set<string>, m: Machine, p: nat)
    requires n.children == [] && Ready(m, names, parent, p) && Replays(lang, n, m.cells[p]) && NoTwin(lang, m.cells, p, n)
    ensures Run(lang, m, NodeCode(lang, n, parent, names).lines) == Some(m.(cells := Grown(m.cells, p, n)))
  {
    var owner := m.cells[p];
    var stmt := Make(None, parent, DoorOf(lang, n), CallsOf(n.refs), n.raw);
    assert NodeCode(lang, n, parent, names).lines == [stmt];
    ReplaysParts(lang, n, owner);
    hide Declared, Accepted, Restored, Admitted, Unchanged, Created, WithRefs, WithRaw, Replayable, DoorOf, Layout, Step, Run, NodeCode, NoTwin, Duplicate;
    hide ReplaysAll, Relabelled;
    DoorRestoresIff(lang, n, owner);
    DeclaredParts(lang, n, owner.cls);
    RawIsOk(lang, n);
    var born := Fresh(n, owner.position);
    RefsRestore(lang, m.env, born, n.refs);
    assert [] + n.refs == n.refs;
    var made := born.(refs := n.refs);
    RawRestores(lang, made, n.raw);
    NotDuplicate(lang, m.cells, p, n);
    LeafLayout(n, owner.position, |m.cells|);
    MakeStep(lang, m, stmt, p, born, made, made.(raw := n.raw));
    OneStep(lang, m, stmt, m.(cells := WithChild(m.cells, p) + [made.(raw := n.raw)]));
  }

  lemma MakeRuns(lang: Lang, n: View, parent: string, v: string, names: set<string>, m: Machine, p: nat)
    requires Ready(m, names, parent, p) && Replays(lang, n, m.cells[p]) && NoTwin(lang, m.cells, p, n)
    ensures Run(lang, m, [Make(Some(v), parent, DoorOf(lang, n), [], map[])]) ==
            Some(Machine(WithChild(m.cells, p) + [Fresh(n, m.cells[p].position)], m.env[v := |m.cells|]))
  {
    ReplaysParts(lang, n, m.cells[p]);
    hide Declared, Accepted, Restored, Admitted, Unchanged, ReplaysAll;
    DoorRestoresIff(lang, n, m.cells[p]);
    var born := Fresh(n, m.cells[p].position);
    var make := Make(Some(v), parent, DoorOf(lang, n), [], map[]);
    assert !Duplicate(lang, m.cells, m.cells[p], born);
    hide Created, DoorOf, Run;
    OneStep(lang, m, make, Machine(WithChild(m.cells, p) + [born], m.env[v := |m.cells|]));
  }

  /** The cell of an object with all but its children. */
  function Head(n: View, owner: Option<string>): Cell {
    Fresh(n, owner).(refs := n.refs, raw := n.raw)
  }

  /** The head lines of an object with children: its cell is complete but for them. */
  lemma HeadRuns(lang: Lang, n: View, parent: string, v: string, names: set<string>, m: Machine, p: nat)
    requires Ready(m, names, parent, p) && Replays(lang, n, m.cells[p]) && NoTwin(lang, m.cells, p, n)
    requires v !in names && v != "ref"
    ensures Run(lang, m, HeadCode(lang, n, parent, v)) ==
            Some(Machine(WithChild(m.cells, p) + [Head(n, m.cells[p].position)], m.env[v := |m.cells|]))
  {
    var owner := m.cells[p];
    MakeRuns(lang, n, parent, v, names, m, p);
    ReplaysParts(lang, n, owner);
    hide Accepted, Restored, Admitted, Unchanged, ReplaysAll;
    DeclaredParts(lang, n, owner.cls);
    RawIsOk(lang, n);
    var id := |m.cells|;
    var born := Fresh(n, owner.position);
    var make := [Make(Some(v), parent, DoorOf(lang, n), [], map[])];
    var m1 := Machine(WithChild(m.cells, p) + [born], m.env[v := id]);
    hide Declared, Created, DoorOf, Step, Run, WithRaw, Replayable, RefLines, RawLines, NoTwin, Leading, Callable, RefsOk;
    RefLinesRun(lang, m1, v, id, n.refs);
    var m2 := m1.(cells := m1.cells[id := born.(refs := [] + n.refs)]);
    RawLinesRun(lang, m2, v, id, n.raw);
    RunConcat(lang, m, make, RefLines(v, n.refs));
    RunConcat(lang, m, make + RefLines(v, n.refs), RawLines(v, n.raw));
    assert [] + n.refs == n.refs;
    assert m2.cells[id := m2.cells[id].(raw := n.raw)] == WithChild(m.cells, p) + [Head(n, owner.position)];
  }

  lemma OneStep(lang: Lang, m: Machine, stmt: Stmt, after: Machine)
    requires Step(lang, m, stmt) == Some(after)
    ensures Run(lang, m, [stmt]) == Some(after)
  {
    assert [stmt][1..] == [];
  }

  lemma VarIsNotRef(lang: Lang, n: View, names: set<string>)
    requires lang.slug(n.word, n.naming) != "ref"
    ensures VarOf(lang, n, names) != "ref"
  {
    var candidate := lang.slug(n.word, n.naming);
    var i: nat :| i >= 1 && VarOf(lang, n, names) == Numbered(candidate, i);
    if i > 1 {
      DigitsNumber(i);
      assert Numbered(candidate, i)[|Numbered(candidate, i)| - 1] == Digits(i)[|Digits(i)| - 1];
    }
  }

  // ---- An object and its subtree

  /** The cells after an object hanging from cell `p` has been replayed. */
  function Grown(cells: seq<Cell>, p: nat, n: View): seq<Cell>
    requires p < |cells|
  {
    WithChild(cells, p) + Layout(Relabelled(n, cells[p].position), |cells|)
  }

  function GrownAll(cells: seq<Cell>, p: nat, ns: seq<View>): seq<Cell>
    requires p < |cells|
  {
    var below := RelabelledAll(ns, cells[p].position);
    cells[p := cells[p].(children := cells[p].children + Ids(below, |cells|))] + LayoutAll(below, |cells|)
  }

  lemma HeadThenChildren(cells: seq<Cell>, p: nat, n: View)
    requires p < |cells|
    ensures GrownAll(WithChild(cells, p) + [Head(n, cells[p].position)], |cells|, n.children) == Grown(cells, p, n)
  {
    var r := Relabelled(n, cells[p].position);
    var head := WithChild(cells, p) + [Head(n, cells[p].position)];
    var id := |cells|;
    assert head[id].position == r.position && CellOf(r, []) == head[id];
    hide LayoutAll, Ids, RelabelledAll;
    assert r.children == RelabelledAll(n.children, r.position);
    assert [] + Ids(r.children, id + 1) == Ids(r.children, id + 1);
    assert head[id := CellOf(r, Ids(r.children, id + 1))] == WithChild(cells, p) + [CellOf(r, Ids(r.children, id + 1))];
    assert (WithChild(cells, p) + [CellOf(r, Ids(r.children, id + 1))]) + LayoutAll(r.children, id + 1) ==
           WithChild(cells, p) + ([CellOf(r, Ids(r.children, id + 1))] + LayoutAll(r.children, id + 1));
  }

  lemma NothingGrows(cells: seq<Cell>, p: nat)
    requires p < |cells|
    ensures GrownAll(cells, p, []) == cells
  {
    assert cells[p].children + [] == cells[p].children;
    assert cells[p := cells[p]] == cells;
  }

  lemma GrownShape(cells: seq<Cell>, p: nat, ids: seq<nat>, l: seq<Cell>, r: seq<Cell>)
    requires p < |cells|
    ensures var mid := cells[p := cells[p].(children := cells[p].children + ids)] + l;
            mid[p := mid[p].(children := mid[p].children + [|mid|])] + r ==
            cells[p := cells[p].(children := cells[p].children + (ids + [|mid|]))] + (l + r)
  {
    var mid := cells[p := cells[p].(children := cells[p].children + ids)] + l;
    assert cells[p].children + ids + [|mid|] == cells[p].children + (ids + [|mid|]);
  }

  lemma RelabelledSnoc(ns: seq<View>, n: View, owner: Option<string>)
    ensures RelabelledAll(ns + [n], owner) == RelabelledAll(ns, owner) + [Relabelled(n, owner)]
  {
    assert (ns + [n])[..|ns|] == ns;
  }

  lemma GrownSnoc(cells: seq<Cell>, p: nat, ns: seq<View>, n: View)
    requires p < |cells|
    ensures |GrownAll(cells, p, ns)| > p && GrownAll(cells, p, ns)[p].position == cells[p].position
    ensures Grown(GrownAll(cells, p, ns), p, n) == GrownAll(cells, p, ns + [n])
  {
    var base := |cells|;
    var mid := GrownAll(cells, p, ns);
    var below, r := RelabelledAll(ns, cells[p].position), Relabelled(n, cells[p].position);
    assert |mid| == base + SizeAll(below);
    RelabelledSnoc(ns, n, cells[p].position);
    IdsConcat(below, [r], base);
    LayoutConcat(below, [r], base);
    OneLayout(r, base + SizeAll(below));
    hide Layout, LayoutAll, Ids, SizeAll, Size, Relabelled, RelabelledAll;
    GrownShape(cells, p, Ids(below, base), LayoutAll(below, base), Layout(r, |mid|));
  }

  lemma {:induction false} RelabelledAt(ns: seq<View>, owner: Option<string>, j: nat)
    requires j < |ns|
    ensures RelabelledAll(ns, owner)[j] == Relabelled(ns[j], owner)
  {
    if j < |ns| - 1 { RelabelledAt(ns[..|ns| - 1], owner, j); }
  }

  /** Earlier siblings, as the machine holds them, are no twins of the next one. */
  lemma SiblingsNoTwin(lang: Lang, cells: seq<Cell>, p: nat, ns: seq<View>, n: View)
    requires p < |cells| && cells[p].children == []
    requires forall j :: 0 <= j < |ns| ==> !SameSibling(lang, ns[j], n)
    ensures p < |GrownAll(cells, p, ns)| && NoTwin(lang, GrownAll(cells, p, ns), p, n)
    ensures GrownAll(cells, p, ns)[p].position == cells[p].position && GrownAll(cells, p, ns)[p].cls == cells[p].cls
  {
    var mid := GrownAll(cells, p, ns);
    var below := RelabelledAll(ns, cells[p].position);
    hide LayoutAll, Ids, RelabelledAll, Relabelled;
    assert mid[p].children == Ids(below, |cells|);
    forall i | i in mid[p].children && i < |mid|
      ensures !(mid[i].cls == n.cls && lang.rnOf(mid[i].cls, mid[i].naming) == lang.rnOf(n.cls, n.naming))
    {
      var j :| 0 <= j < |below| && Ids(below, |cells|)[j] == i;
      IdsCells(below, |cells|, j);
      RelabelledAt(ns, cells[p].position, j);
      SameIdentity(ns[j], cells[p].position);
      assert mid[i] == LayoutAll(below, |cells|)[i - |cells|];
    }
  }

  lemma SameIdentity(n: View, owner: Option<string>)
    ensures var r := Relabelled(n, owner); r.cls == n.cls && r.naming == n.naming && r.attrs == n.attrs
  {
  }

  lemma InnerCode(lang: Lang, n: View, parent: string, names: set<string>)
    requires n.children != []
    ensures var v := VarOf(lang, n, names);
            var below := AllCode(lang, n.children, v, names + {v});
            NodeCode(lang, n, parent, names) == Emitted(HeadCode(lang, n, parent, v) + below.lines, below.names)
  {
  }

  lemma {:induction false} NodeRuns(lang: Lang, n: View, parent: string, names: set<string>, m: Machine, p: nat) returns (after: Machine)
    requires Ready(m, names, parent, p) && Replays(lang, n, m.cells[p]) && NoTwin(lang, m.cells, p, n)
    ensures Run(lang, m, NodeCode(lang, n, parent, names).lines) == Some(after)
    ensures after.cells == Grown(m.cells, p, n) && EnvKept(m, after, NodeCode(lang, n, parent, names).names)
    decreases n, 0
  {
    hide Declared, DeclaredAll, Accepted, Restored, ReplaysAll, VarOf, HeadCode, AllCode, NodeCode, Run, NoTwin, Layout, LayoutAll, Grown, Relabelled;
    GrownLonger(m.cells, p, n);
    if n.children == [] {
      LeafRuns(lang, n, parent, names, m, p);
      after := m.(cells := Grown(m.cells, p, n));
      assert NodeCode(lang, n, parent, names).names >= names;
    } else {
      var v := VarOf(lang, n, names);
      var id := |m.cells|;
      DeclaredParts(lang, n, m.cells[p].cls);
      ReplaysParts(lang, n, m.cells[p]);
      VarIsNotRef(lang, n, names);
      HeadRuns(lang, n, parent, v, names, m, p);
      var head := Machine(WithChild(m.cells, p) + [Head(n, m.cells[p].position)], m.env[v := id]);
      assert Ready(head, names + {v}, v, id);
      SameOwner(lang, n.children, Fresh(n, m.cells[p].position), head.cells[id]);
      after := AllRuns(lang, n.children, v, names + {v}, head, id);
      InnerCode(lang, n, parent, names);
      RunConcat(lang, m, HeadCode(lang, n, parent, v), AllCode(lang, n.children, v, names + {v}).lines);
      HeadThenChildren(m.cells, p, n);
      hide GrownAll;
    }
  }

  lemma GrownLonger(cells: seq<Cell>, p: nat, n: View)
    requires p < |cells|
    ensures |Grown(cells, p, n)| >= |cells|
  {
  }

  lemma SameOwner(lang: Lang, ns: seq<View>, a: Cell, b: Cell)
    requires ReplaysAll(lang, ns, a) && a.cls == b.cls && a.position == b.position
    ensures ReplaysAll(lang, ns, b)
  {
  }

  lemma {:induction false} AllRuns(lang: Lang, ns: seq<View>, parent: string, names: set<string>, m: Machine, p: nat) returns (after: Machine)
    requires Ready(m, names, parent, p) && ReplaysAll(lang, ns, m.cells[p]) && m.cells[p].children == []
    ensures Run(lang, m, AllCode(lang, ns, parent, names).lines) == Some(after)
    ensures after.cells == GrownAll(m.cells, p, ns) && EnvKept(m, after, AllCode(lang, ns, parent, names).names)
    decreases ns
  {
    if ns == [] {
      after := m;
      NothingGrows(m.cells, p);
    } else {
      var init, last := ns[..|ns| - 1], ns[|ns| - 1];
      assert ns == init + [last] && last in ns;
      InitReplays(lang, ns, m.cells[p]);
      hide *;
      var mid := AllRuns(lang, init, parent, names, m, p);
      var taken := AllCode(lang, init, parent, names).names;
      GrownSnoc(m.cells, p, init, last);
      SiblingsNoTwin(lang, m.cells, p, init, last);
      StillReady(m, mid, names, taken, parent, p);
      SameReplays(lang, last, m.cells[p], mid.cells[p]);
      after := NodeRuns(lang, last, parent, taken, mid, p);
      AllCodeSnoc(lang, init, last, parent, names);
      RunConcat(lang, m, AllCode(lang, init, parent, names).lines, NodeCode(lang, last, parent, taken).lines);
      KeptTwice(m, mid, after, taken, NodeCode(lang, last, parent, taken).names);
    }
  }

  lemma AllCodeSnoc(lang: Lang, ns: seq<View>, n: View, parent: string, names: set<string>)
    ensures var before := AllCode(lang, ns, parent, names);
            var last := NodeCode(lang, n, parent, before.names);
            AllCode(lang, ns + [n], parent, names) == Emitted(before.lines + last.lines, last.names)
  {
    assert (ns + [n])[..|ns|] == ns;
    hide NodeCode;
  }

  lemma StillReady(m: Machine, mid: Machine, names: set<string>, taken: set<string>, parent: string, p: nat)
    requires Ready(m, names, parent, p) && EnvKept(m, mid, taken) && p < |mid.cells|
    ensures Ready(mid, taken, parent, p)
  {
  }

  lemma SameReplays(lang: Lang, n: View, a: Cell, b: Cell)
    requires Replays(lang, n, a) && a.cls == b.cls && a.position == b.position
    ensures Replays(lang, n, b)
  {
  }

  lemma KeptTwice(m: Machine, mid: Machine, after: Machine, taken: set<string>, names: set<string>)
    requires EnvKept(m, mid, taken) && EnvKept(mid, after, names)
    ensures EnvKept(m, after, names)
  {
  }

  lemma InitReplays(lang: Lang, ns: seq<View>, owner: Cell)
    requires ns != [] && ReplaysAll(lang, ns, owner)
    ensures ReplaysAll(lang, ns[..|ns| - 1], owner) && Replays(lang, ns[|ns| - 1], owner)
    ensures var init := ns[..|ns| - 1]; forall j :: 0 <= j < |init| ==> !SameSibling(lang, init[j], ns[|ns| - 1])
  {
    hide Declared, Accepted, Restored, SameSibling;
    assert forall n :: n in ns[..|ns| - 1] ==> n in ns;
    assert ns[|ns| - 1] in ns;
  }

  // ---- The whole program

  /**
   * A design as the doors can have built it. The vocabulary curates no alias and no verb on the root,
   * so that the root carries no reference.
   */
  ghost predicate RootDeclared(lang: Lang, root: View) {
    && root.cls == ROOT_CELL.cls && root.word == ROOT_CELL.word && root.position == ROOT_CELL.position && root.naming == map[]
    && (forall k :: k in root.attrs ==> k !in lang.props(root.cls))
    && (forall kind, alias :: lang.pointsAt(root.cls, kind, alias) == None) && RefsOk(lang, root.cls, root.refs)
    && DeclaredAll(lang, root.children, root.cls)
  }

  /** What the root takes: raw attributes the catalogue knows, and attributes that sugar leaves alone. */
  ghost predicate RootSurvives(lang: Lang, root: View) {
    RawOk(lang, root.cls, root.raw) && (root.attrs == map[] || lang.sugar(root.cls, root.attrs) == root.attrs)
  }

  lemma EmptyOrNot<T>(s: seq<T>)
    ensures s == [] || exists x :: x in s
  {
    assert s == [] || s[0] in s;
  }

  lemma RootHasNoRefs(lang: Lang, root: View)
    requires RootDeclared(lang, root)
    ensures root.refs == []
  {
    EmptyOrNot(root.refs);
  }

  function AttrLines(v: string, attrs: map<string, string>): seq<Stmt> {
    if attrs == map[] then [] else [SetAttrs(v, attrs)]
  }

  lemma RootAttrs(lang: Lang, root: View, v: string, m: Machine)
    requires RootDeclared(lang, root) && RootSurvives(lang, root) && m == Machine([ROOT_CELL], map[v := 0])
    ensures Run(lang, m, AttrLines(v, root.attrs)) == Some(m.(cells := [ROOT_CELL.(attrs := root.attrs)]))
  {
    if root.attrs != map[] {
      assert map[] + root.attrs == root.attrs;
      assert m.cells[0 := ROOT_CELL.(attrs := root.attrs)] == [ROOT_CELL.(attrs := root.attrs)];
      OneStep(lang, m, SetAttrs(v, root.attrs), m.(cells := [ROOT_CELL.(attrs := root.attrs)]));
    }
  }

  /** The head lines of the program: the root with its attributes, raw ones included. */
  lemma RootHead(lang: Lang, root: View, v: string)
    requires RootDeclared(lang, root) && RootSurvives(lang, root)
    ensures Run(lang, Machine([], map[]), [NewDesign(v)] + AttrLines(v, root.attrs) + RawLines(v, root.raw)) ==
            Some(Machine([CellOf(root, [])], map[v := 0]))
  {
    var attrs := AttrLines(v, root.attrs);
    var m0, m1 := Machine([], map[]), Machine([ROOT_CELL], map[v := 0]);
    RootHasNoRefs(lang, root);
    assert m0.cells + [ROOT_CELL] == [ROOT_CELL];
    OneStep(lang, m0, NewDesign(v), m1);
    RootAttrs(lang, root, v, m1);
    var m2 := m1.(cells := [ROOT_CELL.(attrs := root.attrs)]);
    RawLinesRun(lang, m2, v, 0, root.raw);
    hide Run, RawLines, AttrLines;
    RunConcat(lang, m0, [NewDesign(v)], attrs);
    RunConcat(lang, m0, [NewDesign(v)] + attrs, RawLines(v, root.raw));
    assert m2.cells[0 := m2.cells[0].(raw := root.raw)] == [CellOf(root, [])];
  }

  ghost predicate RootReplays(lang: Lang, root: View) {
    RootSurvives(lang, root) && forall n :: n in root.children ==> Accepted(lang, n, root.cls, root.position) && Restored(lang, n)
  }

  /** Running the program of a design whose doors accept and restore it lays out the design, relabelled. */
  lemma RootRuns(lang: Lang, root: View, v: string) returns (after: Machine)
    requires RootDeclared(lang, root) && v != "ref" && RootReplays(lang, root)
    ensures Run(lang, Machine([], map[]), RootCode(lang, root, v)) == Some(after)
    ensures after.cells == Layout(AsReplayed(root), 0)
  {
    var head := [NewDesign(v)] + AttrLines(v, root.attrs) + RawLines(v, root.raw);
    RootHead(lang, root, v);
    var m := Machine([CellOf(root, [])], map[v := 0]);
    assert Ready(m, {v}, v, 0);
    hide Run, RawLines, DeclaredAll, Accepted, Restored, AllCode, AttrLines;
    assert ReplaysAll(lang, root.children, m.cells[0]);
    after := AllRuns(lang, root.children, v, {v}, m, 0);
    RootCodeParts(lang, root, v);
    RunConcat(lang, Machine([], map[]), head, AllCode(lang, root.children, v, {v}).lines);
    RootGrown(root);
  }

  lemma RootCodeParts(lang: Lang, root: View, v: string)
    ensures RootCode(lang, root, v) ==
            ([NewDesign(v)] + AttrLines(v, root.attrs) + RawLines(v, root.raw)) + AllCode(lang, root.children, v, {v}).lines
  {
  }

  /** The design as its replay labels it: `raw()` gives back no maker. */
  function AsReplayed(root: View): View {
    root.(children := RelabelledAll(root.children, root.position))
  }

  lemma RootGrown(n: View)
    ensures GrownAll([CellOf(n, [])], 0, n.children) == Layout(AsReplayed(n), 0)
  {
    var below := RelabelledAll(n.children, n.position);
    hide LayoutAll, Ids, RelabelledAll;
    assert [] + Ids(below, 1) == Ids(below, 1);
    assert [CellOf(n, [])][0 := CellOf(n, Ids(below, 1))] == [CellOf(n, Ids(below, 1))];
  }

  /** The cells determine the design. */
  lemma {:induction false} LayoutInjective(a: View, b: View, base: nat)
    requires Layout(a, base) == Layout(b, base)
    ensures a == b
    decreases a, 0
  {
    assert Layout(a, base)[0] == CellOf(a, Ids(a.children, base + 1)) && Layout(b, base)[0] == CellOf(b, Ids(b.children, base + 1));
    assert LayoutAll(a.children, base + 1) == Layout(a, base)[1..] && LayoutAll(b.children, base + 1) == Layout(b, base)[1..];
    AllInjective(a.children, b.children, base + 1);
  }

  lemma {:induction false} AllInjective(a: seq<View>, b: seq<View>, base: nat)
    requires Ids(a, base) == Ids(b, base) && LayoutAll(a, base) == LayoutAll(b, base)
    ensures a == b
    decreases a
  {
    if a != [] && b != [] {
      assert Ids(a, base)[1..] == Ids(a[1..], base + Size(a[0])) && Ids(b, base)[1..] == Ids(b[1..], base + Size(b[0]));
      assert |a| > 1 ==> Ids(a, base)[1] == base + Size(a[0]) && Ids(b, base)[1] == base + Size(b[0]);
      assert Size(a[0]) == Size(b[0]);
      LayoutStep(a, base);
      LayoutStep(b, base);
      assert Layout(a[0], base) == LayoutAll(a, base)[..Size(a[0])];
      assert Layout(b[0], base) == LayoutAll(b, base)[..Size(b[0])];
      assert LayoutAll(a[1..], base + Size(a[0])) == LayoutAll(a, base)[Size(a[0])..];
      assert LayoutAll(b[1..], base + Size(b[0])) == LayoutAll(b, base)[Size(b[0])..];
      LayoutInjective(a[0], b[0], base);
      AllInjective(a[1..], b[1..], base + Size(a[0]));
      assert a == [a[0]] + a[1..] && b == [b[0]] + b[1..];
    }
  }

  // ---- Each variable is assigned once

  function Assigned(stmts: seq<Stmt>): seq<string> {
    if stmts == [] then []
    else Assigned(stmts[..|stmts| - 1]) +
         match stmts[|stmts| - 1]
         case NewDesign(v) => [v]
         case Make(Some(v), _, _, _, _) => [v]
         case _ => []
  }

  lemma {:induction false} AssignedConcat(a: seq<Stmt>, b: seq<Stmt>)
    ensures Assigned(a + b) == Assigned(a) + Assigned(b)
  {
    if b == [] {
      assert a + b == a;
    } else {
      AssignedConcat(a, b[..|b| - 1]);
      assert (a + b)[..|a + b| - 1] == a + b[..|b| - 1];
    }
  }

  lemma {:induction false} RefsAssignNothing(v: string, refs: seq<Ref>)
    ensures Assigned(RefLines(v, refs)) == []
  {
    if refs != [] {
      RefsAssignNothing(v, refs[..|refs| - 1]);
      assert RefLines(v, refs)[..|refs| - 1] == RefLines(v, refs[..|refs| - 1]);
    }
  }

  lemma HeadAssigns(lang: Lang, n: View, parent: string, v: string)
    ensures Assigned(HeadCode(lang, n, parent, v)) == [v]
  {
    var make := Make(Some(v), parent, DoorOf(lang, n), [], map[]);
    RefsAssignNothing(v, n.refs);
    assert Assigned(RawLines(v, n.raw)) == [] by { assert RawLines(v, n.raw) != [] ==> RawLines(v, n.raw)[..0] == []; }
    assert Assigned([make]) == [v] by { assert [make][..0] == []; }
    hide Assigned, RawLines, RefLines;
    AssignedConcat([make], RefLines(v, n.refs));
    AssignedConcat([make] + RefLines(v, n.refs), RawLines(v, n.raw));
  }

  /** The variables a piece of code assigns: new ones, once each. */
  ghost predicate NewOnce(vars: seq<string>, names: set<string>, after: set<string>) {
    NoRepeat(vars) && forall v :: v in vars ==> v !in names && v in after
  }

  lemma LeafAssignsNothing(lang: Lang, n: View, parent: string, names: set<string>)
    requires n.children == []
    ensures Assigned(NodeCode(lang, n, parent, names).lines) == []
  {
    var stmt := Make(None, parent, DoorOf(lang, n), CallsOf(n.refs), n.raw);
    assert [stmt][..0] == [];
  }

  lemma {:induction false} NodeAssignsOnce(lang: Lang, n: View, parent: string, names: set<string>)
    ensures NewOnce(Assigned(NodeCode(lang, n, parent, names).lines), names, NodeCode(lang, n, parent, names).names)
    decreases n, 0
  {
    hide Assigned, HeadCode, AllCode, VarOf, NodeCode;
    if n.children == [] {
      LeafAssignsNothing(lang, n, parent, names);
    } else {
      var v := VarOf(lang, n, names);
      HeadAssigns(lang, n, parent, v);
      AllAssignOnce(lang, n.children, v, names + {v});
      InnerCode(lang, n, parent, names);
      var below := AllCode(lang, n.children, v, names + {v});
      AssignedConcat(HeadCode(lang, n, parent, v), below.lines);
      ConcatNoRepeat([v], Assigned(below.lines));
    }
  }

  lemma {:induction false} AllAssignOnce(lang: Lang, ns: seq<View>, parent: string, names: set<string>)
    ensures NewOnce(Assigned(AllCode(lang, ns, parent, names).lines), names, AllCode(lang, ns, parent, names).names)
    decreases ns
  {
    if ns != [] {
      var init, last := ns[..|ns| - 1], ns[|ns| - 1];
      assert last in ns;
      AllAssignOnce(lang, init, parent, names);
      var before := AllCode(lang, init, parent, names);
      NodeAssignsOnce(lang, last, parent, before.names);
      var own := NodeCode(lang, last, parent, before.names);
      hide Assigned, NodeCode;
      AssignedConcat(before.lines, own.lines);
      ConcatNoRepeat(Assigned(before.lines), Assigned(own.lines));
    }
  }

  lemma RootHeadAssigns(root: View, v: string)
    ensures Assigned([NewDesign(v)] + AttrLines(v, root.attrs) + RawLines(v, root.raw)) == [v]
  {
    var attrs := AttrLines(v, root.attrs);
    assert Assigned([NewDesign(v)]) == [v] by { assert [NewDesign(v)][..0] == []; }
    assert Assigned(attrs) == [] by { assert attrs != [] ==> attrs[..0] == []; }
    assert Assigned(RawLines(v, root.raw)) == [] by { assert RawLines(v, root.raw) != [] ==> RawLines(v, root.raw)[..0] == []; }
    hide Assigned, RawLines;
    AssignedConcat([NewDesign(v)], attrs);
    AssignedConcat([NewDesign(v)] + attrs, RawLines(v, root.raw));
  }

  /** No variable of the emitted program is assigned twice. */
  lemma AssignedOnce(lang: Lang, root: View, v: string)
    ensures NoRepeat(Assigned(RootCode(lang, root, v)))
  {
    var below := AllCode(lang, root.children, v, {v}).lines;
    RootHeadAssigns(root, v);
    AllAssignOnce(lang, root.children, v, {v});
    RootCodeParts(lang, root, v);
    hide Assigned, RawLines, AllCode, AttrLines;
    AssignedConcat([NewDesign(v)] + AttrLines(v, root.attrs) + RawLines(v, root.raw), below);
    ConcatNoRepeat([v], Assigned(below));
  }
}
