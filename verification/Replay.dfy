/** Running the emitted code rebuilds the design (`to_code` in `_emit.py`, the doors of `_cursor.py`). */
module Replay {
  import opened Text
  import opened Dn
  import opened Emit

  // ---- The machine

  /** A design node being built; children are cell numbers, in order. */
  datatype Cell = Cell(cls: string, word: string, position: Option<string>, naming: map<string, string>,
                       attrs: map<string, string>, raw: map<string, string>, refs: seq<Ref>, children: seq<nat>)

  datatype Machine = Machine(cells: seq<Cell>, env: map<string, nat>)

  const ROOT_CELL := Cell("polUni", "uni", Some(""), map[], map[], map[], [], [])

  function ChildPosition(owner: Option<string>, word: string): Option<string> {
    match owner
    case None => None
    case Some(p) => if p == "" then Some(word) else Some(p + "." + word)
  }

  /** `dict(zip(props, args))`. */
  function Zip(props: seq<string>, args: seq<string>): map<string, string> {
    if props == [] || args == [] then map[] else Zip(props[1..], args[1..])[props[0] := args[0]]
  }

  /** `_split_naming`: none when too many or twice-given naming values. */
  function SplitNaming(props: seq<string>, args: seq<string>, kwargs: map<string, string>): Option<(map<string, string>, map<string, string>)> {
    var positional := Zip(props, args);
    if |args| > |props| || (exists k | k in kwargs :: k in props && k in positional) then None
    else Some((positional + (map k | k in kwargs && k in props :: kwargs[k]), map k | k in kwargs && k !in props :: kwargs[k]))
  }

  /** The node a door creates under `owner`, before references and raw attributes. */
  function Created(lang: Lang, owner: Cell, door: Door): Option<Cell> {
    match door
    case Maker(word, args, kwargs) =>
      (match lang.maker(owner.cls, word)
       case None => None
       case Some(cls) =>
         // a generated method takes all its naming arguments
         if !lang.mayContain(owner.cls, cls) || (lang.generated(owner.position, word) && |args| != |lang.props(cls)|) then None
         else match SplitNaming(lang.props(cls), args, kwargs)
         case None => None
         case Some(parts) =>
           Some(Cell(cls, word, ChildPosition(owner.position, word), parts.0, lang.sugar(cls, parts.1), map[], [], [])))
    case RawDoor(cls, fields) =>
      if !lang.mayContain(owner.cls, cls) then None
      else match SplitNaming(lang.props(cls), [], fields)
      case None => None
      case Some(parts) =>
        if exists p | p in lang.props(cls) :: p !in parts.0 then None
        else Some(Cell(cls, cls, None, parts.0, parts.1, map[], [], []))
  }

  /** A sibling of the same class and RN. */
  predicate Duplicate(lang: Lang, cells: seq<Cell>, owner: Cell, c: Cell) {
    exists i | i in owner.children :: i < |cells| && cells[i].cls == c.cls && lang.rnOf(cells[i].cls, cells[i].naming) == lang.rnOf(c.cls, c.naming)
  }

  function WithRef(lang: Lang, env: map<string, nat>, c: Cell, call: RefCall): Option<Cell> {
    match lang.pointsAt(c.cls, call.kind, call.alias)
    case None => None
    case Some(cls) =>
      // `ref(...)` is the imported function only while no variable hides it
      if call.attrs != map[] && "ref" in env then None
      else if call.kind.ByVerb? && !lang.offers(c.position, call.alias) then None
      else Some(c.(refs := c.refs + [Ref(call.kind, call.alias, cls, call.target, call.attrs)]))
  }

  function WithRefs(lang: Lang, env: map<string, nat>, c: Cell, calls: seq<RefCall>): Option<Cell>
    decreases |calls|
  {
    if calls == [] then Some(c)
    else match WithRef(lang, env, c, calls[0])
         case None => None
         case Some(next) => WithRefs(lang, env, next, calls[1..])
  }

  function WithRaw(lang: Lang, c: Cell, raw: map<string, string>): Option<Cell> {
    match lang.wires(c.cls)
    case None => Some(c.(raw := c.raw + raw))
    case Some(known) => if exists wire | wire in raw :: wire !in known then None else Some(c.(raw := c.raw + raw))
  }

  function OnCell(m: Machine, v: string): Option<nat> {
    if v in m.env && m.env[v] < |m.cells| then Some(m.env[v]) else None
  }

  function Step(lang: Lang, m: Machine, stmt: Stmt): Option<Machine> {
    match stmt
    case NewDesign(v) => Some(Machine(m.cells + [ROOT_CELL], m.env[v := |m.cells|]))
    case SetAttrs(v, attrs) =>
      (match OnCell(m, v)
       case None => None
       case Some(i) =>
         var c := m.cells[i];
         var sugared := lang.sugar(c.cls, attrs);
         if exists k | k in sugared :: k in lang.props(c.cls) then None
         else Some(m.(cells := m.cells[i := c.(attrs := c.attrs + sugared)])))
    case RawSet(v, raw) =>
      (match OnCell(m, v)
       case None => None
       case Some(i) =>
         match WithRaw(lang, m.cells[i], raw)
         case None => None
         case Some(c) => Some(m.(cells := m.cells[i := c])))
    case AddRef(v, call) =>
      (match OnCell(m, v)
       case None => None
       case Some(i) =>
         match WithRef(lang, m.env, m.cells[i], call)
         case None => None
         case Some(c) => Some(m.(cells := m.cells[i := c])))
    case Make(result, parent, door, calls, raw) =>
      match OnCell(m, parent)
      case None => None
      case Some(p) =>
        match Created(lang, m.cells[p], door)
        case None => None
        case Some(made) =>
          if Duplicate(lang, m.cells, m.cells[p], made) then None
          else
            match WithRefs(lang, m.env, made, calls)
            case None => None
            case Some(referred) =>
              match if raw == map[] then Some(referred) else WithRaw(lang, referred, raw)
              case None => None
              case Some(c) =>
                var id := |m.cells|;
                var cells := m.cells[p := m.cells[p].(children := m.cells[p].children + [id])] + [c];
                Some(Machine(cells, if result.Some? then m.env[result.value := id] else m.env))
  }

  function Run(lang: Lang, m: Machine, stmts: seq<Stmt>): Option<Machine>
    decreases |stmts|
  {
    if stmts == [] then Some(m)
    else match Step(lang, m, stmts[0])
         case None => None
         case Some(next) => Run(lang, next, stmts[1..])
  }

  lemma {:induction false} RunConcat(lang: Lang, m: Machine, a: seq<Stmt>, b: seq<Stmt>)
    ensures Run(lang, m, a + b) == (match Run(lang, m, a) case None => None case Some(mid) => Run(lang, mid, b))
    decreases |a|
  {
    if a == [] {
      assert a + b == b;
    } else {
      hide Step;
      assert (a + b)[1..] == a[1..] + b;
      match Step(lang, m, a[0])
      case None =>
      case Some(next) => RunConcat(lang, next, a[1..], b);
    }
  }

  // ---- What a design looks like in the machine

  function Size(n: View): nat
    decreases n, 0
  {
    1 + SizeAll(n.children)
  }

  function SizeAll(ns: seq<View>): nat
    decreases ns
  {
    if ns == [] then 0 else Size(ns[0]) + SizeAll(ns[1..])
  }

  function Ids(ns: seq<View>, base: nat): (r: seq<nat>)
    ensures |r| == |ns|
  {
    if ns == [] then [] else [base] + Ids(ns[1..], base + Size(ns[0]))
  }

  function CellOf(n: View, children: seq<nat>): Cell {
    Cell(n.cls, n.word, n.position, n.naming, n.attrs, n.raw, n.refs, children)
  }

  /** The cells of an object and its subtree, from cell number `base` on. */
  function Layout(n: View, base: nat): (r: seq<Cell>)
    ensures |r| == Size(n)
    decreases n, 0
  {
    [CellOf(n, Ids(n.children, base + 1))] + LayoutAll(n.children, base + 1)
  }

  function LayoutAll(ns: seq<View>, base: nat): (r: seq<Cell>)
    ensures |r| == SizeAll(ns)
    decreases ns
  {
    if ns == [] then [] else Layout(ns[0], base) + LayoutAll(ns[1..], base + Size(ns[0]))
  }

  lemma {:induction false} IdsConcat(a: seq<View>, b: seq<View>, base: nat)
    ensures Ids(a + b, base) == Ids(a, base) + Ids(b, base + SizeAll(a))
  {
    if a == [] {
      assert a + b == b;
    } else {
      hide Size;
      IdsConcat(a[1..], b, base + Size(a[0]));
      assert (a + b)[1..] == a[1..] + b;
    }
  }

  lemma SizeStep(ns: seq<View>)
    requires ns != []
    ensures SizeAll(ns) == Size(ns[0]) + SizeAll(ns[1..])
  {
  }

  lemma LayoutStep(ns: seq<View>, base: nat)
    requires ns != []
    ensures LayoutAll(ns, base) == Layout(ns[0], base) + LayoutAll(ns[1..], base + Size(ns[0]))
  {
  }

  lemma {:induction false} LayoutConcat(a: seq<View>, b: seq<View>, base: nat)
    ensures LayoutAll(a + b, base) == LayoutAll(a, base) + LayoutAll(b, base + SizeAll(a))
  {
    if a == [] {
      assert a + b == b;
    } else {
      hide *;
      LayoutConcat(a[1..], b, base + Size(a[0]));
      LayoutConcatStep(a, b, base);
    }
  }

  lemma LayoutConcatStep(a: seq<View>, b: seq<View>, base: nat)
    requires a != []
    requires var next := base + Size(a[0]);
             LayoutAll(a[1..] + b, next) == LayoutAll(a[1..], next) + LayoutAll(b, next + SizeAll(a[1..]))
    ensures LayoutAll(a + b, base) == LayoutAll(a, base) + LayoutAll(b, base + SizeAll(a))
  {
    hide *;
    assert (a + b)[1..] == a[1..] + b;
    SizeStep(a);
    LayoutStep(a, base);
    LayoutStep(a + b, base);
    var next := base + Size(a[0]);
    assert next + SizeAll(a[1..]) == base + SizeAll(a);
    assert Layout(a[0], base) + (LayoutAll(a[1..], next) + LayoutAll(b, next + SizeAll(a[1..]))) ==
           (Layout(a[0], base) + LayoutAll(a[1..], next)) + LayoutAll(b, next + SizeAll(a[1..]));
  }

  lemma OneLayout(n: View, base: nat)
    ensures Ids([n], base) == [base] && LayoutAll([n], base) == Layout(n, base)
  {
    assert [n][1..] == [];
  }

  lemma FirstCell(n: View, base: nat)
    ensures Size(n) > 0 && Layout(n, base)[0].cls == n.cls && Layout(n, base)[0].naming == n.naming
  {
  }

  lemma IdsStep(ns: seq<View>, base: nat)
    requires ns != []
    ensures Ids(ns, base) == [base] + Ids(ns[1..], base + Size(ns[0]))
  {
  }

  /** The j-th object of a forest sits in the cell its number says. */
  lemma {:induction false} IdsCells(ns: seq<View>, base: nat, j: nat)
    requires j < |ns|
    ensures base <= Ids(ns, base)[j] < base + SizeAll(ns)
    ensures var c := LayoutAll(ns, base)[Ids(ns, base)[j] - base];
            c.cls == ns[j].cls && c.naming == ns[j].naming
  {
    hide Size, SizeAll, Layout, LayoutAll, Ids;
    SizeStep(ns);
    IdsStep(ns, base);
    LayoutStep(ns, base);
    FirstCell(ns[0], base);
    if j > 0 { IdsCells(ns[1..], base + Size(ns[0]), j - 1); }
  }

  // ---- What the doors can replay

  function SetOf(s: seq<string>): set<string> { set x | x in s }

  /** The naming values are those of the first naming properties of the class. */
  ghost predicate Leading(props: seq<string>, naming: map<string, string>) {
    |naming| <= |props| && naming.Keys == SetOf(props[..|naming|])
  }

  ghost predicate SameSibling(lang: Lang, a: View, b: View) {
    a.cls == b.cls && lang.rnOf(a.cls, a.naming) == lang.rnOf(b.cls, b.naming)
  }

  /** An object a design can hold under an owner of class `owner`, with its subtree, as `to_code` accepts it. */
  ghost predicate Declared(lang: Lang, n: View, owner: string)
    decreases n
  {
    var props := lang.props(n.cls);
    && NoRepeat(props)
    && n.naming.Keys <= SetOf(props)
    && (forall k :: k in n.attrs ==> k !in props)
    && (n.position.Some? ==> lang.maker(owner, n.word) == Some(n.cls))
    && Replayable(lang, n)
    && (n.children != [] ==> lang.slug(n.word, n.naming) != "ref")
    && DeclaredAll(lang, n.children, n.cls)
  }

  ghost predicate DeclaredAll(lang: Lang, ns: seq<View>, owner: string)
    decreases ns
  {
    && (forall n :: n in ns ==> Declared(lang, n, owner))
    && forall i, j :: 0 <= i < j < |ns| ==> !SameSibling(lang, ns[i], ns[j])
  }

  /** Every reference points where its alias points. */
  ghost predicate RefsOk(lang: Lang, cls: string, refs: seq<Ref>) {
    forall r :: r in refs ==> lang.pointsAt(cls, r.kind, r.alias) == Some(r.cls)
  }

  /** The position an object gets under an owner at `owner`: one outside the vocabulary stays outside. */
  function NewPosition(n: View, owner: Option<string>): Option<string> {
    if n.position.Some? then ChildPosition(owner, n.word) else None
  }

  /** The object as the doors label it: `raw()` knows the class and no maker. */
  function Relabelled(n: View, owner: Option<string>): View
    decreases n, 0
  {
    n.(word := if n.position.Some? then n.word else n.cls,
       position := NewPosition(n, owner),
       children := RelabelledAll(n.children, NewPosition(n, owner)))
  }

  function RelabelledAll(ns: seq<View>, owner: Option<string>): (r: seq<View>)
    ensures |r| == |ns|
    decreases ns
  {
    if ns == [] then []
    else
      assert ns[|ns| - 1] in ns;
      RelabelledAll(ns[..|ns| - 1], owner) + [Relabelled(ns[|ns| - 1], owner)]
  }

  /**
   * What the doors accept under an owner of class `cls` at `owner`: the tables know the containment, `raw()`
   * and a generated maker get every naming property, and every reference has a method and an alias.
   */
  ghost predicate Accepted(lang: Lang, n: View, cls: string, owner: Option<string>)
    decreases n
  {
    && Admitted(lang, n, cls, owner)
    && Callable(lang, n.cls, NewPosition(n, owner), n.refs)
    && forall c :: c in n.children ==> Accepted(lang, c, n.cls, NewPosition(n, owner))
  }

  /** The door of the object itself lets it in. */
  ghost predicate Admitted(lang: Lang, n: View, cls: string, owner: Option<string>) {
    && lang.mayContain(cls, n.cls)
    && (n.position.None? || lang.generated(owner, n.word) ==> SetOf(lang.props(n.cls)) <= n.naming.Keys)
  }

  ghost predicate Callable(lang: Lang, cls: string, position: Option<string>, refs: seq<Ref>) {
    forall r :: r in refs ==> lang.pointsAt(cls, r.kind, r.alias).Some? && (r.kind.ByVerb? ==> lang.offers(position, r.alias))
  }

  /** What comes back as it was: leading naming values and attributes sugar leaves alone under a maker, and targets. */
  ghost predicate Restored(lang: Lang, n: View)
    decreases n
  {
    && Unchanged(lang, n) && RefsOk(lang, n.cls, n.refs)
    && forall c :: c in n.children ==> Restored(lang, c)
  }

  ghost predicate Unchanged(lang: Lang, n: View) {
    n.position.Some? ==> Leading(lang.props(n.cls), n.naming) && lang.sugar(n.cls, n.attrs) == n.attrs
  }

  // ---- Naming by position

  lemma {:induction false} ZipKeys(props: seq<string>, args: seq<string>)
    requires |args| <= |props| && NoRepeat(props)
    ensures Zip(props, args).Keys == SetOf(props[..|args|])
    ensures forall i :: 0 <= i < |args| ==> props[i] in Zip(props, args) && Zip(props, args)[props[i]] == args[i]
  {
    if args != [] {
      ZipKeys(props[1..], args[1..]);
      assert forall i :: 0 <= i < |args| - 1 ==> props[1..][i] == props[i + 1] && args[1..][i] == args[i + 1];
      assert props[..|args|] == [props[0]] + props[1..][..|args| - 1];
    }
  }

  /** Every naming property has a value exactly when there are as many positional arguments. */
  lemma {:induction false} PositionalFull(props: seq<string>, naming: map<string, string>)
    ensures |Positional(props, naming)| <= |props|
    ensures |Positional(props, naming)| == |props| <==> forall p :: p in props ==> p in naming
  {
    if props != [] {
      PositionalFull(props[1..], naming);
      assert forall p :: p in props <==> p == props[0] || p in props[1..];
    }
  }

  lemma {:induction false} PositionalLeading(props: seq<string>, naming: map<string, string>, k: nat)
    requires NoRepeat(props) && k <= |props|
    requires forall i :: 0 <= i < |props| ==> (props[i] in naming <==> i < k)
    ensures |Positional(props, naming)| == k && forall i :: 0 <= i < k ==> Positional(props, naming)[i] == naming[props[i]]
  {
    if props != [] {
      assert forall i :: 0 <= i < |props| - 1 ==> props[1..][i] == props[i + 1];
      PositionalLeading(props[1..], naming, if k == 0 then 0 else k - 1);
    }
  }

  lemma LeadingIndices(props: seq<string>, naming: map<string, string>)
    requires NoRepeat(props) && Leading(props, naming)
    ensures forall i :: 0 <= i < |props| ==> (props[i] in naming <==> i < |naming|)
  {
    var k := |naming|;
    forall i | 0 <= i < |props| ensures props[i] in naming <==> i < k {
      if i < k { assert props[..k][i] == props[i]; }
      if props[i] in naming { var j :| 0 <= j < k && props[..k][j] == props[i]; }
    }
  }

  lemma LeadingRestores(props: seq<string>, naming: map<string, string>)
    requires NoRepeat(props) && Leading(props, naming)
    ensures Zip(props, Positional(props, naming)) == naming && |Positional(props, naming)| <= |props|
  {
    var args := Positional(props, naming);
    LeadingIndices(props, naming);
    PositionalLeading(props, naming, |naming|);
    ZipKeys(props, args);
    hide Zip, Positional, NoRepeat;
    forall p | p in naming ensures p in Zip(props, args) && Zip(props, args)[p] == naming[p] {
      LeadingIndex(props, naming, p);
    }
    assert Zip(props, args).Keys == naming.Keys;
  }

  lemma LeadingIndex(props: seq<string>, naming: map<string, string>, p: string)
    requires Leading(props, naming) && p in naming
    ensures exists i :: 0 <= i < |naming| && props[i] == p
  {
    assert p in SetOf(props[..|naming|]);
    var i :| 0 <= i < |naming| && props[..|naming|][i] == p;
    assert props[i] == p;
  }

  /** Passing the naming values by position restores them exactly when they lead the naming properties. */
  lemma PositionalRestoresIff(props: seq<string>, naming: map<string, string>)
    requires NoRepeat(props)
    ensures Zip(props, Positional(props, naming)) == naming <==> Leading(props, naming)
  {
    var args := Positional(props, naming);
    PositionalFull(props, naming);
    ZipKeys(props, args);
    hide Zip, Positional, SetOf, Leading;
    if Leading(props, naming) { LeadingRestores(props, naming); }
    if Zip(props, args) == naming {
      DistinctPrefixSize(props, |args|);
      assert |naming| == |naming.Keys|;
      LeadingIs(props, naming, |args|);
    }
  }

  lemma LeadingIs(props: seq<string>, naming: map<string, string>, k: nat)
    requires k <= |props| && naming.Keys == SetOf(props[..k]) && |naming| == k
    ensures Leading(props, naming)
  {
  }

  lemma {:induction false} DistinctPrefixSize(props: seq<string>, k: nat)
    requires NoRepeat(props) && k <= |props|
    ensures |SetOf(props[..k])| == k
  {
    if k > 0 {
      DistinctPrefixSize(props, k - 1);
      assert props[..k] == props[..k - 1] + [props[k - 1]];
      assert SetOf(props[..k]) == SetOf(props[..k - 1]) + {props[k - 1]};
    } else {
      assert SetOf(props[..0]) == {};
    }
  }
}
