/** The code emitter (`_emit.py`): a design view becomes a straight-line program over fresh variables. */
module Emit {
  import opened Text
  import opened Dn

  datatype Kind = ToName | ToDn | ByVerb

  /** A declared reference; `cls` is the class it points at. */
  datatype Ref = Ref(kind: Kind, alias: string, cls: string, target: string, attrs: map<string, string>)

  /** One object of a design view. */
  datatype View = View(cls: string, word: string, position: Option<string>, naming: map<string, string>,
                       attrs: map<string, string>, raw: map<string, string>, refs: seq<Ref>, children: seq<View>)

  /**
   * The vocabulary: the class a maker creates under a class, whether the cursor of a position has the maker
   * as a generated method, the classes a class may contain, the naming properties of a class in order, the
   * sugar of a maker, the RN of named objects, the class an alias points at, the verbs the cursor of a
   * position has as methods, the wire properties of a class, and the slug of a maker and its naming.
   */
  datatype Lang = Lang(
    maker: (string, string) -> Option<string>,
    generated: (Option<string>, string) -> bool,
    mayContain: (string, string) -> bool,
    props: string -> seq<string>,
    sugar: (string, map<string, string>) -> map<string, string>,
    rnOf: (string, map<string, string>) -> string,
    pointsAt: (string, Kind, string) -> Option<string>,
    offers: (Option<string>, string) -> bool,
    wires: string -> Option<set<string>>,
    slug: (string, map<string, string>) -> string)

  // ---- Fresh variables

  function Digits(n: nat): string {
    if n < 10 then [('0' as int + n) as char] else Digits(n / 10) + [('0' as int + n % 10) as char]
  }

  function Number(s: string): int {
    if s == "" then 0 else 10 * Number(s[..|s| - 1]) + (s[|s| - 1] as int - '0' as int)
  }

  lemma {:induction false} DigitsNumber(n: nat)
    ensures Number(Digits(n)) == n && Digits(n) != "" && Digits(n)[|Digits(n)| - 1] in "0123456789"
  {
    if n >= 10 {
      DigitsNumber(n / 10);
      assert Digits(n)[..|Digits(n)| - 1] == Digits(n / 10);
    }
  }

  /** The k-th name tried for a candidate. */
  function Numbered(candidate: string, k: nat): string {
    if k <= 1 then candidate else candidate + "_" + Digits(k)
  }

  lemma NumberedApart(candidate: string, j: nat, k: nat)
    requires 1 <= j < k
    ensures Numbered(candidate, j) != Numbered(candidate, k)
  {
    DigitsNumber(j);
    DigitsNumber(k);
    var a, b := Numbered(candidate, j), Numbered(candidate, k);
    assert b[|candidate| + 1..] == Digits(k);
    if j > 1 { assert a[|candidate| + 1..] == Digits(j); }
  }

  ghost function Tried(candidate: string, k: nat): set<string> {
    set j | 1 <= j < k :: Numbered(candidate, j)
  }

  lemma TriedGrows(candidate: string, names: set<string>, k: nat)
    requires k >= 1 && Numbered(candidate, k) in names
    ensures |names - Tried(candidate, k + 1)| < |names - Tried(candidate, k)|
  {
    var before, after := names - Tried(candidate, k), names - Tried(candidate, k + 1);
    var name := Numbered(candidate, k);
    assert name !in Tried(candidate, k) by {
      forall j | 1 <= j < k ensures Numbered(candidate, j) != name { NumberedApart(candidate, j, k); }
    }
    assert name in Tried(candidate, k + 1);
    assert after <= before - {name};
    assert before == after + (before - after);
    assert name in before - after;
  }

  /** The first name not taken. */
  function FreshName(candidate: string, names: set<string>, k: nat): (r: string)
    requires k >= 1
    ensures r !in names && exists i: nat :: i >= k && r == Numbered(candidate, i)
    decreases |names - Tried(candidate, k)|
  {
    if Numbered(candidate, k) !in names then Numbered(candidate, k)
    else
      TriedGrows(candidate, names, k);
      FreshName(candidate, names, k + 1)
  }

  // ---- The program

  /** A reference as written: its class is looked up again when the program runs. */
  datatype RefCall = RefCall(kind: Kind, alias: string, target: string, attrs: map<string, string>)

  datatype Door =
    | Maker(word: string, args: seq<string>, kwargs: map<string, string>)
    | RawDoor(cls: string, fields: map<string, string>)

  datatype Stmt =
    | NewDesign(v: string)
    | SetAttrs(v: string, attrs: map<string, string>)
    | RawSet(v: string, raw: map<string, string>)
    | AddRef(v: string, call: RefCall)
    | Make(result: Option<string>, parent: string, door: Door, calls: seq<RefCall>, raw: map<string, string>)

  function CallOf(r: Ref): RefCall { RefCall(r.kind, r.alias, r.target, r.attrs) }

  function CallsOf(refs: seq<Ref>): (r: seq<RefCall>)
    ensures |r| == |refs| && forall i :: 0 <= i < |r| ==> r[i] == CallOf(refs[i])
  {
    seq(|refs|, i requires 0 <= i < |refs| => CallOf(refs[i]))
  }

  /** Naming values in the class's own order; a property without a value is skipped. */
  function Positional(props: seq<string>, naming: map<string, string>): seq<string> {
    if props == [] then []
    else (if props[0] in naming then [naming[props[0]]] else []) + Positional(props[1..], naming)
  }

  function DoorOf(lang: Lang, n: View): Door {
    if n.position.Some? then Maker(n.word, Positional(lang.props(n.cls), n.naming), n.attrs)
    else RawDoor(n.cls, n.naming + n.attrs)
  }

  function VarOf(lang: Lang, n: View, names: set<string>): (r: string)
    ensures r !in names
  {
    FreshName(lang.slug(n.word, n.naming), names, 1)
  }

  function RawLines(v: string, raw: map<string, string>): seq<Stmt> {
    if raw == map[] then [] else [RawSet(v, raw)]
  }

  function RefLines(v: string, refs: seq<Ref>): (r: seq<Stmt>)
    ensures |r| == |refs|
  {
    seq(|refs|, i requires 0 <= i < |refs| => AddRef(v, CallOf(refs[i])))
  }

  /** The lines of an object that has children, held in the variable `v`. */
  function HeadCode(lang: Lang, n: View, parent: string, v: string): seq<Stmt> {
    [Make(Some(v), parent, DoorOf(lang, n), [], map[])] + RefLines(v, n.refs) + RawLines(v, n.raw)
  }

  datatype Emitted = Emitted(lines: seq<Stmt>, names: set<string>)

  /** What `emit_node` appends for an object and its subtree, with the names in use after it. */
  function NodeCode(lang: Lang, n: View, parent: string, names: set<string>): (r: Emitted)
    ensures names <= r.names
    decreases n, 0
  {
    if n.children == [] then Emitted([Make(None, parent, DoorOf(lang, n), CallsOf(n.refs), n.raw)], names)
    else
      var v := VarOf(lang, n, names);
      var below := AllCode(lang, n.children, v, names + {v});
      Emitted(HeadCode(lang, n, parent, v) + below.lines, below.names)
  }

  function AllCode(lang: Lang, ns: seq<View>, parent: string, names: set<string>): (r: Emitted)
    ensures names <= r.names
    decreases ns
  {
    if ns == [] then Emitted([], names)
    else
      assert ns[|ns| - 1] in ns;
      var before := AllCode(lang, ns[..|ns| - 1], parent, names);
      var last := NodeCode(lang, ns[|ns| - 1], parent, before.names);
      Emitted(before.lines + last.lines, last.names)
  }

  /** `emit_root`. */
  function RootCode(lang: Lang, root: View, v: string): seq<Stmt> {
    [NewDesign(v)]
    + (if root.attrs == map[] then [] else [SetAttrs(v, root.attrs)])
    + RawLines(v, root.raw)
    + AllCode(lang, root.children, v, {v}).lines
  }

  // ---- The emitter as it runs

  /** The public doors know the class and every property set through the raw channel. */
  predicate Replayable(lang: Lang, n: View) {
    lang.wires(n.cls).Some? && forall wire | wire in n.raw :: wire in lang.wires(n.cls).value
  }

  /** What the doors cannot replay: an object of an unknown class, or a raw property of it they do not know. */
  datatype Refusal = UnknownClass(n: View) | UnknownWire(n: View, wire: string)

  ghost function RefusalsOf(lang: Lang, n: View): multiset<Refusal> {
    match lang.wires(n.cls)
    case None => multiset{UnknownClass(n)}
    case Some(known) => multiset(set wire | wire in n.raw && wire !in known :: UnknownWire(n, wire))
  }

  ghost function Refusals(lang: Lang, ns: seq<View>): multiset<Refusal> {
    if ns == [] then multiset{} else Refusals(lang, ns[..|ns| - 1]) + RefusalsOf(lang, ns[|ns| - 1])
  }

  /** The objects of the views and everything below them, in the order of the walk. */
  function Objects(ns: seq<View>): seq<View>
    decreases ns
  {
    if ns == [] then []
    else
      assert ns[|ns| - 1] in ns;
      Objects(ns[..|ns| - 1]) + [ns[|ns| - 1]] + Objects(ns[|ns| - 1].children)
  }

  lemma ObjectsOne(n: View)
    ensures Objects([n]) == [n] + Objects(n.children)
  {
    assert [n][..0] == [] && [n][0] == n;
    assert [] + [n] == [n];
  }

  lemma ObjectsSnoc(ns: seq<View>, n: View)
    ensures Objects(ns + [n]) == Objects(ns) + Objects([n])
  {
    ObjectsOne(n);
    assert (ns + [n])[..|ns|] == ns;
  }

  /** The walk meets the views, what is below them, and nothing else. */
  lemma {:induction false} ObjectsAre(ns: seq<View>, n: View)
    ensures n in Objects(ns) <==> exists c :: c in ns && (n == c || n in Objects(c.children))
  {
    if ns != [] {
      var init, last := ns[..|ns| - 1], ns[|ns| - 1];
      ObjectsAre(init, n);
      assert forall c :: c in ns <==> c in init || c == last by { assert ns == init + [last]; }
    }
  }

  lemma {:induction false} RefusalsConcat(lang: Lang, a: seq<View>, b: seq<View>)
    ensures Refusals(lang, a + b) == Refusals(lang, a) + Refusals(lang, b)
  {
    hide RefusalsOf;
    if b == [] {
      assert a + b == a;
    } else {
      RefusalsConcat(lang, a, b[..|b| - 1]);
      assert (a + b)[..|a + b| - 1] == a + b[..|b| - 1];
    }
  }

  /** An object and its subtree: its own refusals, then those below. */
  lemma RefusalsTree(lang: Lang, n: View)
    ensures Refusals(lang, Objects([n])) == RefusalsOf(lang, n) + Refusals(lang, Objects(n.children))
  {
    ObjectsOne(n);
    assert [n][..0] == [];
    RefusalsConcat(lang, [n], Objects(n.children));
    hide RefusalsOf, Objects;
  }

  lemma RefusalsSnoc(lang: Lang, ns: seq<View>, n: View)
    ensures Refusals(lang, Objects(ns + [n])) == Refusals(lang, Objects(ns)) + Refusals(lang, Objects([n]))
  {
    ObjectsSnoc(ns, n);
    RefusalsConcat(lang, Objects(ns), Objects([n]));
  }

  /** The doors know no such class, or know it and not the raw property. */
  ghost predicate Fails(lang: Lang, x: Refusal) {
    match x
    case UnknownClass(n) => lang.wires(n.cls).None?
    case UnknownWire(n, wire) => lang.wires(n.cls).Some? && wire in n.raw && wire !in lang.wires(n.cls).value
  }

  lemma RefusedBy(lang: Lang, n: View, x: Refusal)
    ensures x in RefusalsOf(lang, n) <==> x.n == n && Fails(lang, x)
  {
  }

  /** What is refused, among these objects. */
  lemma {:induction false} RefusalsAre(lang: Lang, ns: seq<View>, x: Refusal)
    ensures x in Refusals(lang, ns) <==> x.n in ns && Fails(lang, x)
  {
    if ns != [] {
      var init, last := ns[..|ns| - 1], ns[|ns| - 1];
      RefusalsAre(lang, init, x);
      RefusedBy(lang, last, x);
      assert forall c :: c in ns <==> c in init || c == last by { assert ns == init + [last]; }
      hide RefusalsOf, Fails;
    }
  }

  lemma ReplayableIff(lang: Lang, n: View)
    ensures Replayable(lang, n) <==> forall x: Refusal :: x.n == n ==> !Fails(lang, x)
  {
    if forall x: Refusal :: x.n == n ==> !Fails(lang, x) {
      assert !Fails(lang, UnknownClass(n));
      forall wire | wire in n.raw ensures wire in lang.wires(n.cls).value { assert !Fails(lang, UnknownWire(n, wire)); }
    }
  }

  lemma NothingRefused(lang: Lang, ns: seq<View>)
    ensures Refusals(lang, ns) == multiset{} <==> forall n :: n in ns ==> Replayable(lang, n)
  {
    forall x ensures x in Refusals(lang, ns) <==> x.n in ns && Fails(lang, x) { RefusalsAre(lang, ns, x); }
    forall n ensures Replayable(lang, n) <==> forall x: Refusal :: x.n == n ==> !Fails(lang, x) { ReplayableIff(lang, n); }
    var all := Refusals(lang, ns);
    hide *;
    if forall n :: n in ns ==> Replayable(lang, n) { EmptyMultiset(all); }
  }

  lemma EmptyMultiset<T>(all: multiset<T>)
    requires forall x :: x !in all
    ensures all == multiset{}
  {
  }

  class Emitter {
    const lang: Lang
    var lines: seq<Stmt>
    var names: set<string>
    var unreplayable: seq<Refusal>

    constructor (lang: Lang, rootVar: string)
      ensures this.lang == lang && lines == [] && names == {rootVar} && unreplayable == []
    {
      this.lang := lang;
      lines, names, unreplayable := [], {rootVar}, [];
    }

    /** `var_for`: the search ends because only finitely many names are taken. */
    method VarFor(n: View) returns (name: string)
      modifies this`names
      ensures name == VarOf(lang, n, old(names)) && names == old(names) + {name}
    {
      var candidate := lang.slug(n.word, n.naming);
      var counter := 1;
      name := candidate;
      while name in names
        invariant names == old(names)
        invariant counter >= 1 && name == Numbered(candidate, counter)
        invariant FreshName(candidate, names, 1) == FreshName(candidate, names, counter)
        decreases |names - Tried(candidate, counter)|
      {
        TriedGrows(candidate, names, counter);
        counter := counter + 1;
        name := candidate + "_" + Digits(counter);
      }
      names := names + {name};
    }

    /** `_check_replayable`. */
    method CheckReplayable(n: View)
      modifies this`unreplayable
      ensures multiset(unreplayable) == multiset(old(unreplayable)) + RefusalsOf(lang, n)
    {
      var known := lang.wires(n.cls);
      if known.None? {
        unreplayable := unreplayable + [UnknownClass(n)];
        return;
      }
      var todo := n.raw.Keys;
      assert n.raw.Keys - todo == {};
      while todo != {}
        invariant todo <= n.raw.Keys
        invariant multiset(unreplayable) == multiset(old(unreplayable)) +
                    multiset(set wire | wire in n.raw.Keys - todo && wire !in known.value :: UnknownWire(n, wire))
        decreases todo
      {
        var wire :| wire in todo;
        ghost var before := set w | w in n.raw.Keys - todo && w !in known.value :: UnknownWire(n, w);
        ghost var after := set w | w in n.raw.Keys - (todo - {wire}) && w !in known.value :: UnknownWire(n, w);
        assert UnknownWire(n, wire) !in before;
        assert after == if wire in known.value then before else before + {UnknownWire(n, wire)};
        if wire !in known.value { unreplayable := unreplayable + [UnknownWire(n, wire)]; }
        todo := todo - {wire};
      }
      assert n.raw.Keys - {} == n.raw.Keys;
      assert (set wire | wire in n.raw.Keys - todo && wire !in known.value :: UnknownWire(n, wire)) ==
             (set wire | wire in n.raw && wire !in known.value :: UnknownWire(n, wire));
    }

    ghost function Output(): Progress
      reads this
    {
      Progress(lines, names, multiset(unreplayable))
    }

    method EmitNode(n: View, parent: string)
      modifies this
      ensures Appends(old(Output()), NodeCode(lang, n, parent, old(names)), Refusals(lang, Objects([n])), Output())
      decreases n, 0
    {
      ghost var start := Output();
      hide RefusalsOf, Refusals, Objects, HeadCode, VarOf, AllCode, NodeCode, Appends, DoorOf, CallsOf;
      CheckReplayable(n);
      if n.children == [] {
        LeafAppends(lang, n, parent, start);
        lines := lines + [Make(None, parent, DoorOf(lang, n), CallsOf(n.refs), n.raw)];
      } else {
        var v := VarFor(n);
        lines := lines + HeadCode(lang, n, parent, v);
        ghost var mid := Output();
        EmitAll(n.children, v);
        BranchAppends(lang, n, parent, v, start, mid, Output());
      }
    }

    /** `emit_root`: the references of the root are not among what it emits. */
    method EmitRoot(root: View, v: string)
      requires lines == [] && names == {v} && unreplayable == []
      modifies this
      ensures lines == RootCode(lang, root, v)
      ensures multiset(unreplayable) == Refusals(lang, Objects(root.children))
    {
      hide Refusals, Objects, AllCode;
      lines := [NewDesign(v)];
      if root.attrs != map[] { lines := lines + [SetAttrs(v, root.attrs)]; }
      lines := lines + RawLines(v, root.raw);
      EmitAll(root.children, v);
    }

    method EmitAll(ns: seq<View>, parent: string)
      modifies this
      ensures Appends(old(Output()), AllCode(lang, ns, parent, old(names)), Refusals(lang, Objects(ns)), Output())
      decreases ns
    {
      hide Appends, AllCode, NodeCode, Refusals, Objects;
      assert ns[..0] == [];
      AppendsNothing(lang, parent, Output());
      for i := 0 to |ns|
        invariant Appends(old(Output()), AllCode(lang, ns[..i], parent, old(names)), Refusals(lang, Objects(ns[..i])), Output())
      {
        ghost var mid := Output();
        EmitNode(ns[i], parent);
        AppendsSnoc(lang, ns[..i], parent, old(names), ns[i], old(Output()), mid, Output());
        assert ns[..i + 1] == ns[..i] + [ns[i]];
      }
      assert ns[..|ns|] == ns;
    }
  }

  datatype CodeResult = BadVariable | Refused(found: seq<Refusal>) | Code(lines: seq<Stmt>)

  /** `to_code`: fails loudly rather than emit what the public doors refuse; `usable` judges the root variable. */
  method ToCode(lang: Lang, root: View, v: string, usable: string -> bool) returns (r: CodeResult)
    ensures r.BadVariable? <==> !usable(v)
    ensures r.Code? <==> usable(v) && forall n :: n in Objects(root.children) ==>
                           lang.wires(n.cls).Some? && forall wire :: wire in n.raw ==> wire in lang.wires(n.cls).value
    ensures r.Code? ==> r.lines == RootCode(lang, root, v)
    ensures r.Refused? ==> multiset(r.found) == Refusals(lang, Objects(root.children))
    ensures r.Refused? ==> forall x :: x in r.found <==> x.n in Objects(root.children) && Fails(lang, x)
  {
    if !usable(v) { return BadVariable; }
    var emitter := new Emitter(lang, v);
    emitter.EmitRoot(root, v);
    ghost var all := Objects(root.children);
    NothingRefused(lang, all);
    ghost var found := emitter.unreplayable;
    forall x ensures x in found <==> x.n in all && Fails(lang, x) {
      RefusalsAre(lang, all, x);
      assert x in found <==> x in multiset(found);
    }
    hide Refusals, Objects, RootCode, Fails;
    if emitter.unreplayable != [] {
      assert emitter.unreplayable[0] in multiset(emitter.unreplayable);
      return Refused(emitter.unreplayable);
    }
    return Code(emitter.lines);
  }

  datatype Progress = Progress(lines: seq<Stmt>, names: set<string>, refused: multiset<Refusal>)

  /** What emitting a piece of code does to the emitter. */
  ghost predicate Appends(before: Progress, code: Emitted, refused: multiset<Refusal>, after: Progress) {
    after.lines == before.lines + code.lines && after.names == code.names && after.refused == before.refused + refused
  }

  lemma AppendsNothing(lang: Lang, parent: string, a: Progress)
    ensures Appends(a, AllCode(lang, [], parent, a.names), Refusals(lang, Objects([])), a)
  {
  }

  lemma LeafAppends(lang: Lang, n: View, parent: string, a: Progress)
    requires n.children == []
    ensures Appends(a, NodeCode(lang, n, parent, a.names), Refusals(lang, Objects([n])),
                    Progress(a.lines + [Make(None, parent, DoorOf(lang, n), CallsOf(n.refs), n.raw)], a.names, a.refused + RefusalsOf(lang, n)))
  {
    RefusalsTree(lang, n);
    assert Refusals(lang, Objects([])) == multiset{};
    hide Refusals, RefusalsOf, Objects, DoorOf, CallsOf;
  }

  lemma BranchAppends(lang: Lang, n: View, parent: string, v: string, a: Progress, b: Progress, c: Progress)
    requires n.children != [] && v == VarOf(lang, n, a.names)
    requires b == Progress(a.lines + HeadCode(lang, n, parent, v), a.names + {v}, a.refused + RefusalsOf(lang, n))
    requires Appends(b, AllCode(lang, n.children, v, b.names), Refusals(lang, Objects(n.children)), c)
    ensures Appends(a, NodeCode(lang, n, parent, a.names), Refusals(lang, Objects([n])), c)
  {
    RefusalsTree(lang, n);
    hide Refusals, RefusalsOf, Objects, HeadCode, VarOf, AllCode;
    var below := AllCode(lang, n.children, v, b.names);
    assert NodeCode(lang, n, parent, a.names) == Emitted(HeadCode(lang, n, parent, v) + below.lines, below.names);
    assert (a.lines + HeadCode(lang, n, parent, v)) + below.lines == a.lines + (HeadCode(lang, n, parent, v) + below.lines);
  }

  lemma AppendsSnoc(lang: Lang, ns: seq<View>, parent: string, names: set<string>, n: View, a: Progress, b: Progress, c: Progress)
    requires Appends(a, AllCode(lang, ns, parent, names), Refusals(lang, Objects(ns)), b)
    requires Appends(b, NodeCode(lang, n, parent, b.names), Refusals(lang, Objects([n])), c)
    ensures Appends(a, AllCode(lang, ns + [n], parent, names), Refusals(lang, Objects(ns + [n])), c)
  {
    hide NodeCode, Refusals, Objects;
    RefusalsSnoc(lang, ns, n);
    assert (ns + [n])[..|ns|] == ns;
  }
}
