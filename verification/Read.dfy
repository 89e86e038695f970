/** Bulk reads: sharding the class list and rebuilding the tree (`_read.py`). */
module Read {
  import opened Text
  import opened Dn
  import opened Store
  import opened Rebuild

  const CLASS_LIST_BUDGET := 3500

  // ---- Sharding

  /** Length of the joined names on the wire, where a comma is percent-encoded. */
  function WireLength(run: seq<string>): nat {
    |Join(run, "%2C")|
  }

  /** A run one request can carry: within the budget, or a single name. */
  ghost predicate Fits(budget: int, run: seq<string>) {
    run != [] && (WireLength(run) <= budget || |run| == 1)
  }

  ghost predicate Splits(budget: int, runs: seq<seq<string>>, names: seq<string>) {
    Concat(runs) == names && forall i :: 0 <= i < |runs| ==> Fits(budget, runs[i])
  }

  ghost predicate CannotGrow(budget: int, run: seq<string>, next: seq<string>) {
    next != [] && !Fits(budget, run + [next[0]])
  }

  /** No run could also have carried the first name of the next one. */
  ghost predicate Maximal(budget: int, runs: seq<seq<string>>) {
    forall i, j :: 0 <= i && j == i + 1 && j < |runs| ==> CannotGrow(budget, runs[i], runs[j])
  }

  function JoinEach(runs: seq<seq<string>>): seq<string> {
    seq(|runs|, i requires 0 <= i < |runs| => Join(runs[i], ","))
  }

  lemma WireLengthSnoc(run: seq<string>, name: string)
    ensures WireLength(run + [name]) == if run == [] then |name| else WireLength(run) + 3 + |name|
  {
    if run == [] {
      assert run + [name] == [name];
    } else {
      JoinConcat(run, [name], "%2C");
    }
  }

  /** A run is no longer than one that contains it. */
  lemma WireLengthWithin(a: seq<string>, b: seq<string>, c: seq<string>)
    requires b != []
    ensures WireLength(b) <= WireLength(a + b + c)
  {
    if a != [] { JoinConcat(a, b, "%2C"); } else { assert a + b == b; }
    if c != [] { JoinConcat(a + b, c, "%2C"); } else { assert a + b + c == a + b; }
  }

  lemma {:induction false} ConcatSnoc(runs: seq<seq<string>>, run: seq<string>)
    ensures Concat(runs + [run]) == Concat(runs) + run
  {
    if runs == [] {
      assert runs + [run] == [run];
    } else {
      ConcatSnoc(runs[1..], run);
      assert (runs + [run])[1..] == runs[1..] + [run];
    }
  }

  /**
   * Greedy stays ahead: a maximal split of the end of a list uses no more runs than any split of the
   * whole list.
   */
  lemma {:induction false} GreedyStaysAhead(budget: int, runs: seq<seq<string>>, skipped: seq<string>, names: seq<string>, other: seq<seq<string>>)
    requires Splits(budget, runs, names) && Maximal(budget, runs) && Splits(budget, other, skipped + names)
    ensures |runs| <= |other|
    decreases |other|
  {
    if runs != [] {
      assert Fits(budget, runs[0]);
      assert names == runs[0] + Concat(runs[1..]);
      assert other != [];
      var rest := Concat(runs[1..]);
      var after := Concat(other[1..]);
      assert skipped + runs[0] + rest == other[0] + after by { assert skipped + names == (skipped + runs[0]) + rest; }
      EndsNoEarlier(budget, runs, skipped, other[0], after);
      var k := |after| - |rest|;
      assert after == after[..k] + rest by { SuffixOf(skipped + runs[0], rest, other[0], after); }
      assert Splits(budget, runs[1..], rest) && Splits(budget, other[1..], after);
      assert Maximal(budget, runs[1..]) by { MaximalTail(budget, runs); }
      GreedyStaysAhead(budget, runs[1..], after[..k], rest, other[1..]);
    }
  }

  lemma MaximalTail(budget: int, runs: seq<seq<string>>)
    requires runs != [] && Maximal(budget, runs)
    ensures Maximal(budget, runs[1..])
  {
    var tail := runs[1..];
    assert forall i :: 0 <= i < |tail| ==> tail[i] == runs[i + 1];
  }

  lemma SuffixOf(a: seq<string>, b: seq<string>, c: seq<string>, d: seq<string>)
    requires a + b == c + d && |b| <= |d|
    ensures d == d[..|d| - |b|] + b
  {
    assert d == (c + d)[|c|..];
    assert b == (a + b)[|a|..];
  }

  /** The greedy run ends no earlier than the run it is compared with. */
  lemma EndsNoEarlier(budget: int, runs: seq<seq<string>>, skipped: seq<string>, first: seq<string>, after: seq<string>)
    requires runs != [] && Maximal(budget, runs) && Fits(budget, runs[0]) && Fits(budget, first)
    requires skipped + runs[0] + Concat(runs[1..]) == first + after
    ensures |Concat(runs[1..])| <= |after|
  {
    var rest := Concat(runs[1..]);
    if |rest| > |after| {
      var next := runs[1][0];
      assert rest == runs[1] + Concat(runs[2..]) by { assert runs[1..][1..] == runs[2..]; }
      assert CannotGrow(budget, runs[0], runs[1]);
      var tooLong := runs[0] + [next];
      var all := skipped + runs[0] + rest;
      var n := |skipped| + |tooLong|;
      assert first == all[..|first|];
      assert all[..n] == skipped + tooLong;
      assert first == skipped + tooLong + first[n..];
      WireLengthWithin(skipped, tooLong, first[n..]);
    }
  }

  lemma SplitsSomething(budget: int, runs: seq<seq<string>>, names: seq<string>)
    requires Splits(budget, runs, names) && runs != []
    ensures names != []
  {
    assert Fits(budget, runs[0]);
  }

  lemma Optimal(budget: int, runs: seq<seq<string>>, names: seq<string>, other: seq<seq<string>>)
    requires Splits(budget, runs, names) && Maximal(budget, runs) && Splits(budget, other, names)
    ensures |runs| <= |other|
  {
    assert [] + names == names;
    GreedyStaysAhead(budget, runs, [], names, other);
  }

  /** The state of the loop: the runs shipped so far and the one being filled. */
  ghost function WithCurrent(runs: seq<seq<string>>, current: seq<string>): seq<seq<string>> {
    if current == [] then runs else runs + [current]
  }

  ghost predicate Filling(budget: int, runs: seq<seq<string>>, current: seq<string>, seen: seq<string>) {
    && Splits(budget, WithCurrent(runs, current), seen) && Maximal(budget, WithCurrent(runs, current))
    && (current == [] ==> seen == [])
  }

  lemma FillCurrent(budget: int, runs: seq<seq<string>>, current: seq<string>, seen: seq<string>, name: string)
    requires Filling(budget, runs, current, seen) && (current == [] || WireLength(current + [name]) <= budget)
    ensures Filling(budget, runs, current + [name], seen + [name])
  {
    ConcatSnoc(runs, current);
    ConcatSnoc(runs, current + [name]);
    if current == [] {
      if runs != [] { SplitsSomething(budget, runs, seen); }
    } else {
      var was, now := runs + [current], runs + [current + [name]];
      assert Concat(runs) + (current + [name]) == (Concat(runs) + current) + [name];
      forall i | 0 <= i < |now| ensures Fits(budget, now[i]) { if i < |runs| { assert Fits(budget, was[i]); } }
      forall i, j | 0 <= i && j == i + 1 && j < |now| ensures CannotGrow(budget, now[i], now[j]) {
        assert CannotGrow(budget, was[i], was[j]) && was[i] == now[i] && was[j][0] == now[j][0];
      }
    }
  }

  lemma ShipCurrent(budget: int, runs: seq<seq<string>>, current: seq<string>, seen: seq<string>, name: string)
    requires Filling(budget, runs, current, seen) && current != [] && WireLength(current + [name]) > budget
    ensures Filling(budget, runs + [current], [name], seen + [name])
  {
    ConcatSnoc(runs + [current], [name]);
    var was, now := runs + [current], runs + [current] + [[name]];
    forall i | 0 <= i < |now| ensures Fits(budget, now[i]) { if i < |was| { assert Fits(budget, was[i]); } }
    forall i, j | 0 <= i && j == i + 1 && j < |now| ensures CannotGrow(budget, now[i], now[j]) {
      if j < |was| { assert CannotGrow(budget, was[i], was[j]); }
    }
  }

  lemma NothingFilled(budget: int)
    ensures Filling(budget, [], [], []) && WireLength([]) == 0 && JoinEach([]) == []
  {
  }

  lemma JoinEachSnoc(runs: seq<seq<string>>, run: seq<string>)
    ensures JoinEach(runs + [run]) == JoinEach(runs) + [Join(run, ",")]
  {
  }

  lemma AllFilled(budget: int, runs: seq<seq<string>>, current: seq<string>, names: seq<string>)
    requires Filling(budget, runs, current, names)
    ensures var all := if current == [] then runs else runs + [current];
            Splits(budget, all, names) && forall other :: Splits(budget, other, names) ==> |all| <= |other|
  {
    var all := WithCurrent(runs, current);
    forall other | Splits(budget, other, names) ensures |all| <= |other| {
      Optimal(budget, all, names, other);
    }
  }

  /**
   * `shard_classes`: the sorted distinct names in consecutive shards that each fit, as few as any
   * such split allows.
   */
  method ShardClasses(classes: seq<string>, budget: Option<int>) returns (shards: seq<string>, ghost runs: seq<seq<string>>)
    ensures shards == JoinEach(runs)
    ensures var limit := if budget.Some? then budget.value else CLASS_LIST_BUDGET;
            && Splits(limit, runs, SortedNames(classes))
            && forall other :: Splits(limit, other, SortedNames(classes)) ==> |runs| <= |other|
  {
    hide *;
    var limit := if budget.Some? then budget.value else CLASS_LIST_BUDGET;
    var names := SortedNames(classes);
    var current: seq<string>, size: nat := [], 0;
    shards, runs := [], [];
    NothingFilled(limit);
    for i := 0 to |names|
      invariant shards == JoinEach(runs)
      invariant size == WireLength(current)
      invariant Filling(limit, runs, current, names[..i])
    {
      var name := names[i];
      assert names[..i + 1] == names[..i] + [name];
      assert [] + [name] == [name];
      WireLengthSnoc(current, name);
      WireLengthSnoc([], name);
      var extra := |name| + (if current != [] then 3 else 0);
      if current != [] && size + extra > limit {
        ShipCurrent(limit, runs, current, names[..i], name);
        JoinEachSnoc(runs, current);
        shards, runs := shards + [Join(current, ",")], runs + [current];
        current, size := [name], |name|;
      } else {
        FillCurrent(limit, runs, current, names[..i], name);
        current, size := current + [name], size + extra;
      }
    }
    assert names[..|names|] == names;
    AllFilled(limit, runs, current, names);
    if current != [] {
      JoinEachSnoc(runs, current);
      shards, runs := shards + [Join(current, ",")], runs + [current];
    }
  }

  // ---- Rebuilding the tree in place

  /** One managed object; `children` is appended to while the tree is attached. */
  class Mo {
    const dn: string
    const cls: string
    const attrs: map<string, string>
    var children: seq<Mo>

    constructor (w: Write)
      ensures dn == w.dn && cls == w.cls && attrs == w.attrs && children == []
    {
      dn, cls, attrs, children := w.dn, w.cls, w.attrs, [];
    }
  }

  type Mos = map<string, Mo>

  function Pick(mos: Mos, keys: seq<string>): (r: seq<Mo>)
    requires forall k :: k in keys ==> k in mos
    ensures |r| == |keys| && forall i :: 0 <= i < |r| ==> r[i] == mos[keys[i]]
  {
    seq(|keys|, i requires 0 <= i < |keys| => mos[keys[i]])
  }

  ghost predicate Holds(mos: Mos, nodes: Objects) {
    && mos.Keys == nodes.Keys
    && forall d :: d in mos ==> mos[d].dn == d && Obj(mos[d].cls, mos[d].attrs) == nodes[d]
  }

  /** Every object has been given the children attached to it among `done`. */
  ghost predicate Attached(mos: Mos, done: seq<string>, root: string)
    requires forall k :: k in done ==> k in mos
    reads mos.Values
  {
    forall d :: d in mos ==> mos[d].children == Pick(mos, Kids(done, root, d))
  }

  /** The heap tree under `m` reads as `t`. */
  ghost predicate Shows(m: Mo, t: Env, within: set<Mo>)
    reads within
    decreases t
  {
    && m in within && m.cls == t.cls && RnOf(m.dn) == t.rn && m.attrs == t.attrs
    && |m.children| == |t.children|
    && forall i :: 0 <= i < |t.children| ==> Shows(m.children[i], t.children[i], within)
  }

  lemma {:induction false} AttachedShows(mos: Mos, nodes: Objects, keys: seq<string>, root: string, dn: string)
    requires Holds(mos, nodes) && Dict(nodes, keys) && dn in nodes && Attached(mos, keys, root)
    ensures Shows(mos[dn], TreeOf(nodes, keys, root, dn), mos.Values)
    decreases Longest(keys) - |dn|
  {
    var t := TreeOf(nodes, keys, root, dn);
    var kids := Kids(keys, root, dn);
    KidTrees(nodes, keys, root, dn);
    assert mos[dn].children == Pick(mos, kids);
    hide TreeOf, Kids, Longest, Dict;
    forall i | 0 <= i < |kids| ensures Shows(mos[dn].children[i], t.children[i], mos.Values) {
      AttachedShows(mos, nodes, keys, root, kids[i]);
    }
  }

  datatype ReadTree = NoDn | NoRoot | Read(root: Mo)

  /** The dictionary after reading `items`. */
  ghost predicate Built(mos: Mos, order: seq<string>, items: seq<Write>) {
    AllNamed(items) && Holds(mos, NodesOf(items)) && order == KeysOf(DnsOf(items))
  }

  lemma DictSnoc(items: seq<Write>, w: Write)
    ensures NodesOf(items + [w]) == NodesOf(items)[w.dn := Obj(w.cls, w.attrs)]
    ensures KeysOf(DnsOf(items + [w])) ==
            if w.dn in KeysOf(DnsOf(items)) then KeysOf(DnsOf(items)) else KeysOf(DnsOf(items)) + [w.dn]
  {
    assert (items + [w])[..|items|] == items;
    DnsOfConcat(items, [w]);
    assert DnsOf(items + [w])[..|items|] == DnsOf(items);
  }

  lemma BuiltSnoc(mos: Mos, order: seq<string>, items: seq<Write>, w: Write, mo: Mo)
    requires Built(mos, order, items) && w.dn != ""
    requires mo.dn == w.dn && mo.cls == w.cls && mo.attrs == w.attrs
    ensures Built(mos[w.dn := mo], if w.dn in mos then order else order + [w.dn], items + [w])
  {
    DictSnoc(items, w);
    KeysAreNodes(items);
    hide NodesOf, KeysOf, DnsOf;
  }

  lemma KeysAreNodes(items: seq<Write>)
    ensures forall d :: d in KeysOf(DnsOf(items)) <==> d in NodesOf(items)
  {
  }

  lemma Unnamed(items: seq<Write>, i: nat)
    requires i < |items| && items[i].dn == ""
    ensures !AllNamed(items)
  {
    assert items[i] in items;
  }

  /** The dictionary of fresh objects, in order of first appearance; false when an item has no DN. */
  method Deserialise(items: seq<Write>) returns (ok: bool, mos: Mos, order: seq<string>)
    ensures ok <==> AllNamed(items)
    ensures ok ==> Holds(mos, NodesOf(items)) && order == KeysOf(DnsOf(items))
    ensures ok ==> forall d :: d in mos ==> fresh(mos[d]) && mos[d].children == []
  {
    mos, order := map[], [];
    for i := 0 to |items|
      invariant Built(mos, order, items[..i])
      invariant forall d :: d in mos ==> fresh(mos[d]) && mos[d].children == []
    {
      hide Built, AllNamed;
      var w := items[i];
      if w.dn == "" { Unnamed(items, i); return false, map[], []; }
      assert items[..i + 1] == items[..i] + [w];
      var mo := new Mo(w);
      BuiltSnoc(mos, order, items[..i], w, mo);
      if w.dn !in mos { order := order + [w.dn]; }
      mos := mos[w.dn := mo];
    }
    assert items[..|items|] == items;
    ok := true;
  }

  lemma KidsSnoc(done: seq<string>, dn: string, root: string, p: string)
    ensures Kids(done + [dn], root, p) == if AttachedTo(root, p, dn) then Kids(done, root, p) + [dn] else Kids(done, root, p)
  {
    assert (done + [dn])[..|done|] == done;
  }

  /** Appends one object to the children of its parent, when that was read. */
  method AttachOne(mos: Mos, ghost done: seq<string>, dn: string, root: string)
    requires dn in mos && (forall k :: k in done ==> k in mos) && (forall d :: d in mos ==> mos[d].dn == d)
    requires Attached(mos, done, root)
    modifies mos.Values
    ensures Attached(mos, done + [dn], root)
  {
    var parent := ParentDn(dn);
    if dn != root && parent.Some? && parent.value in mos {
      var p := mos[parent.value];
      p.children := p.children + [mos[dn]];
    }
    forall d | d in mos ensures mos[d].children == Pick(mos, Kids(done + [dn], root, d)) {
      KidsSnoc(done, dn, root, d);
      assert old(mos[d].children) == Pick(mos, Kids(done, root, d));
    }
  }

  method AttachAll(mos: Mos, order: seq<string>, root: string)
    requires (forall k :: k in order ==> k in mos) && (forall d :: d in mos ==> mos[d].dn == d && mos[d].children == [])
    modifies mos.Values
    ensures Attached(mos, order, root)
  {
    for j := 0 to |order|
      invariant Attached(mos, order[..j], root)
    {
      hide Attached;
      assert order[..j + 1] == order[..j] + [order[j]];
      AttachOne(mos, order[..j], order[j], root);
    }
    assert order[..|order|] == order;
  }

  /** `build_tree`: attaches every object to its parent when the parent was read too. */
  method BuildTree(items: seq<Write>, rootDn: string) returns (r: ReadTree, ghost within: set<Mo>)
    ensures r.NoDn? <==> !AllNamed(items)
    ensures !r.NoDn? ==> (r.NoRoot? <==> Rebuilt(items, rootDn).None?)
    ensures r.Read? ==> fresh(within) && Shows(r.root, Rebuilt(items, rootDn).value, within)
  {
    within := {};
    var ok, mos, order := Deserialise(items);
    if !ok { return NoDn, {}; }
    ReadIsDict(items);
    KeysAreNodes(items);
    hide NodesOf, KeysOf, DnsOf, Attached;
    if rootDn !in mos { return NoRoot, {}; }
    AttachAll(mos, order, rootDn);
    AttachedShows(mos, NodesOf(items), order, rootDn, rootDn);
    r, within := Read(mos[rootDn]), mos.Values;
  }
}
