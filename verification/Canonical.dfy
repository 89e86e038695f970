/** Child order: sorting a tree by class and RN, and pruning it (`snapshot.py`, `_assemble`). */
module Canonical {
  import opened Text
  import opened Dn
  import opened Store
  import opened Rebuild

  /** The sort key `(class, rn)`. */
  predicate KeyLe(a: Env, b: Env) {
    if a.cls == b.cls then LexLe(a.rn, b.rn) else LexLe(a.cls, b.cls)
  }

  predicate SameKey(a: Env, b: Env) {
    a.cls == b.cls && a.rn == b.rn
  }

  lemma KeyTotal(a: Env, b: Env)
    ensures KeyLe(a, b) || KeyLe(b, a)
    ensures KeyLe(a, b) && KeyLe(b, a) ==> SameKey(a, b)
  {
    LexTotal(a.cls, b.cls);
    LexTotal(a.rn, b.rn);
  }

  lemma KeyTransitive(a: Env, b: Env, c: Env)
    requires KeyLe(a, b) && KeyLe(b, c)
    ensures KeyLe(a, c)
  {
    if a.cls == b.cls == c.cls {
      LexTransitive(a.rn, b.rn, c.rn);
    } else {
      if a.cls != b.cls && b.cls != c.cls { LexTransitive(a.cls, b.cls, c.cls); }
      LexTotal(a.cls, b.cls);
      LexTotal(b.cls, c.cls);
    }
  }

  ghost predicate Ordered(ts: seq<Env>) {
    forall i, j :: 0 <= i < j < |ts| ==> KeyLe(ts[i], ts[j])
  }

  ghost predicate DistinctKeys(ts: seq<Env>) {
    forall i, j :: 0 <= i < j < |ts| ==> !SameKey(ts[i], ts[j])
  }

  /** Inserts before the first key that is not smaller: a stable sort. */
  function InsertTree(t: Env, ts: seq<Env>): (r: seq<Env>)
    ensures forall x :: x in r <==> x == t || x in ts
    ensures |r| == |ts| + 1
  {
    if ts == [] || KeyLe(t, ts[0]) then [t] + ts
    else
      var rest := InsertTree(t, ts[1..]);
      assert forall x :: x in ts <==> x == ts[0] || x in ts[1..];
      [ts[0]] + rest
  }

  lemma {:induction false} InsertOrdered(t: Env, ts: seq<Env>)
    requires Ordered(ts)
    ensures Ordered(InsertTree(t, ts))
  {
    if ts != [] {
      KeyTotal(t, ts[0]);
      if KeyLe(t, ts[0]) {
        forall i | 0 <= i < |ts| ensures KeyLe(t, ts[i]) { if i > 0 { KeyTransitive(t, ts[0], ts[i]); } }
      } else {
        InsertOrdered(t, ts[1..]);
        var rest := InsertTree(t, ts[1..]);
        forall i | 0 <= i < |rest| ensures KeyLe(ts[0], rest[i]) {
          assert rest[i] in rest;
          if rest[i] != t { var j :| 0 <= j < |ts[1..]| && ts[1..][j] == rest[i]; assert ts[j + 1] == rest[i]; }
        }
      }
    }
  }

  function SortTree(t: Env): (r: Env)
    ensures SameKey(r, t) && r.attrs == t.attrs
    decreases t, 0
  {
    Env(t.cls, t.rn, t.attrs, SortForest(t.children))
  }

  function SortForest(ts: seq<Env>): seq<Env>
    decreases ts
  {
    if ts == [] then [] else InsertTree(SortTree(ts[0]), SortForest(ts[1..]))
  }

  lemma {:induction false} SortForestOrdered(ts: seq<Env>)
    ensures Ordered(SortForest(ts)) && |SortForest(ts)| == |ts|
    ensures forall x :: x in SortForest(ts) <==> exists i :: 0 <= i < |ts| && x == SortTree(ts[i])
  {
    if ts != [] {
      hide SortTree;
      SortForestOrdered(ts[1..]);
      InsertOrdered(SortTree(ts[0]), SortForest(ts[1..]));
      forall x ensures x in SortForest(ts) <==> exists i :: 0 <= i < |ts| && x == SortTree(ts[i]) {
        if i :| 0 <= i < |ts| && x == SortTree(ts[i]) {
          if i > 0 { assert x == SortTree(ts[1..][i - 1]); }
        }
        if x in SortForest(ts[1..]) {
          var i :| 0 <= i < |ts| - 1 && x == SortTree(ts[1..][i]);
          assert x == SortTree(ts[i + 1]);
        }
      }
    }
  }

  /** Ordered lists with distinct keys and the same members are equal. */
  lemma {:induction false} OrderedUnique(a: seq<Env>, b: seq<Env>)
    requires Ordered(a) && Ordered(b) && DistinctKeys(a) && DistinctKeys(b)
    requires forall x :: x in a <==> x in b
    ensures a == b
  {
    if a != [] { FirstMember(a); }
    if b != [] { FirstMember(b); }
    if a != [] && b != [] {
      var i :| 0 <= i < |b| && b[i] == a[0];
      var j :| 0 <= j < |a| && a[j] == b[0];
      KeyTotal(a[0], b[0]);
      assert a[0] == b[0];
      TailMembers(a);
      TailMembers(b);
      OrderedUnique(a[1..], b[1..]);
      assert a == [a[0]] + a[1..] && b == [b[0]] + b[1..];
    }
  }

  lemma FirstMember(a: seq<Env>)
    requires a != []
    ensures a[0] in a
  {
  }

  lemma TailMembers(a: seq<Env>)
    requires a != [] && DistinctKeys(a)
    ensures forall x :: x in a[1..] <==> x in a && x != a[0]
  {
    assert a == [a[0]] + a[1..];
    forall x | x in a[1..] ensures x != a[0] {
      var i :| 0 <= i < |a| - 1 && a[1..][i] == x;
      assert a[i + 1] == x;
    }
  }

  // ---- The order in which items arrive does not matter

  /** Siblings have distinct sort keys: same parent and same RN is the same DN. */
  lemma SiblingKeysDistinct(nodes: Objects, keys: seq<string>, root: string, dn: string)
    requires Dict(nodes, keys) && dn in nodes
    ensures DistinctKeys(TreeOf(nodes, keys, root, dn).children)
  {
    KidTrees(nodes, keys, root, dn);
  }

  lemma {:induction false} SortKeepsDistinct(ts: seq<Env>)
    requires DistinctKeys(ts)
    ensures DistinctKeys(SortForest(ts))
  {
    if ts != [] {
      SortKeepsDistinct(ts[1..]);
      SortForestOrdered(ts[1..]);
      hide SortTree;
      var first, rest := SortTree(ts[0]), SortForest(ts[1..]);
      forall i | 0 <= i < |rest| ensures !SameKey(first, rest[i]) {
        assert rest[i] in rest;
        var j :| 0 <= j < |ts| - 1 && rest[i] == SortTree(ts[1..][j]);
        assert ts[1..][j] == ts[j + 1];
      }
      InsertDistinct(first, rest);
    }
  }

  lemma {:induction false} InsertDistinct(t: Env, ts: seq<Env>)
    requires DistinctKeys(ts) && forall i :: 0 <= i < |ts| ==> !SameKey(t, ts[i])
    ensures DistinctKeys(InsertTree(t, ts))
  {
    if ts != [] && !KeyLe(t, ts[0]) {
      InsertDistinct(t, ts[1..]);
      var rest := InsertTree(t, ts[1..]);
      forall i | 0 <= i < |rest| ensures !SameKey(ts[0], rest[i]) {
        assert rest[i] in rest;
        if rest[i] != t { var j :| 0 <= j < |ts| - 1 && ts[1..][j] == rest[i]; assert ts[j + 1] == rest[i]; }
      }
    }
  }

  /** Every tree of `ts` is, up to child order, one of `ts2`. */
  ghost predicate Matched(ts: seq<Env>, ts2: seq<Env>) {
    forall i :: 0 <= i < |ts| ==> SortTree(ts[i]) in SortForest(ts2)
  }

  lemma MatchedMember(ts: seq<Env>, ts2: seq<Env>, x: Env)
    requires Matched(ts, ts2) && x in SortForest(ts)
    ensures x in SortForest(ts2)
  {
    SortForestOrdered(ts);
    hide SortTree, SortForest;
    var i :| 0 <= i < |ts| && x == SortTree(ts[i]);
  }

  lemma MatchedForests(ts: seq<Env>, ts2: seq<Env>)
    requires Matched(ts, ts2) && Matched(ts2, ts) && DistinctKeys(ts) && DistinctKeys(ts2)
    ensures SortForest(ts) == SortForest(ts2)
  {
    hide *;
    SortKeepsDistinct(ts);
    SortKeepsDistinct(ts2);
    assert Ordered(SortForest(ts)) by { SortForestOrdered(ts); }
    assert Ordered(SortForest(ts2)) by { SortForestOrdered(ts2); }
    forall x ensures x in SortForest(ts) <==> x in SortForest(ts2) {
      if x in SortForest(ts) { MatchedMember(ts, ts2, x); }
      if x in SortForest(ts2) { MatchedMember(ts2, ts, x); }
    }
    OrderedUnique(SortForest(ts), SortForest(ts2));
  }

  /** Two dictionaries holding the same objects in different orders give the same sorted tree. */
  lemma {:induction false} OrderIrrelevant(nodes: Objects, keys: seq<string>, keys2: seq<string>, root: string, dn: string)
    requires Dict(nodes, keys) && Dict(nodes, keys2) && dn in nodes
    ensures SortTree(TreeOf(nodes, keys, root, dn)) == SortTree(TreeOf(nodes, keys2, root, dn))
    decreases Longest(keys) + Longest(keys2) - |dn|, 2
  {
    var t, t2 := TreeOf(nodes, keys, root, dn), TreeOf(nodes, keys2, root, dn);
    SiblingKeysDistinct(nodes, keys, root, dn);
    SiblingKeysDistinct(nodes, keys2, root, dn);
    KidsMatched(nodes, keys, keys2, root, dn);
    KidsMatched(nodes, keys2, keys, root, dn);
    hide TreeOf, DistinctKeys, Matched;
    MatchedForests(t.children, t2.children);
  }

  lemma {:induction false} KidsMatched(nodes: Objects, keys: seq<string>, keys2: seq<string>, root: string, dn: string)
    requires Dict(nodes, keys) && Dict(nodes, keys2) && dn in nodes
    ensures Matched(TreeOf(nodes, keys, root, dn).children, TreeOf(nodes, keys2, root, dn).children)
    decreases Longest(keys) + Longest(keys2) - |dn|, 1
  {
    forall i | 0 <= i < |TreeOf(nodes, keys, root, dn).children|
      ensures SortTree(TreeOf(nodes, keys, root, dn).children[i]) in SortForest(TreeOf(nodes, keys2, root, dn).children)
    {
      TwinSorted(nodes, keys, keys2, root, dn, i);
    }
  }

  lemma {:induction false} TwinSorted(nodes: Objects, keys: seq<string>, keys2: seq<string>, root: string, dn: string, i: nat)
    requires Dict(nodes, keys) && Dict(nodes, keys2) && dn in nodes && i < |TreeOf(nodes, keys, root, dn).children|
    ensures SortTree(TreeOf(nodes, keys, root, dn).children[i]) in SortForest(TreeOf(nodes, keys2, root, dn).children)
    decreases Longest(keys) + Longest(keys2) - |dn|, 0
  {
    NodesAreKeys(nodes, keys);
    NodesAreKeys(nodes, keys2);
    hide *;
    var kid, j := Twin(nodes, keys, keys2, root, dn, i);
    OrderIrrelevant(nodes, keys, keys2, root, kid);
    SortForestOrdered(TreeOf(nodes, keys2, root, dn).children);
  }

  /** The i-th child is in the other children list too. */
  lemma Twin(nodes: Objects, keys: seq<string>, keys2: seq<string>, root: string, dn: string, i: nat) returns (kid: string, j: nat)
    requires Dict(nodes, keys) && Dict(nodes, keys2) && dn in nodes && i < |TreeOf(nodes, keys, root, dn).children|
    ensures kid in nodes && |dn| < |kid| <= Longest(keys) && |kid| <= Longest(keys2)
    ensures j < |TreeOf(nodes, keys2, root, dn).children|
    ensures TreeOf(nodes, keys, root, dn).children[i] == TreeOf(nodes, keys, root, kid)
    ensures TreeOf(nodes, keys2, root, dn).children[j] == TreeOf(nodes, keys2, root, kid)
  {
    hide TreeOf;
    KidTrees(nodes, keys, root, dn);
    KidTrees(nodes, keys2, root, dn);
    kid := Kids(keys, root, dn)[i];
    assert kid in Kids(keys, root, dn) && kid in Kids(keys2, root, dn);
    j :| 0 <= j < |Kids(keys2, root, dn)| && Kids(keys2, root, dn)[j] == kid;
  }

  /** Both reads returned the same objects, each DN with one body; order, repeats and pages aside. */
  ghost predicate SameRead(a: seq<Write>, b: seq<Write>) {
    && (forall w :: w in a <==> w in b)
    && (forall v, w :: v in a && w in a && v.dn == w.dn ==> v == w)
  }

  lemma {:induction false} ConsistentNodes(items: seq<Write>)
    requires forall v, w :: v in items && w in items && v.dn == w.dn ==> v == w
    ensures forall dn :: dn in NodesOf(items) ==>
              Write(dn, NodesOf(items)[dn].cls, NodesOf(items)[dn].attrs) in items
  {
    if items != [] {
      var n := |items| - 1;
      assert items == items[..n] + [items[n]];
      ConsistentNodes(items[..n]);
    }
  }

  lemma DnsWithin(a: seq<Write>, b: seq<Write>, dn: string)
    requires (forall w :: w in a ==> w in b) && dn in DnsOf(a)
    ensures dn in DnsOf(b)
  {
    var i :| 0 <= i < |a| && a[i].dn == dn;
    assert a[i] in b;
    var j :| 0 <= j < |b| && b[j] == a[i];
    assert DnsOf(b)[j] == dn;
  }

  lemma SameReadSameNodes(a: seq<Write>, b: seq<Write>)
    requires SameRead(a, b)
    ensures NodesOf(a) == NodesOf(b)
    ensures forall dn :: dn in DnsOf(a) <==> dn in DnsOf(b)
  {
    hide NodesOf, DnsOf;
    ConsistentNodes(a);
    ConsistentNodes(b);
    forall dn ensures dn in DnsOf(a) <==> dn in DnsOf(b) {
      if dn in DnsOf(a) { DnsWithin(a, b, dn); }
      if dn in DnsOf(b) { DnsWithin(b, a, dn); }
    }
    assert forall dn :: dn in NodesOf(a) ==> NodesOf(a)[dn] == NodesOf(b)[dn];
  }

  /** Whatever the sharding, the paging and the order of the answers, one tree up to child order. */
  lemma ReadOrderIrrelevant(a: seq<Write>, b: seq<Write>, root: string)
    requires AllNamed(a) && SameRead(a, b)
    ensures Rebuilt(a, root).None? <==> Rebuilt(b, root).None?
    ensures Rebuilt(a, root).Some? ==> SortTree(Rebuilt(a, root).value) == SortTree(Rebuilt(b, root).value)
  {
    SameReadSameNodes(a, b);
    ReadIsDict(a);
    ReadIsDict(b);
    if root in NodesOf(a) {
      OrderIrrelevant(NodesOf(a), KeysOf(DnsOf(a)), KeysOf(DnsOf(b)), root, root);
    }
  }

  // ---- Pruning

  /** Keeps a child that is exportable or shelters a kept one; the top of the tree always stays. */
  function Prune(keep: set<string>, t: Env): (r: Env)
    ensures SameKey(r, t) && r.attrs == t.attrs
    decreases t, 0
  {
    Env(t.cls, t.rn, t.attrs, PruneAll(keep, t.children))
  }

  function PruneAll(keep: set<string>, ts: seq<Env>): seq<Env>
    decreases ts
  {
    if ts == [] then [] else Survivor(keep, Prune(keep, ts[0])) + PruneAll(keep, ts[1..])
  }

  /** A pruned child stays when its class is kept or a child of it stayed. */
  function Survivor(keep: set<string>, pruned: Env): seq<Env> {
    if pruned.cls in keep || pruned.children != [] then [pruned] else []
  }

  lemma PruneStep(keep: set<string>, t: Env, ts: seq<Env>)
    ensures PruneAll(keep, [t] + ts) ==
            if Survivor(keep, Prune(keep, t)) == [] then PruneAll(keep, ts) else [Prune(keep, t)] + PruneAll(keep, ts)
  {
    assert ([t] + ts)[1..] == ts;
    assert [] + PruneAll(keep, ts) == PruneAll(keep, ts);
  }

  lemma {:induction false} PruneInsert(keep: set<string>, t: Env, ts: seq<Env>)
    requires Ordered(ts)
    ensures PruneAll(keep, InsertTree(t, ts)) ==
            (if Survivor(keep, Prune(keep, t)) == [] then PruneAll(keep, ts) else InsertTree(Prune(keep, t), PruneAll(keep, ts)))
  {
    hide Prune, PruneAll, Survivor;
    if ts == [] || KeyLe(t, ts[0]) {
      PruneStep(keep, t, ts);
      forall i | 0 <= i < |ts| ensures KeyLe(t, ts[i]) { if i > 0 { KeyTransitive(t, ts[0], ts[i]); } }
      PrunedStillFirst(keep, t, ts);
    } else {
      var rest := ts[1..];
      assert ts == [ts[0]] + rest;
      PruneStep(keep, ts[0], rest);
      PruneStep(keep, ts[0], InsertTree(t, rest));
      PruneInsert(keep, t, rest);
      InsertAfter(Prune(keep, t), Prune(keep, ts[0]), PruneAll(keep, rest));
    }
  }

  lemma InsertAfter(t: Env, first: Env, rest: seq<Env>)
    requires !KeyLe(t, first)
    ensures InsertTree(t, [first] + rest) == [first] + InsertTree(t, rest)
  {
    assert ([first] + rest)[1..] == rest;
  }

  lemma {:induction false} PrunedStillFirst(keep: set<string>, t: Env, ts: seq<Env>)
    requires forall i :: 0 <= i < |ts| ==> KeyLe(t, ts[i])
    ensures InsertTree(Prune(keep, t), PruneAll(keep, ts)) == [Prune(keep, t)] + PruneAll(keep, ts)
  {
    if ts == [] {
    } else {
      hide Prune, PruneAll;
      PrunedStillFirst(keep, t, ts[1..]);
      assert ts == [ts[0]] + ts[1..];
      PruneStep(keep, ts[0], ts[1..]);
      assert KeyLe(Prune(keep, t), Prune(keep, ts[0]));
    }
  }

  /** Pruning before sorting or after it is the same. */
  lemma {:induction false} PruneThenSort(keep: set<string>, t: Env)
    ensures SortTree(Prune(keep, t)) == Prune(keep, SortTree(t))
    decreases t, 0
  {
    PruneThenSortAll(keep, t.children);
  }

  lemma {:induction false} PruneThenSortAll(keep: set<string>, ts: seq<Env>)
    ensures SortForest(PruneAll(keep, ts)) == PruneAll(keep, SortForest(ts))
    decreases ts
  {
    if ts == [] {
    } else {
      var first, rest := ts[0], ts[1..];
      var pruned := Prune(keep, first);
      PruneThenSort(keep, first);
      PruneThenSortAll(keep, rest);
      SortForestOrdered(rest);
      PruneInsert(keep, SortTree(first), SortForest(rest));
      assert SortForest(ts) == InsertTree(SortTree(first), SortForest(rest));
      assert ts == [first] + rest;
      PruneStep(keep, first, rest);
      SortKeepsSurvivor(keep, pruned);
      if Survivor(keep, pruned) != [] { SortStep(pruned, PruneAll(keep, rest)); }
    }
  }

  lemma SortStep(t: Env, ts: seq<Env>)
    ensures SortForest([t] + ts) == InsertTree(SortTree(t), SortForest(ts))
  {
    assert ([t] + ts)[1..] == ts;
  }

  lemma SortKeepsSurvivor(keep: set<string>, t: Env)
    ensures Survivor(keep, t) == [] <==> Survivor(keep, SortTree(t)) == []
  {
    SortForestOrdered(t.children);
  }
}
