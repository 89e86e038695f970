/** Attaching, pruning, sorting and accounting a capture in place (`snapshot.py`, `_assemble`). */
module Assemble {
  import opened Text
  import opened Dn
  import opened Store
  import opened Rebuild
  import opened Canonical
  import opened Snapshot
  import R = Read

  type Mo = R.Mo
  type Mos = R.Mos

  /** What was read, and what is kept of it: fixed while the children lists change. */
  datatype Reading = Reading(nodes: Objects, keys: seq<string>, root: string, keep: set<string>)

  ghost predicate Ok(x: Reading) { Dict(x.nodes, x.keys) }

  // ---- The lists the passes leave

  function Kept(x: Reading, dn: string): bool
    requires Ok(x) && dn in x.nodes
  {
    Survivor(x.keep, Prune(x.keep, TreeOf(x.nodes, x.keys, x.root, dn))) != []
  }

  /** The DNs of `dns` whose object `_prune` keeps. */
  function KeptOf(x: Reading, dns: seq<string>): (r: seq<string>)
    requires Ok(x) && forall d :: d in dns ==> d in x.nodes
    ensures forall d :: d in r <==> d in dns && Kept(x, d)
  {
    if dns == [] then []
    else
      assert dns == dns[..|dns| - 1] + [dns[|dns| - 1]];
      KeptOf(x, dns[..|dns| - 1]) + if Kept(x, dns[|dns| - 1]) then [dns[|dns| - 1]] else []
  }

  lemma {:induction false} KeptOfKept(x: Reading, dns: seq<string>)
    requires Ok(x) && forall d :: d in dns ==> d in x.nodes && Kept(x, d)
    ensures KeptOf(x, dns) == dns
  {
    if dns != [] {
      KeptOfKept(x, dns[..|dns| - 1]);
      assert dns == dns[..|dns| - 1] + [dns[|dns| - 1]];
    }
  }

  lemma KeptOfSnoc(x: Reading, dns: seq<string>, i: nat)
    requires Ok(x) && (forall d :: d in dns ==> d in x.nodes) && i < |dns|
    ensures KeptOf(x, dns[..i + 1]) == KeptOf(x, dns[..i]) + if Kept(x, dns[i]) then [dns[i]] else []
  {
    assert dns[..i + 1][..i] == dns[..i];
  }

  function KidsOf(x: Reading, dn: string): (r: seq<string>)
    requires Ok(x)
    ensures forall k :: k in r ==> k in x.nodes && |dn| < |k| <= Longest(x.keys)
  {
    var r := Kids(x.keys, x.root, dn);
    NodesAreKeys(x.nodes, x.keys);
    assert forall k :: k in r ==> |dn| < |k| by {
      forall k | k in r ensures |dn| < |k| { AttachedLonger(x.root, dn, k); }
    }
    r
  }

  predicate DnLe(x: Reading, a: string, b: string)
    requires a in x.nodes && b in x.nodes
  {
    if x.nodes[a].cls == x.nodes[b].cls then LexLe(RnOf(a), RnOf(b)) else LexLe(x.nodes[a].cls, x.nodes[b].cls)
  }

  function InsertDn(x: Reading, d: string, dns: seq<string>): (r: seq<string>)
    requires d in x.nodes && forall e :: e in dns ==> e in x.nodes
    ensures forall e :: e in r <==> e == d || e in dns
  {
    if dns == [] || DnLe(x, d, dns[0]) then [d] + dns
    else
      assert forall e :: e in dns <==> e == dns[0] || e in dns[1..];
      [dns[0]] + InsertDn(x, d, dns[1..])
  }

  function SortDns(x: Reading, dns: seq<string>): (r: seq<string>)
    requires forall e :: e in dns ==> e in x.nodes
    ensures forall e :: e in r <==> e in dns
  {
    if dns == [] then []
    else
      assert forall e :: e in dns <==> e == dns[0] || e in dns[1..];
      InsertDn(x, dns[0], SortDns(x, dns[1..]))
  }

  ghost predicate InOrder(x: Reading, dns: seq<string>)
    requires forall e :: e in dns ==> e in x.nodes
  {
    forall i :: 0 <= i < |dns| - 1 ==> DnLe(x, dns[i], dns[i + 1])
  }

  lemma DnTotal(x: Reading, a: string, b: string)
    requires a in x.nodes && b in x.nodes
    ensures DnLe(x, a, b) || DnLe(x, b, a)
  {
    LexTotal(RnOf(a), RnOf(b));
    LexTotal(x.nodes[a].cls, x.nodes[b].cls);
  }

  lemma {:induction false} InsertInOrder(x: Reading, d: string, dns: seq<string>)
    requires d in x.nodes && (forall e :: e in dns ==> e in x.nodes) && InOrder(x, dns)
    ensures InOrder(x, InsertDn(x, d, dns))
  {
    if dns != [] && !DnLe(x, d, dns[0]) {
      DnTotal(x, d, dns[0]);
      assert forall i :: 0 <= i < |dns[1..]| ==> dns[1..][i] == dns[i + 1];
      InsertInOrder(x, d, dns[1..]);
      hide DnLe;
      var rest := InsertDn(x, d, dns[1..]);
      assert rest[0] == d || rest[0] == dns[1];
    }
  }

  lemma {:induction false} SortInOrder(x: Reading, dns: seq<string>)
    requires forall e :: e in dns ==> e in x.nodes
    ensures InOrder(x, SortDns(x, dns))
  {
    if dns != [] {
      SortInOrder(x, dns[1..]);
      InsertInOrder(x, dns[0], SortDns(x, dns[1..]));
    }
  }

  /** Sorting what is in order changes nothing. */
  lemma {:induction false} SortSorted(x: Reading, dns: seq<string>)
    requires (forall e :: e in dns ==> e in x.nodes) && InOrder(x, dns)
    ensures SortDns(x, dns) == dns
  {
    if dns != [] {
      var rest := dns[1..];
      assert forall i :: 0 <= i < |rest| ==> rest[i] == dns[i + 1];
      assert |dns| > 1 ==> DnLe(x, dns[0], dns[0 + 1]);
      SortSorted(x, rest);
      assert SortDns(x, dns) == InsertDn(x, dns[0], rest);
      assert dns == [dns[0]] + rest;
      hide *;
      if rest == [] { InsertAlone(x, dns[0]); } else { InsertDnCases(x, dns[0], rest); }
    }
  }

  lemma InsertAlone(x: Reading, d: string)
    requires d in x.nodes
    ensures InsertDn(x, d, []) == [d] + []
  {
  }

  lemma InsertDnCases(x: Reading, d: string, dns: seq<string>)
    requires d in x.nodes && dns != [] && forall e :: e in dns ==> e in x.nodes
    ensures (forall e :: e in dns[1..] ==> e in x.nodes)
    ensures InsertDn(x, d, dns) == if DnLe(x, d, dns[0]) then [d] + dns else [dns[0]] + InsertDn(x, d, dns[1..])
  {
  }

  // ---- What pruning and sorting do to one object

  function PrunedAt(x: Reading, dn: string): Env
    requires Ok(x) && dn in x.nodes
  {
    Prune(x.keep, TreeOf(x.nodes, x.keys, x.root, dn))
  }

  function PrunedEach(x: Reading, dns: seq<string>): (r: seq<Env>)
    requires Ok(x) && forall d :: d in dns ==> d in x.nodes
    ensures |r| == |dns| && forall i :: 0 <= i < |r| ==> r[i] == PrunedAt(x, dns[i])
  {
    seq(|dns|, i requires 0 <= i < |dns| => PrunedAt(x, dns[i]))
  }

  function SortedEach(x: Reading, dns: seq<string>): (r: seq<Env>)
    requires Ok(x) && forall d :: d in dns ==> d in x.nodes
    ensures |r| == |dns| && forall i :: 0 <= i < |r| ==> r[i] == SortTree(PrunedAt(x, dns[i]))
  {
    seq(|dns|, i requires 0 <= i < |dns| => SortTree(PrunedAt(x, dns[i])))
  }

  lemma {:induction false} PruneAllIs(x: Reading, ts: seq<Env>, dns: seq<string>)
    requires Ok(x) && (forall d :: d in dns ==> d in x.nodes) && |ts| == |dns|
    requires forall i :: 0 <= i < |ts| ==> ts[i] == TreeOf(x.nodes, x.keys, x.root, dns[i])
    ensures PruneAll(x.keep, ts) == PrunedEach(x, KeptOf(x, dns))
  {
    hide *;
    if ts == [] {
      NonePruned(x, dns);
    } else {
      var n := |ts| - 1;
      assert ts == ts[..n] + [ts[n]];
      assert dns[..n + 1] == dns;
      PruneAllIs(x, ts[..n], dns[..n]);
      PruneSnoc(x.keep, ts[..n], ts[n]);
      KeptOfSnoc(x, dns, n);
      SurvivorIs(x, dns[n]);
      EachSnoc(x, KeptOf(x, dns[..n]), dns[n]);
    }
  }

  lemma NonePruned(x: Reading, dns: seq<string>)
    requires Ok(x) && dns == []
    ensures PruneAll(x.keep, []) == PrunedEach(x, KeptOf(x, dns))
  {
  }

  lemma EachSnoc(x: Reading, dns: seq<string>, d: string)
    requires Ok(x) && d in x.nodes && forall e :: e in dns ==> e in x.nodes
    ensures PrunedEach(x, dns + [d]) == PrunedEach(x, dns) + [PrunedAt(x, d)]
    ensures dns + [] == dns && PrunedEach(x, dns) + [] == PrunedEach(x, dns)
  {
    hide PrunedAt, Ok;
  }

  lemma SurvivorIs(x: Reading, dn: string)
    requires Ok(x) && dn in x.nodes
    ensures Survivor(x.keep, Prune(x.keep, TreeOf(x.nodes, x.keys, x.root, dn))) == if Kept(x, dn) then [PrunedAt(x, dn)] else []
  {
    hide TreeOf, Prune;
  }

  lemma {:induction false} PruneSnoc(keep: set<string>, ts: seq<Env>, t: Env)
    ensures PruneAll(keep, ts + [t]) == PruneAll(keep, ts) + Survivor(keep, Prune(keep, t))
  {
    hide Prune;
    if ts == [] {
      assert [] + [t] == [t] && [t][1..] == [];
    } else {
      assert (ts + [t])[1..] == ts[1..] + [t];
      PruneSnoc(keep, ts[1..], t);
    }
  }

  /** The children the pruned tree has at an object. */
  lemma PrunedChildren(x: Reading, dn: string)
    requires Ok(x) && dn in x.nodes
    ensures PrunedAt(x, dn).children == PrunedEach(x, KeptOf(x, KidsOf(x, dn)))
    ensures Kept(x, dn) <==> x.nodes[dn].cls in x.keep || KeptOf(x, KidsOf(x, dn)) != []
  {
    KidTrees(x.nodes, x.keys, x.root, dn);
    var t := TreeOf(x.nodes, x.keys, x.root, dn);
    hide TreeOf, Kids, Longest, KeptOf;
    PruneAllIs(x, t.children, KidsOf(x, dn));
  }

  lemma SortedKeys(x: Reading, dn: string)
    requires Ok(x) && dn in x.nodes
    ensures SortTree(PrunedAt(x, dn)).cls == x.nodes[dn].cls && SortTree(PrunedAt(x, dn)).rn == RnOf(dn)
  {
  }

  lemma {:induction false} InsertTrees(x: Reading, d: string, dns: seq<string>)
    requires Ok(x) && d in x.nodes && forall e :: e in dns ==> e in x.nodes
    ensures InsertTree(SortTree(PrunedAt(x, d)), SortedEach(x, dns)) == SortedEach(x, InsertDn(x, d, dns))
  {
    hide *;
    if dns == [] {
      InsertFirst(x, d, dns);
    } else {
      InsertCases(x, d, dns);
      if !DnLe(x, d, dns[0]) { InsertTrees(x, d, dns[1..]); }
    }
  }

  lemma InsertFirst(x: Reading, d: string, dns: seq<string>)
    requires Ok(x) && d in x.nodes && dns == []
    ensures InsertTree(SortTree(PrunedAt(x, d)), SortedEach(x, dns)) == SortedEach(x, InsertDn(x, d, dns))
  {
    hide SortTree, PrunedAt;
    assert [d] + dns == [d];
  }

  lemma InsertTreeCases(t: Env, ts: seq<Env>)
    requires ts != []
    ensures InsertTree(t, ts) == if KeyLe(t, ts[0]) then [t] + ts else [ts[0]] + InsertTree(t, ts[1..])
  {
  }

  lemma SortedCons(x: Reading, d: string, dns: seq<string>)
    requires Ok(x) && d in x.nodes && forall e :: e in dns ==> e in x.nodes
    ensures SortedEach(x, [d] + dns) == [SortTree(PrunedAt(x, d))] + SortedEach(x, dns)
  {
    hide SortTree, PrunedAt, Ok;
  }

  lemma SortedTail(x: Reading, dns: seq<string>)
    requires Ok(x) && dns != [] && forall e :: e in dns ==> e in x.nodes
    ensures SortedEach(x, dns)[0] == SortTree(PrunedAt(x, dns[0])) && SortedEach(x, dns)[1..] == SortedEach(x, dns[1..])
  {
    hide SortTree, PrunedAt, Ok;
  }

  lemma InsertCases(x: Reading, d: string, dns: seq<string>)
    requires Ok(x) && d in x.nodes && dns != [] && forall e :: e in dns ==> e in x.nodes
    ensures DnLe(x, d, dns[0]) ==> InsertTree(SortTree(PrunedAt(x, d)), SortedEach(x, dns)) == SortedEach(x, InsertDn(x, d, dns))
    ensures !DnLe(x, d, dns[0]) && InsertTree(SortTree(PrunedAt(x, d)), SortedEach(x, dns[1..])) == SortedEach(x, InsertDn(x, d, dns[1..])) ==>
              InsertTree(SortTree(PrunedAt(x, d)), SortedEach(x, dns)) == SortedEach(x, InsertDn(x, d, dns))
  {
    var t, ts := SortTree(PrunedAt(x, d)), SortedEach(x, dns);
    SortedKeys(x, d);
    SortedKeys(x, dns[0]);
    assert KeyLe(t, SortTree(PrunedAt(x, dns[0]))) == DnLe(x, d, dns[0]);
    hide *;
    SortedTail(x, dns);
    InsertTreeCases(t, ts);
    InsertDnCases(x, d, dns);
    SortedCons(x, d, dns);
    SortedCons(x, dns[0], InsertDn(x, d, dns[1..]));
  }

  lemma {:induction false} SortTrees(x: Reading, dns: seq<string>)
    requires Ok(x) && forall e :: e in dns ==> e in x.nodes
    ensures SortForest(PrunedEach(x, dns)) == SortedEach(x, SortDns(x, dns))
  {
    if dns != [] {
      hide SortTree, Prune, TreeOf;
      assert PrunedEach(x, dns)[1..] == PrunedEach(x, dns[1..]);
      SortTrees(x, dns[1..]);
      InsertTrees(x, dns[0], SortDns(x, dns[1..]));
    }
  }

  // ---- The state of the children lists

  /** The children of an object: as attached, then pruned, then sorted. */
  ghost function Now(x: Reading, pruned: set<string>, sorted: set<string>, dn: string): (r: seq<string>)
    requires Ok(x) && dn in x.nodes
    ensures forall k :: k in r ==> k in x.nodes && |dn| < |k| <= Longest(x.keys)
  {
    if dn in sorted then SortDns(x, KeptOf(x, KidsOf(x, dn)))
    else if dn in pruned then KeptOf(x, KidsOf(x, dn))
    else KidsOf(x, dn)
  }

  ghost predicate Stage(x: Reading, mos: Mos, pruned: set<string>, sorted: set<string>)
    reads mos.Values
  {
    Ok(x) && R.Holds(mos, x.nodes) && forall d :: d in mos ==> mos[d].children == R.Pick(mos, Now(x, pruned, sorted, d))
  }

  /** The object and every kept object below it are marked. */
  ghost predicate AllBelow(x: Reading, marked: set<string>, dn: string)
    requires Ok(x) && dn in x.nodes
    decreases Longest(x.keys) - |dn|
  {
    dn in marked && forall k :: k in KeptOf(x, KidsOf(x, dn)) ==> AllBelow(x, marked, k)
  }

  lemma {:induction false} AllBelowMore(x: Reading, a: set<string>, b: set<string>, dn: string)
    requires Ok(x) && dn in x.nodes && a <= b && AllBelow(x, a, dn)
    ensures AllBelow(x, b, dn)
    decreases Longest(x.keys) - |dn|
  {
    hide KeptOf, KidsOf, Longest;
    forall k | k in KeptOf(x, KidsOf(x, dn)) ensures AllBelow(x, b, k) { AllBelowMore(x, a, b, k); }
  }

  method PruneNode(keep: set<string>, m: Mo, ghost x: Reading, ghost mos: Mos, ghost pruned: set<string>)
    returns (kept: bool, ghost after: set<string>)
    requires Stage(x, mos, pruned, {}) && x.keep == keep && m.dn in mos && mos[m.dn] == m
    modifies mos.Values
    ensures Stage(x, mos, after, {}) && pruned <= after && AllBelow(x, after, m.dn)
    ensures kept == Kept(x, m.dn)
    decreases Longest(x.keys) - |m.dn|, 1
  {
    hide Kept, KeptOf, KidsOf, Longest, Dict;
    after := PruneChildren(keep, m, x, mos, pruned);
    kept := m.cls in keep || m.children != [];
    PrunedChildren(x, m.dn);
  }

  /** `_prune`, on the children list of one object. */
  method PruneChildren(keep: set<string>, m: Mo, ghost x: Reading, ghost mos: Mos, ghost pruned: set<string>) returns (ghost after: set<string>)
    requires Stage(x, mos, pruned, {}) && x.keep == keep && m.dn in mos && mos[m.dn] == m
    modifies mos.Values
    ensures Stage(x, mos, after, {}) && pruned <= after && AllBelow(x, after, m.dn)
    decreases Longest(x.keys) - |m.dn|, 0, 1
  {
    ghost var dns := Now(x, pruned, {}, m.dn);
    StageAt(x, mos, pruned, {}, m.dn);
    hide *;
    var list;
    list, after := PruneEach(keep, m.children, x, mos, pruned, m.dn, dns);
    PrunedOnce(x, pruned, m.dn);
    AssignPruned(m, list, x, mos, after);
    PruneSettles(x, after, after + {m.dn}, m.dn, dns);
    after := after + {m.dn};
  }

  /** The children that stay, each with its own list pruned. */
  method PruneEach(keep: set<string>, all: seq<Mo>, ghost x: Reading, ghost mos: Mos, ghost pruned: set<string>, ghost dn: string, ghost dns: seq<string>)
    returns (list: seq<Mo>, ghost after: set<string>)
    requires Ok(x) && Stage(x, mos, pruned, {}) && x.keep == keep && dn in mos && mos.Keys == x.nodes.Keys && (forall d :: d in mos ==> mos[d].dn == d)
    requires (forall k :: k in dns ==> k in x.nodes && |dn| < |k| <= Longest(x.keys)) && all == R.Pick(mos, dns)
    modifies mos.Values
    ensures Stage(x, mos, after, {}) && pruned <= after
    ensures list == R.Pick(mos, KeptOf(x, dns)) && forall k :: 0 <= k < |dns| ==> AllBelow(x, after, dns[k])
    decreases Longest(x.keys) - |dn|, 0, 0
  {
    hide *;
    list, after := [], pruned;
    NoneKept(x, mos, dns);
    for i := 0 to |all|
      invariant Stage(x, mos, after, {}) && pruned <= after
      invariant list == R.Pick(mos, KeptOf(x, dns[..i]))
      invariant forall k :: 0 <= k < i ==> AllBelow(x, after, dns[k])
    {
      ghost var before := after;
      assert dns[i] in dns && all[i] == mos[dns[i]] && all[i].dn == dns[i];
      var kept;
      kept, after := PruneNode(keep, all[i], x, mos, after);
      forall k | 0 <= k < i + 1 ensures AllBelow(x, after, dns[k]) {
        if k < i { AllBelowMore(x, before, after, dns[k]); }
      }
      KeptOfSnoc(x, dns, i);
      if kept { list := list + [all[i]]; }
      PickSnoc(mos, KeptOf(x, dns[..i]), dns[i]);
    }
    assert dns[..|all|] == dns;
  }

  lemma NoneKept(x: Reading, mos: Mos, dns: seq<string>)
    requires Ok(x) && mos.Keys == x.nodes.Keys
    ensures KeptOf(x, dns[..0]) == [] && R.Pick(mos, []) == []
  {
  }

  lemma PickSnoc(mos: Mos, dns: seq<string>, d: string)
    requires d in mos && forall k :: k in dns ==> k in mos
    ensures R.Pick(mos, dns + [d]) == R.Pick(mos, dns) + [mos[d]] && R.Pick(mos, dns + []) == R.Pick(mos, dns)
  {
    assert dns + [] == dns;
  }

  /** What the state says of one object. */
  lemma StageAt(x: Reading, mos: Mos, pruned: set<string>, sorted: set<string>, dn: string)
    requires Stage(x, mos, pruned, sorted) && dn in mos
    ensures Ok(x) && mos.Keys == x.nodes.Keys && (forall d :: d in mos ==> mos[d].dn == d)
    ensures mos[dn].children == R.Pick(mos, Now(x, pruned, sorted, dn)) && mos[dn].cls == x.nodes[dn].cls
  {
  }

  /** Assigns the pruned list. */
  method AssignPruned(m: Mo, list: seq<Mo>, ghost x: Reading, ghost mos: Mos, ghost pruned: set<string>)
    requires Stage(x, mos, pruned, {}) && m.dn in mos && mos[m.dn] == m
    requires list == R.Pick(mos, KeptOf(x, KidsOf(x, m.dn)))
    modifies mos.Values
    ensures Stage(x, mos, pruned + {m.dn}, {})
  {
    hide KeptOf, KidsOf, Dict, Longest;
    m.children := list;
  }

  /** Pruning a list twice is pruning it once. */
  lemma PrunedOnce(x: Reading, pruned: set<string>, dn: string)
    requires Ok(x) && dn in x.nodes
    ensures KeptOf(x, Now(x, pruned, {}, dn)) == KeptOf(x, KidsOf(x, dn))
  {
    hide Kept, KidsOf, Longest;
    KeptOfKept(x, KeptOf(x, KidsOf(x, dn)));
  }

  lemma PruneSettles(x: Reading, a: set<string>, b: set<string>, dn: string, dns: seq<string>)
    requires Ok(x) && dn in x.nodes && a <= b && dn in b && (forall k :: k in dns ==> k in x.nodes)
    requires KeptOf(x, dns) == KeptOf(x, KidsOf(x, dn))
    requires forall k :: 0 <= k < |dns| ==> AllBelow(x, a, dns[k]) || AllBelow(x, b, dns[k])
    ensures AllBelow(x, b, dn)
  {
    hide KeptOf, KidsOf, Longest;
    forall k | k in KeptOf(x, KidsOf(x, dn)) ensures AllBelow(x, b, k) {
      var i :| 0 <= i < |dns| && dns[i] == k;
      if AllBelow(x, a, k) { AllBelowMore(x, a, b, k); }
    }
  }

  // ---- Sorting in place

  predicate MoLe(a: Mo, b: Mo) {
    if a.cls == b.cls then LexLe(RnOf(a.dn), RnOf(b.dn)) else LexLe(a.cls, b.cls)
  }

  function InsertMo(m: Mo, ms: seq<Mo>): seq<Mo> {
    if ms == [] || MoLe(m, ms[0]) then [m] + ms else [ms[0]] + InsertMo(m, ms[1..])
  }

  /** `list.sort` by class and RN. */
  function SortMos(ms: seq<Mo>): seq<Mo> {
    if ms == [] then [] else InsertMo(ms[0], SortMos(ms[1..]))
  }

  ghost predicate Named(x: Reading, mos: Mos) {
    mos.Keys == x.nodes.Keys && forall d :: d in mos ==> mos[d].dn == d && mos[d].cls == x.nodes[d].cls
  }

  lemma {:induction false} InsertPick(x: Reading, mos: Mos, d: string, dns: seq<string>)
    requires Named(x, mos) && d in mos && forall k :: k in dns ==> k in mos
    ensures InsertMo(mos[d], R.Pick(mos, dns)) == R.Pick(mos, InsertDn(x, d, dns))
  {
    hide *;
    NamedKeys(x, mos);
    if dns == [] {
      InsertAlone(x, d);
      PickCons(mos, d, []);
      InsertMoCases(mos[d], []);
    } else {
      SameLe(x, mos, d, dns[0]);
      InsertDnCases(x, d, dns);
      PickTail(mos, dns);
      InsertMoCases(mos[d], R.Pick(mos, dns));
      PickCons(mos, d, dns);
      if !DnLe(x, d, dns[0]) {
        InsertPick(x, mos, d, dns[1..]);
        PickCons(mos, dns[0], InsertDn(x, d, dns[1..]));
      }
    }
  }

  lemma NamedKeys(x: Reading, mos: Mos)
    requires Named(x, mos)
    ensures mos.Keys == x.nodes.Keys
  {
  }

  lemma SameLe(x: Reading, mos: Mos, a: string, b: string)
    requires Named(x, mos) && a in mos && b in mos
    ensures mos.Keys == x.nodes.Keys && MoLe(mos[a], mos[b]) == DnLe(x, a, b)
  {
  }

  lemma InsertMoCases(m: Mo, ms: seq<Mo>)
    ensures InsertMo(m, ms) == if ms == [] || MoLe(m, ms[0]) then [m] + ms else [ms[0]] + InsertMo(m, ms[1..])
  {
  }

  lemma PickCons(mos: Mos, d: string, dns: seq<string>)
    requires d in mos && forall k :: k in dns ==> k in mos
    ensures R.Pick(mos, [d] + dns) == [mos[d]] + R.Pick(mos, dns)
  {
  }

  lemma PickTail(mos: Mos, dns: seq<string>)
    requires dns != [] && forall k :: k in dns ==> k in mos
    ensures R.Pick(mos, dns)[0] == mos[dns[0]] && R.Pick(mos, dns)[1..] == R.Pick(mos, dns[1..])
  {
  }

  lemma {:induction false} SortPick(x: Reading, mos: Mos, dns: seq<string>)
    requires Named(x, mos) && forall k :: k in dns ==> k in mos
    ensures SortMos(R.Pick(mos, dns)) == R.Pick(mos, SortDns(x, dns))
  {
    if dns != [] {
      hide InsertMo, InsertDn, Named;
      assert R.Pick(mos, dns)[1..] == R.Pick(mos, dns[1..]);
      SortPick(x, mos, dns[1..]);
      InsertPick(x, mos, dns[0], SortDns(x, dns[1..]));
    }
  }

  /** Sorting a pruned list, sorted before or not. */
  lemma SortedOnce(x: Reading, pruned: set<string>, sorted: set<string>, dn: string)
    requires Ok(x) && dn in x.nodes && dn in pruned
    ensures SortDns(x, Now(x, pruned, sorted, dn)) == SortDns(x, KeptOf(x, KidsOf(x, dn)))
  {
    hide KeptOf, KidsOf, Longest, DnLe;
    SortInOrder(x, KeptOf(x, KidsOf(x, dn)));
    SortSorted(x, SortDns(x, KeptOf(x, KidsOf(x, dn))));
  }

  method AssignSorted(m: Mo, list: seq<Mo>, ghost x: Reading, ghost mos: Mos, ghost pruned: set<string>, ghost sorted: set<string>)
    requires Stage(x, mos, pruned, sorted) && m.dn in mos && mos[m.dn] == m
    requires list == R.Pick(mos, SortDns(x, KeptOf(x, KidsOf(x, m.dn))))
    modifies mos.Values
    ensures Stage(x, mos, pruned, sorted + {m.dn})
  {
    StageNamed(x, mos, pruned, sorted);
    StageLists(x, mos, pruned, sorted);
    hide *;
    forall d | d in mos ensures mos[d] == m <==> d == m.dn { NamedAt(x, mos, d); }
    m.children := list;
    forall d | d in mos ensures mos[d].children == R.Pick(mos, Now(x, pruned, sorted + {m.dn}, d)) {
      NowMarked(x, pruned, sorted, m.dn, d);
    }
    StageIs(x, mos, pruned, sorted + {m.dn});
  }

  lemma StageLists(x: Reading, mos: Mos, pruned: set<string>, sorted: set<string>)
    requires Stage(x, mos, pruned, sorted)
    ensures Ok(x) && R.Holds(mos, x.nodes) && mos.Keys == x.nodes.Keys
    ensures forall d :: d in mos ==> mos[d].children == R.Pick(mos, Now(x, pruned, sorted, d))
  {
  }

  lemma StageIs(x: Reading, mos: Mos, pruned: set<string>, sorted: set<string>)
    requires Ok(x) && R.Holds(mos, x.nodes) && mos.Keys == x.nodes.Keys
    requires forall d :: d in mos ==> mos[d].children == R.Pick(mos, Now(x, pruned, sorted, d))
    ensures Stage(x, mos, pruned, sorted)
  {
  }

  lemma NowMarked(x: Reading, pruned: set<string>, sorted: set<string>, dn: string, d: string)
    requires Ok(x) && d in x.nodes && dn in x.nodes
    ensures Now(x, pruned, sorted + {dn}, d) == if d == dn then SortDns(x, KeptOf(x, KidsOf(x, d))) else Now(x, pruned, sorted, d)
  {
  }

  lemma StageNamed(x: Reading, mos: Mos, pruned: set<string>, sorted: set<string>)
    requires Stage(x, mos, pruned, sorted)
    ensures Named(x, mos)
  {
  }

  lemma BelowParts(x: Reading, marked: set<string>, dn: string)
    requires Ok(x) && dn in x.nodes && AllBelow(x, marked, dn)
    ensures dn in marked && forall k :: k in KeptOf(x, KidsOf(x, dn)) ==> |dn| < |k| <= Longest(x.keys) && AllBelow(x, marked, k)
  {
  }

  lemma BelowIs(x: Reading, marked: set<string>, dn: string)
    requires Ok(x) && dn in x.nodes && dn in marked
    requires forall k :: k in KeptOf(x, KidsOf(x, dn)) ==> AllBelow(x, marked, k)
    ensures AllBelow(x, marked, dn)
  {
  }

  /** `_sort`: the children of the object, then those of each child. */
  method SortNode(m: Mo, ghost x: Reading, ghost mos: Mos, ghost pruned: set<string>, ghost sorted: set<string>) returns (ghost after: set<string>)
    requires Stage(x, mos, pruned, sorted) && m.dn in mos && mos[m.dn] == m && AllBelow(x, pruned, m.dn)
    modifies mos.Values
    ensures Stage(x, mos, pruned, after) && sorted <= after && AllBelow(x, after, m.dn)
    decreases Longest(x.keys) - |m.dn|
  {
    StageAt(x, mos, pruned, sorted, m.dn);
    StageNamed(x, mos, pruned, sorted);
    ghost var kept := KeptOf(x, KidsOf(x, m.dn));
    ghost var dns := SortDns(x, kept);
    hide *;
    BelowParts(x, pruned, m.dn);
    SortPick(x, mos, Now(x, pruned, sorted, m.dn));
    SortedOnce(x, pruned, sorted, m.dn);
    var list := SortMos(m.children);
    AssignSorted(m, list, x, mos, pruned, sorted);
    after := sorted + {m.dn};
    for i := 0 to |list|
      invariant Stage(x, mos, pruned, after) && sorted + {m.dn} <= after
      invariant forall k :: 0 <= k < i ==> AllBelow(x, after, dns[k])
    {
      ghost var before := after;
      assert dns[i] in dns && list[i] == mos[dns[i]];
      NamedAt(x, mos, dns[i]);
      after := SortNode(list[i], x, mos, pruned, after);
      forall k | 0 <= k < i + 1 ensures AllBelow(x, after, dns[k]) {
        if k < i { AllBelowMore(x, before, after, dns[k]); }
      }
    }
    BelowIs(x, after, m.dn) by {
      forall k | k in kept ensures AllBelow(x, after, k) {
        assert k in dns;
        var i :| 0 <= i < |dns| && dns[i] == k;
      }
    }
  }

  lemma NamedAt(x: Reading, mos: Mos, d: string)
    requires Named(x, mos) && d in mos
    ensures mos[d].dn == d && d in x.nodes
  {
  }

  // ---- The heap tree in the end

  /** After pruning and sorting, the heap tree reads as the sorted pruned tree. */
  lemma {:induction false} StageShows(x: Reading, mos: Mos, pruned: set<string>, sorted: set<string>, dn: string)
    requires Stage(x, mos, pruned, sorted) && dn in mos && AllBelow(x, sorted, dn)
    ensures dn in x.nodes && R.Shows(mos[dn], SortTree(PrunedAt(x, dn)), mos.Values)
    decreases Longest(x.keys) - |dn|
  {
    StageAt(x, mos, pruned, sorted, dn);
    var kept := KeptOf(x, KidsOf(x, dn));
    BelowParts(x, sorted, dn);
    var dns := SortDns(x, kept);
    var t := SortTree(PrunedAt(x, dn));
    SortedChildren(x, dn);
    NowSorted(x, pruned, sorted, dn);
    StageNode(x, mos, pruned, sorted, dn);
    hide Stage, PrunedAt, KeptOf, KidsOf, Longest, SortDns, SortTree, Now, AllBelow, Dict;
    forall i | 0 <= i < |dns| ensures R.Shows(mos[dn].children[i], t.children[i], mos.Values) {
      assert dns[i] in kept by { assert dns[i] in dns; }
      StageShows(x, mos, pruned, sorted, dns[i]);
    }
  }

  lemma NowSorted(x: Reading, pruned: set<string>, sorted: set<string>, dn: string)
    requires Ok(x) && dn in x.nodes && dn in sorted
    ensures Now(x, pruned, sorted, dn) == SortDns(x, KeptOf(x, KidsOf(x, dn)))
  {
  }

  lemma StageNode(x: Reading, mos: Mos, pruned: set<string>, sorted: set<string>, dn: string)
    requires Stage(x, mos, pruned, sorted) && dn in mos
    ensures var t := SortTree(PrunedAt(x, dn));
            mos[dn].cls == t.cls && RnOf(mos[dn].dn) == t.rn && mos[dn].attrs == t.attrs
  {
  }

  lemma SortedChildren(x: Reading, dn: string)
    requires Ok(x) && dn in x.nodes
    ensures SortTree(PrunedAt(x, dn)).children == SortedEach(x, SortDns(x, KeptOf(x, KidsOf(x, dn))))
  {
    PrunedChildren(x, dn);
    hide Prune, TreeOf, KeptOf, KidsOf, Longest;
    SortTrees(x, KeptOf(x, KidsOf(x, dn)));
  }

  // ---- Accounting and rendering

  class Accounts {
    var ledger: Ledger

    constructor ()
      ensures ledger == Ledger(map[], [])
    {
      ledger := Ledger(map[], []);
    }

    method AccountOne(cat: Catalogue, keep: set<string>, scope: string, w: Write)
      modifies this
      ensures AddsUp(cat, keep, scope, old(ledger), [w], ledger)
    {
      var coverage, warnings := ledger.coverage, ledger.warnings;
      if Counted(keep, scope, w) { coverage := coverage[w.cls := Count(coverage, w.cls) + 1]; }
      if w.cls in cat.secretDnClasses { warnings := warnings + [Warning(w)]; }
      ledger := Ledger(coverage, warnings);
      assert [w][..0] == [];
    }

    /** `_account`: counts the object and its subtree, and collects a warning for each secret DN. */
    method Account(cat: Catalogue, keep: set<string>, scope: string, m: Mo, dn: string, ghost t: Env, ghost within: set<Mo>)
      requires dn != "" && R.Shows(m, t, within)
      modifies this
      ensures AddsUp(cat, keep, scope, old(ledger), Flat(t, dn), ledger)
      decreases t
    {
      hide AddsUp;
      var w := Write(dn, m.cls, m.attrs);
      AccountOne(cat, keep, scope, w);
      ghost var own := ledger;
      assert t.children[..0] == [];
      AddsNothing(cat, keep, scope, own);
      for i := 0 to |m.children|
        invariant AddsUp(cat, keep, scope, own, WritesAll(t.children[..i], dn), ledger)
      {
        ghost var before := ledger;
        var child := m.children[i];
        var childDn := Child(dn, RnOf(child.dn));
        assert R.Shows(child, t.children[i], within);
        Account(cat, keep, scope, child, childDn, t.children[i], within);
        WritesAllSnoc(t.children, i, dn);
        assert Writes(t.children[i], dn) == Flat(t.children[i], childDn);
        hide WritesAll;
        AddsUpConcat(cat, keep, scope, own, WritesAll(t.children[..i], dn), before, Flat(t.children[i], childDn), ledger);
      }
      assert t.children[..|t.children|] == t.children;
      AddsUpConcat(cat, keep, scope, old(ledger), [w], own, WritesAll(t.children, dn), ledger);
    }
  }

  /** `to_json`: the value of a heap tree. */
  method Render(m: Mo, ghost t: Env, ghost within: set<Mo>) returns (r: Env)
    requires R.Shows(m, t, within)
    ensures r == t
    decreases t
  {
    var children: seq<Env> := [];
    for i := 0 to |m.children|
      invariant children == t.children[..i]
    {
      var child := Render(m.children[i], t.children[i], within);
      children := children + [child];
    }
    r := Env(m.cls, RnOf(m.dn), m.attrs, children);
  }

  // ---- The whole

  /** The capture of an accounted tree. */
  lemma CapturesIs(cat: Catalogue, keep: set<string>, scope: string, items: seq<Write>, t: Env, ledger: Ledger)
    requires FinalTree(cat, keep, items, scope) == Some(t)
    requires AddsUp(cat, keep, scope, Ledger(map[], []), Flat(t, scope), ledger)
    ensures Captures(cat, keep, scope, items, Capture(Some(t), ledger.coverage, SortedStrings(ledger.warnings)))
  {
    hide FinalTree, Instances, Warnings, SortedStrings, Flat;
    assert Positive(map[]) && forall cls :: Count(map[], cls) == 0;
    assert [] + Warnings(cat, Flat(t, scope)) == Warnings(cat, Flat(t, scope));
  }

  lemma StageBegins(x: Reading, mos: Mos)
    requires Ok(x) && R.Holds(mos, x.nodes) && (forall k :: k in x.keys ==> k in mos) && R.Attached(mos, x.keys, x.root)
    ensures Stage(x, mos, {}, {})
  {
  }

  /** What was read, as a dictionary. */
  function ReadingOf(cat: Catalogue, keep: set<string>, items: seq<Write>, scope: string): (x: Reading)
    ensures Ok(x)
  {
    var usable := Usable(cat, items);
    ReadIsDict(usable);
    Reading(NodesOf(usable), KeysOf(DnsOf(usable)), scope, keep)
  }

  lemma FinalTreeAt(cat: Catalogue, keep: set<string>, items: seq<Write>, scope: string)
    ensures var x := ReadingOf(cat, keep, items, scope);
            FinalTree(cat, keep, items, scope) == if scope in x.nodes then Some(SortTree(PrunedAt(x, scope))) else None
  {
  }

  /** `_assemble`: attach, prune, sort, account, render. */
  method Assemble(cat: Catalogue, keep: set<string>, scope: string, items: seq<Write>) returns (capture: Capture)
    requires scope != ""
    ensures Captures(cat, keep, scope, items, capture)
  {
    ghost var x := ReadingOf(cat, keep, items, scope);
    FinalTreeAt(cat, keep, items, scope);
    ReadingIs(cat, keep, items, scope);
    hide *;
    var ok, mos, order := R.Deserialise(Usable(cat, items));
    HoldsKeys(mos, x);
    if scope !in mos {
      NothingCaptured(cat, keep, scope, items);
      return Capture(None, map[], []);
    }
    R.AttachAll(mos, order, scope);
    StageBegins(x, mos);
    var root := mos[scope];
    StageAt(x, mos, {}, {}, scope);
    ghost var pruned := PruneChildren(keep, root, x, mos, {});
    ghost var sorted := SortNode(root, x, mos, pruned, {});
    StageShows(x, mos, pruned, sorted, scope);
    ghost var t := SortTree(PrunedAt(x, scope));
    var accounts := new Accounts();
    accounts.Account(cat, keep, scope, root, scope, t, mos.Values);
    CapturesIs(cat, keep, scope, items, t, accounts.ledger);
    var tree := Render(root, t, mos.Values);
    capture := Capture(Some(tree), accounts.ledger.coverage, SortedStrings(accounts.ledger.warnings));
  }

  lemma ReadingIs(cat: Catalogue, keep: set<string>, items: seq<Write>, scope: string)
    ensures var x := ReadingOf(cat, keep, items, scope);
            && AllNamed(Usable(cat, items)) && x.nodes == NodesOf(Usable(cat, items)) && x.keys == KeysOf(DnsOf(Usable(cat, items)))
            && x.root == scope && x.keep == keep && Ok(x)
  {
  }

  lemma HoldsKeys(mos: Mos, x: Reading)
    requires R.Holds(mos, x.nodes) && Ok(x)
    ensures mos.Keys == x.nodes.Keys && (forall k :: k in x.keys ==> k in mos) && forall d :: d in mos ==> mos[d].dn == d
  {
  }

  lemma NothingCaptured(cat: Catalogue, keep: set<string>, scope: string, items: seq<Write>)
    requires FinalTree(cat, keep, items, scope) == None
    ensures Captures(cat, keep, scope, items, Capture(None, map[], []))
  {
    hide FinalTree;
  }
}
