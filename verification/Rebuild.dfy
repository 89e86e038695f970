/** Containment trees rebuilt from flat, DN-keyed items (`build_tree` in `_read.py`). */
module Rebuild {
  import opened Text
  import opened Dn
  import opened Store

  // ---- The dictionary of items: one entry a DN, in order of first appearance

  /** One flat response item is its DN with the object: a `Write`. The last occurrence of a DN wins. */
  function NodesOf(items: seq<Write>): (r: Objects)
    ensures forall dn :: dn in r <==> dn in DnsOf(items)
  {
    if items == [] then map[]
    else
      var last := items[|items| - 1];
      assert items == items[..|items| - 1] + [last];
      DnsOfConcat(items[..|items| - 1], [last]);
      NodesOf(items[..|items| - 1])[last.dn := Obj(last.cls, last.attrs)]
  }

  function DnsOf(items: seq<Write>): (r: seq<string>)
    ensures |r| == |items|
    ensures forall i :: 0 <= i < |r| ==> r[i] == items[i].dn
  {
    seq(|items|, i requires 0 <= i < |items| => items[i].dn)
  }

  lemma DnsOfConcat(a: seq<Write>, b: seq<Write>)
    ensures DnsOf(a + b) == DnsOf(a) + DnsOf(b)
  {
  }

  /** The keys of the dictionary, in insertion order. */
  function KeysOf(dns: seq<string>): (r: seq<string>)
    ensures forall dn :: dn in r <==> dn in dns
    ensures NoRepeat(r)
  {
    if dns == [] then []
    else
      var last := dns[|dns| - 1];
      var keys := KeysOf(dns[..|dns| - 1]);
      assert dns == dns[..|dns| - 1] + [last];
      if last in keys then keys else keys + [last]
  }

  lemma {:induction false} KeysOfOnce(dns: seq<string>)
    requires NoRepeat(dns)
    ensures KeysOf(dns) == dns
  {
    if dns != [] {
      KeysOfOnce(dns[..|dns| - 1]);
      assert dns == dns[..|dns| - 1] + [dns[|dns| - 1]];
    }
  }

  // ---- Parents and children

  /** The DN under which `dn` is attached: its parent, except for the root of the read. */
  predicate AttachedTo(root: string, p: string, dn: string) {
    dn != root && ParentDn(dn) == Some(p)
  }

  /** The children list of `p`, in the order of the dictionary. */
  function Kids(keys: seq<string>, root: string, p: string): (r: seq<string>)
    ensures forall k :: k in r <==> k in keys && AttachedTo(root, p, k)
    ensures NoRepeat(keys) ==> NoRepeat(r)
  {
    if keys == [] then []
    else
      var last := keys[|keys| - 1];
      assert keys == keys[..|keys| - 1] + [last];
      var before := Kids(keys[..|keys| - 1], root, p);
      if AttachedTo(root, p, last) then before + [last] else before
  }

  lemma {:induction false} KidsConcat(a: seq<string>, b: seq<string>, root: string, p: string)
    ensures Kids(a + b, root, p) == Kids(a, root, p) + Kids(b, root, p)
  {
    if b == [] {
      assert a + b == a;
    } else {
      KidsConcat(a, b[..|b| - 1], root, p);
      assert (a + b)[..|a + b| - 1] == a + b[..|b| - 1];
    }
  }

  lemma AttachedLonger(root: string, p: string, dn: string)
    requires AttachedTo(root, p, dn)
    ensures |p| < |dn| && dn == Child(p, RnOf(dn))
  {
    ParentAndRn(dn);
  }

  function Longest(keys: seq<string>): (n: nat)
    ensures forall k :: k in keys ==> |k| <= n
  {
    if keys == [] then 0
    else
      var rest := Longest(keys[1..]);
      assert forall k :: k in keys ==> k == keys[0] || k in keys[1..];
      if |keys[0]| > rest then |keys[0]| else rest
  }

  /** The tree hanging from `dn`. */
  function TreeOf(nodes: Objects, keys: seq<string>, root: string, dn: string): (t: Env)
    requires dn in nodes && forall k :: k in keys ==> k in nodes
    ensures t.cls == nodes[dn].cls && t.rn == RnOf(dn) && t.attrs == nodes[dn].attrs
    decreases Longest(keys) - |dn|
  {
    var kids := Kids(keys, root, dn);
    assert forall k :: k in kids ==> |dn| < |k| by {
      forall k | k in kids ensures |dn| < |k| { AttachedLonger(root, dn, k); }
    }
    Env(nodes[dn].cls, RnOf(dn), nodes[dn].attrs,
        seq(|kids|, i requires 0 <= i < |kids| => TreeOf(nodes, keys, root, kids[i])))
  }

  /** Every object of a tree hanging from `dn`, parents first. */
  function Flat(t: Env, dn: string): (r: seq<Write>)
    ensures r != [] && r[0] == Write(dn, t.cls, t.attrs)
  {
    [Write(dn, t.cls, t.attrs)] + WritesAll(t.children, dn)
  }

  /** `build_tree`: none when the root itself was not read. */
  function Rebuilt(items: seq<Write>, root: string): Option<Env> {
    if root in NodesOf(items) then Some(TreeOf(NodesOf(items), KeysOf(DnsOf(items)), root, root)) else None
  }

  // ---- What is reached

  /** `top` is `dn` or one of its ancestors, and every object from `dn` up to `top` was read. */
  ghost predicate Under(nodes: Objects, top: string, dn: string)
    decreases |dn|
  {
    && dn in nodes
    && (dn == top || (ParentDn(dn).Some? && (ParentAndRn(dn); Under(nodes, top, ParentDn(dn).value))))
  }

  lemma {:induction false} UnderLonger(nodes: Objects, top: string, dn: string)
    requires Under(nodes, top, dn)
    ensures |top| <= |dn| && top in nodes
    decreases |dn|
  {
    if dn != top {
      ParentAndRn(dn);
      UnderLonger(nodes, top, ParentDn(dn).value);
    }
  }

  /** Two ancestors of one object are ancestors of one another. */
  lemma {:induction false} UnderIsALine(nodes: Objects, a: string, b: string, dn: string)
    requires Under(nodes, a, dn) && Under(nodes, b, dn)
    ensures Under(nodes, a, b) || Under(nodes, b, a)
    decreases |dn|
  {
    if dn != a && dn != b {
      ParentAndRn(dn);
      UnderIsALine(nodes, a, b, ParentDn(dn).value);
    }
  }

  lemma ReadSiblingsApart(nodes: Objects, root: string, p: string, a: string, b: string, dn: string)
    requires AttachedTo(root, p, a) && AttachedTo(root, p, b)
    requires Under(nodes, a, dn) && Under(nodes, b, dn)
    ensures a == b
  {
    AttachedLonger(root, p, a);
    AttachedLonger(root, p, b);
    UnderIsALine(nodes, a, b, dn);
    if a != b {
      if Under(nodes, a, b) { UnderLonger(nodes, a, p); } else { UnderLonger(nodes, b, p); }
    }
  }

  lemma {:induction false} UnderTransitive(nodes: Objects, a: string, b: string, dn: string)
    requires Under(nodes, a, b) && Under(nodes, b, dn)
    ensures Under(nodes, a, dn)
    decreases |dn|
  {
    if dn != b {
      ParentAndRn(dn);
      UnderTransitive(nodes, a, b, ParentDn(dn).value);
    }
  }

  /** Strictly below `dn`: below one of its children. */
  lemma {:induction false} UnderSomeKid(nodes: Objects, keys: seq<string>, root: string, p: string, dn: string) returns (kid: string)
    requires Under(nodes, p, dn) && dn != p && |root| <= |p|
    requires forall k :: k in keys <==> k in nodes
    ensures kid in Kids(keys, root, p) && Under(nodes, kid, dn)
    decreases |dn|
  {
    ParentAndRn(dn);
    var up := ParentDn(dn).value;
    if up == p {
      kid := dn;
    } else {
      kid := UnderSomeKid(nodes, keys, root, p, up);
    }
  }

  ghost predicate Dict(nodes: Objects, keys: seq<string>) {
    NoRepeat(keys) && "" !in nodes && forall k :: k in keys <==> k in nodes
  }

  // ---- The objects of a rebuilt tree

  lemma {:induction false} FlatForest(ts: seq<Env>, dns: seq<string>, p: string, w: Write)
    requires |ts| == |dns| && p != ""
    requires forall i :: 0 <= i < |ts| ==> Child(p, ts[i].rn) == dns[i]
    ensures w in WritesAll(ts, p) <==> exists i :: 0 <= i < |ts| && w in Flat(ts[i], dns[i])
  {
    if ts != [] {
      FlatForest(ts[1..], dns[1..], p, w);
      assert Writes(ts[0], p) == Flat(ts[0], dns[0]);
      if w in WritesAll(ts[1..], p) {
        var i :| 0 <= i < |ts| - 1 && w in Flat(ts[1..][i], dns[1..][i]);
        assert w in Flat(ts[i + 1], dns[i + 1]);
      }
      if j :| 0 < j < |ts| && w in Flat(ts[j], dns[j]) {
        assert w in Flat(ts[1..][j - 1], dns[1..][j - 1]);
      }
    }
  }

  /** The children of `TreeOf`, one a key attached to `dn`. */
  lemma KidTrees(nodes: Objects, keys: seq<string>, root: string, dn: string)
    requires Dict(nodes, keys) && dn in nodes
    ensures var ts := TreeOf(nodes, keys, root, dn).children;
            var kids := Kids(keys, root, dn);
            |ts| == |kids| &&
            forall i :: 0 <= i < |ts| ==>
              kids[i] in nodes && AttachedTo(root, dn, kids[i]) && |dn| < |kids[i]| <= Longest(keys) &&
              ts[i] == TreeOf(nodes, keys, root, kids[i]) && Child(dn, ts[i].rn) == kids[i]
  {
    var kids := Kids(keys, root, dn);
    forall i | 0 <= i < |kids| ensures |dn| < |kids[i]| && kids[i] == Child(dn, RnOf(kids[i])) {
      assert kids[i] in kids;
      AttachedLonger(root, dn, kids[i]);
    }
  }

  /** A rebuilt tree reaches exactly the objects whose whole chain of ancestors up to its top was read. */
  lemma {:induction false} ReachedExactly(nodes: Objects, keys: seq<string>, root: string, dn: string, w: Write)
    requires Dict(nodes, keys) && dn in nodes && |root| <= |dn|
    ensures w in Flat(TreeOf(nodes, keys, root, dn), dn) <==>
            Under(nodes, dn, w.dn) && nodes[w.dn] == Obj(w.cls, w.attrs)
    decreases Longest(keys) - |dn|
  {
    var t := TreeOf(nodes, keys, root, dn);
    var kids := Kids(keys, root, dn);
    KidTrees(nodes, keys, root, dn);
    hide TreeOf, Kids, Longest;
    forall i | 0 <= i < |kids|
      ensures w in Flat(t.children[i], kids[i]) <==> Under(nodes, kids[i], w.dn) && nodes[w.dn] == Obj(w.cls, w.attrs)
      ensures Under(nodes, kids[i], w.dn) ==> Under(nodes, dn, w.dn)
    {
      ReachedExactly(nodes, keys, root, kids[i], w);
      assert Under(nodes, dn, kids[i]);
      if Under(nodes, kids[i], w.dn) { UnderTransitive(nodes, dn, kids[i], w.dn); }
    }
    NodesAreKeys(nodes, keys);
    FlatForest(t.children, kids, dn, w);
    if Under(nodes, dn, w.dn) && w.dn != dn {
      var kid := UnderSomeKid(nodes, keys, root, dn, w.dn);
      var i :| 0 <= i < |kids| && kids[i] == kid;
    }
  }

  lemma NodesAreKeys(nodes: Objects, keys: seq<string>)
    requires Dict(nodes, keys)
    ensures "" !in nodes && NoRepeat(keys) && forall k :: k in keys <==> k in nodes
  {
  }

  // ---- Each object is reached once

  lemma {:induction false} ForestOnce(ts: seq<Env>, dns: seq<string>, p: string)
    requires |ts| == |dns| && p != ""
    requires forall i :: 0 <= i < |ts| ==> Child(p, ts[i].rn) == dns[i] && DistinctDns(Flat(ts[i], dns[i]))
    requires forall i, j :: 0 <= i < j < |ts| ==> Apart(Flat(ts[i], dns[i]), Flat(ts[j], dns[j]))
    ensures DistinctDns(WritesAll(ts, p))
  {
    if ts != [] {
      var first, rest := Flat(ts[0], dns[0]), WritesAll(ts[1..], p);
      hide DistinctDns, Apart;
      ForestOnce(ts[1..], dns[1..], p);
      assert Writes(ts[0], p) == first;
      ForestApart(ts[1..], dns[1..], p, first);
      DistinctConcat(first, rest);
    }
  }

  lemma {:induction false} ForestApart(ts: seq<Env>, dns: seq<string>, p: string, ws: seq<Write>)
    requires |ts| == |dns| && p != ""
    requires forall i :: 0 <= i < |ts| ==> Child(p, ts[i].rn) == dns[i]
    requires forall i :: 0 <= i < |ts| ==> Apart(ws, Flat(ts[i], dns[i]))
    ensures Apart(ws, WritesAll(ts, p))
  {
    hide Flat;
    forall v, w | v in ws && w in WritesAll(ts, p) ensures v.dn != w.dn {
      FlatForest(ts, dns, p, w);
      var i :| 0 <= i < |ts| && w in Flat(ts[i], dns[i]);
    }
  }

  /** The trees of two siblings share no DN, and neither holds their parent's. */
  lemma SiblingTreesApart(nodes: Objects, keys: seq<string>, root: string, p: string, a: string, b: string)
    requires Dict(nodes, keys) && |root| <= |p| && a in nodes && b in nodes && a != b
    requires AttachedTo(root, p, a) && AttachedTo(root, p, b)
    ensures Apart(Flat(TreeOf(nodes, keys, root, a), a), Flat(TreeOf(nodes, keys, root, b), b))
  {
    AttachedLonger(root, p, a);
    AttachedLonger(root, p, b);
    hide TreeOf, Flat, Dict, Under;
    forall v, w | v in Flat(TreeOf(nodes, keys, root, a), a) && w in Flat(TreeOf(nodes, keys, root, b), b)
      ensures v.dn != w.dn
    {
      ReachedExactly(nodes, keys, root, a, v);
      ReachedExactly(nodes, keys, root, b, w);
      if v.dn == w.dn { ReadSiblingsApart(nodes, root, p, a, b, v.dn); }
    }
  }

  lemma {:induction false} ReachedOnce(nodes: Objects, keys: seq<string>, root: string, dn: string)
    requires Dict(nodes, keys) && dn in nodes && |root| <= |dn|
    ensures DistinctDns(Flat(TreeOf(nodes, keys, root, dn), dn))
    decreases Longest(keys) - |dn|
  {
    var t := TreeOf(nodes, keys, root, dn);
    var kids := Kids(keys, root, dn);
    var below := WritesAll(t.children, dn);
    KidTrees(nodes, keys, root, dn);
    NodesAreKeys(nodes, keys);
    assert Flat(t, dn) == [Write(dn, t.cls, t.attrs)] + below;
    hide TreeOf, Longest, Dict, Under, Kids, Flat, AttachedTo;
    forall i | 0 <= i < |kids| ensures DistinctDns(Flat(t.children[i], kids[i])) {
      ReachedOnce(nodes, keys, root, kids[i]);
    }
    forall i, j | 0 <= i < j < |kids| ensures Apart(Flat(t.children[i], kids[i]), Flat(t.children[j], kids[j])) {
      SiblingTreesApart(nodes, keys, root, dn, kids[i], kids[j]);
    }
    hide DistinctDns, Apart;
    ForestOnce(t.children, kids, dn);
    assert Apart([Write(dn, t.cls, t.attrs)], below) by { TopApart(nodes, keys, root, dn); }
    OneIsDistinct(Write(dn, t.cls, t.attrs));
    DistinctConcat([Write(dn, t.cls, t.attrs)], below);
  }

  lemma OneIsDistinct(w: Write)
    ensures DistinctDns([w])
  {
  }

  lemma TopApart(nodes: Objects, keys: seq<string>, root: string, dn: string)
    requires Dict(nodes, keys) && dn in nodes && |root| <= |dn|
    ensures var t := TreeOf(nodes, keys, root, dn);
            Apart([Write(dn, t.cls, t.attrs)], WritesAll(t.children, dn))
  {
    var t := TreeOf(nodes, keys, root, dn);
    var kids := Kids(keys, root, dn);
    KidTrees(nodes, keys, root, dn);
    NodesAreKeys(nodes, keys);
    hide TreeOf, Longest, Dict, Under, Kids, Flat, AttachedTo;
    forall w | w in WritesAll(t.children, dn) ensures w.dn != dn {
      FlatForest(t.children, kids, dn, w);
      var i :| 0 <= i < |kids| && w in Flat(t.children[i], kids[i]);
      ReachedExactly(nodes, keys, root, kids[i], w);
      UnderLonger(nodes, kids[i], w.dn);
    }
  }

  // ---- Rebuilding from the flattened tree

  /** Trees with the same objects and the same children lists are the same. */
  lemma {:induction false} SameChildrenSameTree(nodes: Objects, keys: seq<string>, nodes2: Objects, keys2: seq<string>, root: string, dn: string)
    requires Dict(nodes, keys) && Dict(nodes2, keys2) && dn in nodes && dn in nodes2
    requires forall d :: Under(nodes, dn, d) ==> d in nodes2 && nodes2[d] == nodes[d] && Kids(keys2, root, d) == Kids(keys, root, d)
    ensures TreeOf(nodes2, keys2, root, dn) == TreeOf(nodes, keys, root, dn)
    decreases Longest(keys) - |dn|
  {
    KidTrees(nodes, keys, root, dn);
    KidTrees(nodes2, keys2, root, dn);
    var t, t2 := TreeOf(nodes, keys, root, dn), TreeOf(nodes2, keys2, root, dn);
    var kids := Kids(keys, root, dn);
    assert Under(nodes, dn, dn);
    hide TreeOf, Longest, Kids, Dict;
    forall i | 0 <= i < |kids| ensures t.children[i] == t2.children[i] {
      assert Under(nodes, dn, kids[i]);
      forall d | Under(nodes, kids[i], d) ensures Under(nodes, dn, d) { UnderTransitive(nodes, dn, kids[i], d); }
      SameChildrenSameTree(nodes, keys, nodes2, keys2, root, kids[i]);
    }
    assert t.children == t2.children;
  }

  function Concat(parts: seq<seq<string>>): seq<string> {
    if parts == [] then [] else parts[0] + Concat(parts[1..])
  }

  lemma {:induction false} ConcatOnly(parts: seq<seq<string>>, j: nat)
    requires j < |parts| && forall i :: 0 <= i < |parts| && i != j ==> parts[i] == []
    ensures Concat(parts) == parts[j]
  {
    if j == 0 {
      ConcatNothing(parts[1..]);
    } else {
      ConcatOnly(parts[1..], j - 1);
    }
  }

  lemma {:induction false} ConcatNothing(parts: seq<seq<string>>)
    requires forall i :: 0 <= i < |parts| ==> parts[i] == []
    ensures Concat(parts) == []
  {
    if parts != [] { ConcatNothing(parts[1..]); }
  }

  lemma {:induction false} ConcatSingles(parts: seq<seq<string>>, s: seq<string>)
    requires |parts| == |s| && forall i :: 0 <= i < |parts| ==> parts[i] == [s[i]]
    ensures Concat(parts) == s
  {
    if s != [] { ConcatSingles(parts[1..], s[1..]); }
  }

  /** The children lists of a flattened forest, tree by tree. */
  lemma {:induction false} KidsOfForest(ts: seq<Env>, dns: seq<string>, p: string, root: string, d: string, parts: seq<seq<string>>)
    requires |ts| == |dns| == |parts| && p != ""
    requires forall i :: 0 <= i < |ts| ==> Child(p, ts[i].rn) == dns[i]
    requires forall i :: 0 <= i < |ts| ==> Kids(DnsOf(Flat(ts[i], dns[i])), root, d) == parts[i]
    ensures Kids(DnsOf(WritesAll(ts, p)), root, d) == Concat(parts)
  {
    if ts != [] {
      KidsOfForest(ts[1..], dns[1..], p, root, d, parts[1..]);
      assert Writes(ts[0], p) == Flat(ts[0], dns[0]);
      DnsOfConcat(Flat(ts[0], dns[0]), WritesAll(ts[1..], p));
      KidsConcat(DnsOf(Flat(ts[0], dns[0])), DnsOf(WritesAll(ts[1..], p)), root, d);
    }
  }

  /** The children list of `d` as the flattened tree of `dn` shows it. */
  ghost function Shown(nodes: Objects, keys: seq<string>, root: string, dn: string, d: string): seq<string>
    requires Dict(nodes, keys) && dn in nodes
  {
    Kids(DnsOf(Flat(TreeOf(nodes, keys, root, dn), dn)), root, d)
  }

  lemma ShownFromKids(nodes: Objects, keys: seq<string>, root: string, dn: string, d: string, parts: seq<seq<string>>)
    requires Dict(nodes, keys) && dn in nodes && |dn| <= |d| && |parts| == |Kids(keys, root, dn)|
    requires forall i :: 0 <= i < |parts| ==>
               Kids(keys, root, dn)[i] in nodes && parts[i] == Shown(nodes, keys, root, Kids(keys, root, dn)[i], d)
    ensures Shown(nodes, keys, root, dn, d) == Concat(parts)
  {
    var t := TreeOf(nodes, keys, root, dn);
    KidTrees(nodes, keys, root, dn);
    NodesAreKeys(nodes, keys);
    hide TreeOf, Longest, Kids, Dict, AttachedTo, Flat, DnsOf;
    KidsOfForest(t.children, Kids(keys, root, dn), dn, root, d, parts);
    TopHasNoParentBelow(t, root, dn, d);
  }

  /** The children list of `d` read off the flattened tree is the one it was built with. */
  lemma {:induction false} KidsOfFlat(nodes: Objects, keys: seq<string>, root: string, dn: string, d: string)
    requires Dict(nodes, keys) && dn in nodes && |root| <= |dn| && Under(nodes, dn, d)
    ensures Shown(nodes, keys, root, dn, d) == Kids(keys, root, d)
    decreases Longest(keys) - |dn|
  {
    var kids := Kids(keys, root, dn);
    KidTrees(nodes, keys, root, dn);
    NodesAreKeys(nodes, keys);
    UnderLonger(nodes, dn, d);
    hide TreeOf, Longest, Kids, Dict, Flat, DnsOf, Shown;
    var parts := seq(|kids|, i requires 0 <= i < |kids| => Shown(nodes, keys, root, kids[i], d));
    ShownFromKids(nodes, keys, root, dn, d, parts);
    if d == dn {
      forall i | 0 <= i < |kids| ensures parts[i] == [kids[i]] {
        assert !Under(nodes, kids[i], d) by { if Under(nodes, kids[i], d) { UnderLonger(nodes, kids[i], d); } }
        OnlyTop(nodes, keys, root, dn, kids[i], d);
      }
      ConcatSingles(parts, kids);
    } else {
      var kid := UnderSomeKid(nodes, keys, root, dn, d);
      var j :| 0 <= j < |kids| && kids[j] == kid;
      KidsOfFlat(nodes, keys, root, kid, d);
      forall i | 0 <= i < |kids| && i != j ensures parts[i] == [] {
        NotUnderSibling(nodes, root, dn, kids, i, j, d);
        OnlyTop(nodes, keys, root, dn, kids[i], d);
      }
      ConcatOnly(parts, j);
    }
  }

  lemma NotUnderSibling(nodes: Objects, root: string, p: string, kids: seq<string>, i: nat, j: nat, d: string)
    requires NoRepeat(kids) && i < |kids| && j < |kids| && i != j
    requires AttachedTo(root, p, kids[i]) && AttachedTo(root, p, kids[j]) && Under(nodes, kids[j], d)
    ensures !Under(nodes, kids[i], d)
  {
    if Under(nodes, kids[i], d) { ReadSiblingsApart(nodes, root, p, kids[i], kids[j], d); }
  }

  lemma TopHasNoParentBelow(t: Env, root: string, dn: string, d: string)
    requires |dn| <= |d|
    ensures Kids(DnsOf(Flat(t, dn)), root, d) == Kids(DnsOf(WritesAll(t.children, dn)), root, d)
  {
    var top := Write(dn, t.cls, t.attrs);
    DnsOfConcat([top], WritesAll(t.children, dn));
    KidsConcat(DnsOf([top]), DnsOf(WritesAll(t.children, dn)), root, d);
    if AttachedTo(root, d, dn) { AttachedLonger(root, d, dn); }
    assert forall k :: k in Kids(DnsOf([top]), root, d) ==> k == dn;
    if Kids(DnsOf([top]), root, d) != [] { HasFirst(Kids(DnsOf([top]), root, d)); }
  }

  /** What hangs from `d` in the tree of `kid`. */
  lemma ShownMembers(nodes: Objects, keys: seq<string>, root: string, kid: string, d: string, k: string)
    requires Dict(nodes, keys) && kid in nodes && |root| <= |kid|
    ensures k in Shown(nodes, keys, root, kid, d) <==> Under(nodes, kid, k) && AttachedTo(root, d, k)
  {
    var ws := Flat(TreeOf(nodes, keys, root, kid), kid);
    hide TreeOf, Flat, Dict, Under, AttachedTo;
    if k in DnsOf(ws) {
      var i :| 0 <= i < |ws| && ws[i].dn == k;
      assert ws[i] in ws;
      ReachedExactly(nodes, keys, root, kid, ws[i]);
    }
    if Under(nodes, kid, k) {
      assert k in nodes by { UnderKnown(nodes, kid, k); }
      var w := Write(k, nodes[k].cls, nodes[k].attrs);
      ReachedExactly(nodes, keys, root, kid, w);
      var i :| 0 <= i < |ws| && ws[i] == w;
      assert DnsOf(ws)[i] == k;
    }
  }

  lemma UnderKnown(nodes: Objects, top: string, dn: string)
    requires Under(nodes, top, dn)
    ensures dn in nodes
  {
  }

  lemma ShownOnce(nodes: Objects, keys: seq<string>, root: string, kid: string, d: string)
    requires Dict(nodes, keys) && kid in nodes && |root| <= |kid|
    ensures NoRepeat(Shown(nodes, keys, root, kid, d))
  {
    ReachedOnce(nodes, keys, root, kid);
    hide TreeOf, Flat, Dict;
    assert NoRepeat(DnsOf(Flat(TreeOf(nodes, keys, root, kid), kid)));
  }

  lemma AtMostOne(s: seq<string>, x: string)
    requires NoRepeat(s) && forall y :: y in s ==> y == x
    ensures s == if x in s then [x] else []
  {
    assert s != [] ==> s[0] in s && s[|s| - 1] in s;
  }

  /** Read off the tree of `kid`, an object above it or beside it has at most `kid` as a child. */
  lemma OnlyTop(nodes: Objects, keys: seq<string>, root: string, p: string, kid: string, d: string)
    requires Dict(nodes, keys) && kid in nodes && AttachedTo(root, p, kid) && |root| <= |p|
    requires !Under(nodes, kid, d)
    ensures Shown(nodes, keys, root, kid, d) == if d == p then [kid] else []
  {
    AttachedLonger(root, p, kid);
    hide Shown, Dict;
    forall k ensures k in Shown(nodes, keys, root, kid, d) <==> k == kid && d == p {
      ShownMembers(nodes, keys, root, kid, d, k);
    }
    ShownOnce(nodes, keys, root, kid, d);
    AtMostOne(Shown(nodes, keys, root, kid, d), kid);
  }

  // ---- The read as a whole

  ghost predicate AllNamed(items: seq<Write>) {
    forall w :: w in items ==> w.dn != ""
  }

  lemma ReadIsDict(items: seq<Write>)
    requires AllNamed(items)
    ensures Dict(NodesOf(items), KeysOf(DnsOf(items)))
  {
    assert forall i :: 0 <= i < |items| ==> items[i] in items;
  }

  lemma {:induction false} DistinctNode(items: seq<Write>, i: nat)
    requires DistinctDns(items) && i < |items|
    ensures items[i].dn in NodesOf(items) && NodesOf(items)[items[i].dn] == Obj(items[i].cls, items[i].attrs)
  {
    var n := |items| - 1;
    if i < n {
      assert DistinctDns(items[..n]) && items[..n][i] == items[i];
      DistinctNode(items[..n], i);
    }
  }

  lemma DistinctNodes(items: seq<Write>, w: Write)
    requires DistinctDns(items) && w in items
    ensures w.dn in NodesOf(items) && NodesOf(items)[w.dn] == Obj(w.cls, w.attrs)
  {
    var i :| 0 <= i < |items| && items[i] == w;
    DistinctNode(items, i);
  }

  /** Reading a flattened tree back rebuilds it, children in the same order. */
  lemma RebuildsFlattened(items: seq<Write>, root: string)
    requires AllNamed(items) && Rebuilt(items, root).Some?
    ensures Rebuilt(Flat(Rebuilt(items, root).value, root), root) == Rebuilt(items, root)
  {
    var nodes, keys := NodesOf(items), KeysOf(DnsOf(items));
    ReadIsDict(items);
    var again := Flat(TreeOf(nodes, keys, root, root), root);
    ReachedOnce(nodes, keys, root, root);
    AgainIsDict(nodes, keys, root);
    KeysOfOnce(DnsOf(again));
    hide TreeOf, Kids, Dict, Under, NodesOf, KeysOf, Flat;
    forall d | Under(nodes, root, d)
      ensures d in NodesOf(again) && NodesOf(again)[d] == nodes[d]
      ensures Kids(DnsOf(again), root, d) == Kids(keys, root, d)
    {
      AgainHolds(nodes, keys, root, d);
      KidsOfFlat(nodes, keys, root, root, d);
    }
    assert Under(nodes, root, root) by { RootUnderItself(nodes, root); }
    SameChildrenSameTree(nodes, keys, NodesOf(again), DnsOf(again), root, root);
  }

  lemma RootUnderItself(nodes: Objects, root: string)
    requires root in nodes
    ensures Under(nodes, root, root)
  {
  }

  lemma AgainHolds(nodes: Objects, keys: seq<string>, root: string, d: string)
    requires Dict(nodes, keys) && root in nodes && Under(nodes, root, d)
    ensures var again := Flat(TreeOf(nodes, keys, root, root), root);
            d in NodesOf(again) && d in nodes && NodesOf(again)[d] == nodes[d]
  {
    var again := Flat(TreeOf(nodes, keys, root, root), root);
    hide TreeOf, Dict, Flat, NodesOf;
    var w := Write(d, nodes[d].cls, nodes[d].attrs);
    ReachedOnce(nodes, keys, root, root);
    ReachedExactly(nodes, keys, root, root, w);
    DistinctNodes(again, w);
  }

  lemma AgainIsDict(nodes: Objects, keys: seq<string>, root: string)
    requires Dict(nodes, keys) && root in nodes
    ensures var again := Flat(TreeOf(nodes, keys, root, root), root);
            Dict(NodesOf(again), DnsOf(again))
  {
    var again := Flat(TreeOf(nodes, keys, root, root), root);
    ReachedOnce(nodes, keys, root, root);
    NodesAreKeys(nodes, keys);
    hide TreeOf, Flat, Under;
    assert AllNamed(again) by {
      forall w | w in again ensures w.dn != "" {
        ReachedExactly(nodes, keys, root, root, w);
        UnderKnown(nodes, root, w.dn);
      }
    }
    ReadIsDict(again);
    KeysOfOnce(DnsOf(again));
  }
}
