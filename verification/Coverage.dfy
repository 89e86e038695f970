/** What a snapshot contains: pruning is exact and no kept object is lost (`snapshot.py`). */
module Coverage {
  import opened Text
  import opened Dn
  import opened Store
  import opened Rebuild
  import opened Canonical
  import opened Universe
  import opened Snapshot
  import C = Compiler

  // ---- Sorting keeps the objects

  lemma {:induction false} InsertWrites(t: Env, ts: seq<Env>, p: string, w: Write)
    ensures w in WritesAll(InsertTree(t, ts), p) <==> w in Writes(t, p) || w in WritesAll(ts, p)
  {
    hide Writes;
    if ts == [] || KeyLe(t, ts[0]) {
      assert ([t] + ts)[1..] == ts;
    } else {
      InsertWrites(t, ts[1..], p, w);
      assert ([ts[0]] + InsertTree(t, ts[1..]))[1..] == InsertTree(t, ts[1..]);
    }
  }

  lemma {:induction false} SortWrites(t: Env, p: string, w: Write)
    ensures w in Writes(SortTree(t), p) <==> w in Writes(t, p)
    decreases t, 0
  {
    SortForestWrites(t.children, EnvDn(t, p), w);
  }

  lemma {:induction false} SortForestWrites(ts: seq<Env>, p: string, w: Write)
    ensures w in WritesAll(SortForest(ts), p) <==> w in WritesAll(ts, p)
    decreases ts
  {
    if ts != [] {
      SortWrites(ts[0], p, w);
      SortForestWrites(ts[1..], p, w);
      InsertWrites(SortTree(ts[0]), SortForest(ts[1..]), p, w);
    }
  }

  lemma SortedHoldsTheSame(t: Env, dn: string, w: Write)
    ensures w in Flat(SortTree(t), dn) <==> w in Flat(t, dn)
  {
    SortForestWrites(t.children, dn, w);
  }

  // ---- Pruning

  /** An object of a kept class is at or below `dn`. */
  ghost predicate Shelters(nodes: Objects, keep: set<string>, dn: string) {
    exists e :: Under(nodes, dn, e) && nodes[e].cls in keep
  }

  /** The pruned tree survives, and holds the write. */
  ghost predicate SurvivesWith(keep: set<string>, t: Env, dn: string, w: Write) {
    Survivor(keep, Prune(keep, t)) != [] && w in Flat(Prune(keep, t), dn)
  }

  ghost predicate SomeWith(keep: set<string>, ts: seq<Env>, dns: seq<string>, w: Write)
    requires |ts| == |dns|
  {
    exists i :: 0 <= i < |ts| && SurvivesWith(keep, ts[i], dns[i], w)
  }

  ghost predicate SomeSurvives(keep: set<string>, ts: seq<Env>) {
    exists i :: 0 <= i < |ts| && Survivor(keep, Prune(keep, ts[i])) != []
  }

  lemma FirstOrLater(keep: set<string>, ts: seq<Env>, dns: seq<string>, w: Write)
    requires |ts| == |dns| > 0
    ensures SomeWith(keep, ts, dns, w) <==> SurvivesWith(keep, ts[0], dns[0], w) || SomeWith(keep, ts[1..], dns[1..], w)
    ensures SomeSurvives(keep, ts) <==> Survivor(keep, Prune(keep, ts[0])) != [] || SomeSurvives(keep, ts[1..])
  {
    hide SurvivesWith, Survivor, Prune;
    assert forall i :: 0 <= i < |ts| - 1 ==> ts[1..][i] == ts[i + 1] && dns[1..][i] == dns[i + 1];
    assert forall i :: 0 < i < |ts| ==> ts[i] == ts[1..][i - 1] && dns[i] == dns[1..][i - 1];
  }

  lemma {:induction false} PrunedForest(keep: set<string>, ts: seq<Env>, dns: seq<string>, p: string, w: Write)
    requires |ts| == |dns| && p != "" && forall i :: 0 <= i < |ts| ==> Child(p, ts[i].rn) == dns[i]
    ensures w in WritesAll(PruneAll(keep, ts), p) <==> SomeWith(keep, ts, dns, w)
    ensures PruneAll(keep, ts) != [] <==> SomeSurvives(keep, ts)
  {
    if ts != [] {
      hide *;
      assert ts == [ts[0]] + ts[1..];
      PrunedForest(keep, ts[1..], dns[1..], p, w);
      PrunedFirst(keep, ts[0], ts[1..], p, dns[0], w);
      FirstOrLater(keep, ts, dns, w);
    }
  }

  lemma PrunedFirst(keep: set<string>, first: Env, rest: seq<Env>, p: string, dn: string, w: Write)
    requires p != "" && Child(p, first.rn) == dn
    ensures w in WritesAll(PruneAll(keep, [first] + rest), p) <==>
            SurvivesWith(keep, first, dn, w) || w in WritesAll(PruneAll(keep, rest), p)
    ensures PruneAll(keep, [first] + rest) != [] <==> Survivor(keep, Prune(keep, first)) != [] || PruneAll(keep, rest) != []
  {
    hide Prune, Survivor;
    PruneStep(keep, first, rest);
    if Survivor(keep, Prune(keep, first)) != [] { FirstWrites(Prune(keep, first), PruneAll(keep, rest), p, dn); }
  }

  lemma FirstWrites(t: Env, ts: seq<Env>, p: string, dn: string)
    requires p != "" && Child(p, t.rn) == dn
    ensures WritesAll([t] + ts, p) == Flat(t, dn) + WritesAll(ts, p)
  {
    assert ([t] + ts)[1..] == ts;
  }

  ghost predicate PrunedRight(nodes: Objects, keys: seq<string>, keep: set<string>, root: string, dn: string, w: Write)
    requires Dict(nodes, keys) && dn in nodes
  {
    var pruned := Prune(keep, TreeOf(nodes, keys, root, dn));
    && (Survivor(keep, pruned) != [] <==> Shelters(nodes, keep, dn))
    && (w in Flat(pruned, dn) <==>
        Under(nodes, dn, w.dn) && nodes[w.dn] == Obj(w.cls, w.attrs) && (w.dn == dn || Shelters(nodes, keep, w.dn)))
  }

  lemma ShelterAbove(nodes: Objects, keep: set<string>, dn: string, kid: string)
    requires Under(nodes, dn, kid) && Shelters(nodes, keep, kid)
    ensures Shelters(nodes, keep, dn)
  {
    var e :| Under(nodes, kid, e) && nodes[e].cls in keep;
    UnderTransitive(nodes, dn, kid, e);
  }

  lemma ShelterBelow(nodes: Objects, keys: seq<string>, keep: set<string>, root: string, dn: string) returns (kid: string)
    requires Dict(nodes, keys) && dn in nodes && |root| <= |dn|
    requires Shelters(nodes, keep, dn) && nodes[dn].cls !in keep
    ensures kid in Kids(keys, root, dn) && Shelters(nodes, keep, kid)
  {
    var e :| Under(nodes, dn, e) && nodes[e].cls in keep;
    kid := UnderSomeKid(nodes, keys, root, dn, e);
  }

  /** One child of the pruned tree, given what is known of its own subtree. */
  lemma KidRight(nodes: Objects, keys: seq<string>, keep: set<string>, root: string, dn: string, i: nat, w: Write)
    requires Dict(nodes, keys) && dn in nodes && i < |Kids(keys, root, dn)|
    requires Kids(keys, root, dn)[i] in nodes && PrunedRight(nodes, keys, keep, root, Kids(keys, root, dn)[i], w)
    ensures i < |TreeOf(nodes, keys, root, dn).children|
    ensures var pruned, kid := Prune(keep, TreeOf(nodes, keys, root, dn).children[i]), Kids(keys, root, dn)[i];
            && Under(nodes, dn, kid)
            && (Survivor(keep, pruned) != [] <==> Shelters(nodes, keep, kid))
            && (w in Flat(pruned, kid) <==>
                Under(nodes, kid, w.dn) && nodes[w.dn] == Obj(w.cls, w.attrs) && (w.dn == kid || Shelters(nodes, keep, w.dn)))
  {
    KidTrees(nodes, keys, root, dn);
    hide TreeOf, Kids, Prune, Survivor, Flat, Longest;
  }

  lemma TopRight(nodes: Objects, keys: seq<string>, keep: set<string>, root: string, dn: string, w: Write)
    requires Dict(nodes, keys) && dn in nodes && |root| <= |dn|
    requires forall k :: k in Kids(keys, root, dn) ==> PrunedRight(nodes, keys, keep, root, k, w)
    ensures Survivor(keep, Prune(keep, TreeOf(nodes, keys, root, dn))) != [] <==> Shelters(nodes, keep, dn)
  {
    var t, kids := TreeOf(nodes, keys, root, dn), Kids(keys, root, dn);
    KidTrees(nodes, keys, root, dn);
    NodesAreKeys(nodes, keys);
    PrunedForest(keep, t.children, kids, dn, w);
    assert Survivor(keep, Prune(keep, t)) != [] <==> t.cls in keep || PruneAll(keep, t.children) != [];
    hide TreeOf, Kids, Longest, Prune, PruneAll, Survivor, Flat, PrunedRight, Shelters;
    forall i | 0 <= i < |kids|
      ensures Survivor(keep, Prune(keep, t.children[i])) != [] <==> Shelters(nodes, keep, kids[i])
      ensures Shelters(nodes, keep, kids[i]) ==> Shelters(nodes, keep, dn)
    {
      assert kids[i] in kids;
      KidRight(nodes, keys, keep, root, dn, i, w);
      if Shelters(nodes, keep, kids[i]) { ShelterAbove(nodes, keep, dn, kids[i]); }
    }
    if t.cls in keep { KeptShelters(nodes, keep, dn); }
    if Shelters(nodes, keep, dn) && t.cls !in keep {
      var kid := ShelterBelow(nodes, keys, keep, root, dn);
      var i :| 0 <= i < |kids| && kids[i] == kid;
    }
  }

  lemma KeptShelters(nodes: Objects, keep: set<string>, dn: string)
    requires dn in nodes && nodes[dn].cls in keep
    ensures Shelters(nodes, keep, dn)
  {
    assert Under(nodes, dn, dn);
  }

  lemma BelowRight(nodes: Objects, keys: seq<string>, keep: set<string>, root: string, dn: string, w: Write)
    requires Dict(nodes, keys) && dn in nodes && |root| <= |dn|
    requires forall k :: k in Kids(keys, root, dn) ==> PrunedRight(nodes, keys, keep, root, k, w)
    ensures w in WritesAll(PruneAll(keep, TreeOf(nodes, keys, root, dn).children), dn) <==>
            Under(nodes, dn, w.dn) && nodes[w.dn] == Obj(w.cls, w.attrs) && w.dn != dn && Shelters(nodes, keep, w.dn)
  {
    var t, kids := TreeOf(nodes, keys, root, dn), Kids(keys, root, dn);
    var found := w in WritesAll(PruneAll(keep, t.children), dn);
    KidTrees(nodes, keys, root, dn);
    NodesAreKeys(nodes, keys);
    PrunedForest(keep, t.children, kids, dn, w);
    hide TreeOf, Longest, Prune, PruneAll, Survivor, Flat, PrunedRight, Shelters, Under, Kids, WritesAll;
    if found {
      var i :| 0 <= i < |kids| && SurvivesWith(keep, t.children[i], kids[i], w);
      assert kids[i] in kids;
      KidRight(nodes, keys, keep, root, dn, i, w);
      UnderTransitive(nodes, dn, kids[i], w.dn);
      UnderLonger(nodes, kids[i], w.dn);
    }
    if Under(nodes, dn, w.dn) && nodes[w.dn] == Obj(w.cls, w.attrs) && w.dn != dn && Shelters(nodes, keep, w.dn) {
      var kid := UnderSomeKid(nodes, keys, root, dn, w.dn);
      var i :| 0 <= i < |kids| && kids[i] == kid;
      assert kids[i] in kids;
      KidRight(nodes, keys, keep, root, dn, i, w);
      ShelterAbove(nodes, keep, kid, w.dn);
    }
  }

  /** Pruning keeps exactly the objects at or above one of a kept class, and the top. */
  lemma {:induction false} PruneIsExact(nodes: Objects, keys: seq<string>, keep: set<string>, root: string, dn: string, w: Write)
    requires Dict(nodes, keys) && dn in nodes && |root| <= |dn|
    ensures PrunedRight(nodes, keys, keep, root, dn, w)
    decreases Longest(keys) - |dn|
  {
    var t := TreeOf(nodes, keys, root, dn);
    forall k | k in Kids(keys, root, dn) ensures PrunedRight(nodes, keys, keep, root, k, w) {
      AttachedLonger(root, dn, k);
      PruneIsExact(nodes, keys, keep, root, k, w);
    }
    TopRight(nodes, keys, keep, root, dn, w);
    BelowRight(nodes, keys, keep, root, dn, w);
    hide TreeOf, Kids, Longest, Shelters, Survivor, PruneAll, WritesAll, Dict;
    assert Flat(Prune(keep, t), dn) == [Write(dn, t.cls, t.attrs)] + WritesAll(PruneAll(keep, t.children), dn);
    assert Under(nodes, dn, dn);
  }

  /** The final tree holds the scope and every read object at or above one of a kept class, no other. */
  lemma FinalTreeIsExact(cat: Catalogue, keep: set<string>, items: seq<Write>, scope: string, w: Write)
    requires scope != "" && FinalTree(cat, keep, items, scope).Some?
    ensures var nodes := NodesOf(Usable(cat, items));
            w in Flat(FinalTree(cat, keep, items, scope).value, scope) <==>
            Under(nodes, scope, w.dn) && nodes[w.dn] == Obj(w.cls, w.attrs) && (w.dn == scope || Shelters(nodes, keep, w.dn))
  {
    var usable := Usable(cat, items);
    var nodes, keys := NodesOf(usable), KeysOf(DnsOf(usable));
    ReadIsDict(usable);
    PruneIsExact(nodes, keys, keep, scope, scope, w);
    SortedHoldsTheSame(Prune(keep, TreeOf(nodes, keys, scope, scope)), scope, w);
  }

  /** An object of a dictionary is one of the items it was read from. */
  lemma {:induction false} NodeIsItem(items: seq<Write>, dn: string)
    requires dn in NodesOf(items)
    ensures Write(dn, NodesOf(items)[dn].cls, NodesOf(items)[dn].attrs) in items
  {
    var n := |items| - 1;
    assert items == items[..n] + [items[n]];
    if dn != items[n].dn { NodeIsItem(items[..n], dn); }
  }

  /** A capture holds, of a class the catalogue knows, configurable properties only, and no secret value. */
  lemma CaptureHoldsNoSecret(cat: Catalogue, keep: set<string>, items: seq<Write>, scope: string, w: Write, wire: string)
    requires scope != "" && FinalTree(cat, keep, items, scope).Some?
    requires w in Flat(FinalTree(cat, keep, items, scope).value, scope) && w.cls in cat.flags && wire in w.attrs
    ensures wire in cat.flags[w.cls] && cat.flags[w.cls][wire].configurable
    ensures Secret(cat, w.cls, wire) ==> w.attrs[wire] == REDACTED
  {
    var usable := Usable(cat, items);
    FinalTreeIsExact(cat, keep, items, scope, w);
    UnderKnown(NodesOf(usable), scope, w.dn);
    hide FinalTree, NodesOf, Under, Secret;
    NodeIsItem(usable, w.dn);
    var v :| v in items && v.dn != "" && w == NormaliseItem(cat, v);
    SecretsRedacted(cat, v.cls, v.attrs, wire);
  }

  /** What is shown of an object read: configurable attributes when the catalogue knows the class, secrets redacted. */
  ghost predicate ShownAs(cat: Catalogue, read: Write, shown: Write) {
    && shown.dn == read.dn && shown.cls == read.cls
    && if read.cls !in cat.flags then shown.attrs == read.attrs
       else
         && (forall wire :: wire in shown.attrs <==>
               wire in read.attrs && wire in cat.flags[read.cls] && cat.flags[read.cls][wire].configurable)
         && (forall wire :: wire in shown.attrs ==>
               shown.attrs[wire] == if cat.flags[read.cls][wire].secure || (read.cls, wire) in cat.secretPositions
                                    then "<redacted>" else read.attrs[wire])
  }

  lemma NormalisedIsShown(cat: Catalogue, v: Write)
    ensures ShownAs(cat, v, NormaliseItem(cat, v))
  {
  }

  /** The last item read at this DN. */
  ghost predicate LastRead(items: seq<Write>, i: nat, dn: string) {
    i < |items| && items[i].dn == dn && forall k :: i < k < |items| ==> items[k].dn != dn
  }

  ghost predicate ReadThere(cat: Catalogue, items: seq<Write>, dn: string, w: Write) {
    dn in NodesOf(Usable(cat, items)) && Write(dn, NodesOf(Usable(cat, items))[dn].cls, NodesOf(Usable(cat, items))[dn].attrs) == w
  }

  /** The last item settles its own DN and no other. */
  lemma ReadStep(cat: Catalogue, init: seq<Write>, last: Write, dn: string, w: Write)
    requires dn != ""
    ensures ReadThere(cat, init + [last], dn, w) <==> if last.dn == dn then w == NormaliseItem(cat, last) else ReadThere(cat, init, dn, w)
  {
    var items := init + [last];
    assert items[..|items| - 1] == init;
    NormaliseKeepsDn(cat, last);
    hide NormaliseItem;
    if last.dn != "" {
      var usable := Usable(cat, items);
      assert usable == Usable(cat, init) + [NormaliseItem(cat, last)];
      assert usable[..|usable| - 1] == Usable(cat, init);
    }
  }

  lemma {:induction false} ReadLast(cat: Catalogue, items: seq<Write>, dn: string, w: Write) returns (i: nat)
    requires dn != "" && ReadThere(cat, items, dn, w)
    ensures LastRead(items, i, dn) && w == NormaliseItem(cat, items[i])
  {
    assert Usable(cat, []) == [] && NodesOf([]) == map[];
    hide ReadThere, NormaliseItem;
    var n := |items| - 1;
    var init, last := items[..n], items[n];
    assert items == init + [last];
    ReadStep(cat, init, last, dn, w);
    if last.dn == dn {
      i := n;
    } else {
      i := ReadLast(cat, init, dn, w);
      assert forall k :: 0 <= k < n ==> init[k] == items[k];
    }
  }

  lemma NormaliseKeepsDn(cat: Catalogue, w: Write)
    ensures NormaliseItem(cat, w).dn == w.dn
  {
  }

  /** Each object of a capture shows the last item read at its DN. */
  lemma CaptureShows(cat: Catalogue, keep: set<string>, items: seq<Write>, scope: string, w: Write)
    requires scope != "" && FinalTree(cat, keep, items, scope).Some?
    requires w in Flat(FinalTree(cat, keep, items, scope).value, scope)
    ensures exists i: nat :: LastRead(items, i, w.dn) && ShownAs(cat, items[i], w)
  {
    FinalTreeIsExact(cat, keep, items, scope, w);
    UnderKnown(NodesOf(Usable(cat, items)), scope, w.dn);
    UnderNamed(cat, items, w.dn);
    assert ReadThere(cat, items, w.dn, w);
    hide *;
    var i := ReadLast(cat, items, w.dn, w);
    assert i < |items| by { LastIndex(items, i, w.dn); }
    NormalisedIsShown(cat, items[i]);
  }

  lemma UnderNamed(cat: Catalogue, items: seq<Write>, dn: string)
    requires dn in NodesOf(Usable(cat, items))
    ensures dn != ""
  {
    NodeIsItem(Usable(cat, items), dn);
  }

  lemma LastIndex(items: seq<Write>, i: nat, dn: string)
    requires LastRead(items, i, dn)
    ensures i < |items|
  {
  }

  // ---- What the capture accounts for

  function ClassesOf(ws: seq<Write>): (r: seq<string>)
    ensures |r| == |ws| && forall i :: 0 <= i < |r| ==> r[i] == ws[i].cls
  {
    seq(|ws|, i requires 0 <= i < |ws| => ws[i].cls)
  }

  lemma {:induction false} InstancesKept(keep: set<string>, scope: string, ws: seq<Write>, cls: string)
    requires cls in keep
    ensures Instances(keep, scope, ws, cls) == multiset(ClassesOf(ws))[cls]
  {
    if ws != [] {
      var init := ws[..|ws| - 1];
      InstancesKept(keep, scope, init, cls);
      assert ClassesOf(ws) == ClassesOf(init) + [ws[|ws| - 1].cls];
    }
  }

  lemma {:induction false} InstancesOther(keep: set<string>, scope: string, ws: seq<Write>, cls: string)
    requires cls !in keep && ws != [] && ws[0].dn == scope && forall i :: 0 < i < |ws| ==> ws[i].dn != scope
    ensures Instances(keep, scope, ws, cls) == if ws[0].cls == cls then 1 else 0
    decreases |ws|
  {
    if |ws| > 1 {
      InstancesOther(keep, scope, ws[..|ws| - 1], cls);
    } else {
      assert ws[..0] == [];
    }
  }

  lemma {:induction false} WarningsSay(cat: Catalogue, ws: seq<Write>, x: string)
    ensures x in Warnings(cat, ws) <==>
            exists w :: w in ws && w.cls in cat.secretDnClasses &&
              x == w.dn + ": the DN of a " + w.cls + " carries a secret in its naming property; it cannot be redacted in place"
  {
    if ws != [] {
      WarningsSay(cat, ws[..|ws| - 1], x);
      assert ws == ws[..|ws| - 1] + [ws[|ws| - 1]];
    }
  }

  /**
   * The coverage counts every object of a kept class, and the scope whatever its class; the warnings name
   * the objects whose DN carries a secret. Both speak of the final tree alone.
   */
  lemma CaptureAccounts(cat: Catalogue, keep: set<string>, scope: string, items: seq<Write>, capture: Capture, cls: string, x: string)
    requires scope != "" && Captures(cat, keep, scope, items, capture) && capture.tree.Some?
    ensures var ws := Flat(capture.tree.value, scope);
            && (cls in keep ==> Count(capture.coverage, cls) == multiset(ClassesOf(ws))[cls])
            && (cls !in keep ==> Count(capture.coverage, cls) == if capture.tree.value.cls == cls then 1 else 0)
            && (cls in capture.coverage ==> capture.coverage[cls] > 0)
            && (x in capture.warnings <==>
                exists w :: w in ws && w.cls in cat.secretDnClasses &&
                  x == w.dn + ": the DN of a " + w.cls + " carries a secret in its naming property; it cannot be redacted in place")
  {
    var t, ws := capture.tree.value, Flat(capture.tree.value, scope);
    assert Accounted(cat, keep, scope, ws, capture);
    hide *;
    CountsOf(cat, keep, scope, ws, capture, cls);
    WarnsOf(cat, keep, scope, ws, capture, x);
    if cls in keep {
      InstancesKept(keep, scope, ws, cls);
    } else {
      ScopeIsFirst(t, scope);
      InstancesOther(keep, scope, ws, cls);
    }
  }

  lemma CountsOf(cat: Catalogue, keep: set<string>, scope: string, ws: seq<Write>, capture: Capture, cls: string)
    requires Accounted(cat, keep, scope, ws, capture)
    ensures Count(capture.coverage, cls) == Instances(keep, scope, ws, cls)
    ensures cls in capture.coverage ==> capture.coverage[cls] > 0
  {
  }

  lemma WarnsOf(cat: Catalogue, keep: set<string>, scope: string, ws: seq<Write>, capture: Capture, x: string)
    requires Accounted(cat, keep, scope, ws, capture)
    ensures x in capture.warnings <==>
            exists w :: w in ws && w.cls in cat.secretDnClasses &&
              x == w.dn + ": the DN of a " + w.cls + " carries a secret in its naming property; it cannot be redacted in place"
  {
    WarningsSay(cat, ws, x);
    assert x in capture.warnings <==> x in multiset(capture.warnings);
    assert x in Warnings(cat, ws) <==> x in multiset(Warnings(cat, ws));
  }

  lemma ScopeIsFirst(t: Env, scope: string)
    requires scope != ""
    ensures var ws := Flat(t, scope); ws != [] && ws[0].dn == scope && ws[0].cls == t.cls && forall i :: 0 < i < |ws| ==> ws[i].dn != scope
  {
    var ws := Flat(t, scope);
    C.AllWritesBelow(t.children, scope);
    forall i | 0 < i < |ws| ensures ws[i].dn != scope { assert ws[i] in WritesAll(t.children, scope); }
  }

  // ---- No kept object is lost

  /** The request universe, as `SnapshotUniverse` computes it. */
  ghost predicate Requests(childMap: ChildMap, keep: set<string>, concrete: set<string>, request: set<string>) {
    forall cls :: cls in request <==> cls in keep || (cls in concrete && AboveKept(childMap, keep, cls))
  }

  /** The read answers the scope and every object below it of a requested class, as they are. */
  ghost predicate ReadsAll(world: Objects, request: set<string>, scope: string, items: seq<Write>) {
    && (forall v :: v in items && v.dn != "" ==> v.dn in world && world[v.dn] == Obj(v.cls, v.attrs))
    && (forall d :: Under(world, scope, d) && (d == scope || world[d].cls in request) ==>
          Write(d, world[d].cls, world[d].attrs) in items)
  }

  /** Up to the scope, each object's class is contained in its parent's, and that class is concrete. */
  ghost predicate Linked(childMap: ChildMap, concrete: set<string>, world: Objects, scope: string, d: string)
    decreases |d|
  {
    && d in world
    && (d == scope ||
        (ParentDn(d).Some? && (ParentAndRn(d); var p := ParentDn(d).value;
         && Linked(childMap, concrete, world, scope, p)
         && (p != scope ==> ParentOf(childMap, world[p].cls, world[d].cls) && world[p].cls in concrete))))
  }

  lemma {:induction false} LinkedUnder(childMap: ChildMap, concrete: set<string>, world: Objects, scope: string, d: string)
    requires Linked(childMap, concrete, world, scope, d)
    ensures Under(world, scope, d)
    decreases |d|
  {
    if d != scope {
      ParentAndRn(d);
      LinkedUnder(childMap, concrete, world, scope, ParentDn(d).value);
    }
  }

  lemma ReadItem(cat: Catalogue, world: Objects, request: set<string>, scope: string, items: seq<Write>, d: string)
    requires ReadsAll(world, request, scope, items) && Under(world, scope, d) && d != ""
    requires d == scope || world[d].cls in request
    ensures var nodes := NodesOf(Usable(cat, items));
            d in nodes && nodes[d] == Obj(world[d].cls, Normalise(cat, world[d].cls, world[d].attrs))
  {
    var usable := Usable(cat, items);
    var w := Write(d, world[d].cls, world[d].attrs);
    var n := NormaliseItem(cat, w);
    assert n in usable;
    assert forall x, y :: x in usable && y in usable && x.dn == y.dn ==> x == y by {
      forall x, y | x in usable && y in usable && x.dn == y.dn ensures x == y {
        var v :| v in items && v.dn != "" && x == NormaliseItem(cat, v);
        var u :| u in items && u.dn != "" && y == NormaliseItem(cat, u);
      }
    }
    ConsistentNodes(usable);
    DnInDns(usable, n);
  }

  lemma DnInDns(items: seq<Write>, w: Write)
    requires w in items
    ensures w.dn in DnsOf(items)
  {
    var i :| 0 <= i < |items| && items[i] == w;
    assert DnsOf(items)[i] == w.dn;
  }

  /** The whole chain of a requested object was read. */
  lemma {:induction false} ChainRead(childMap: ChildMap, keep: set<string>, concrete: set<string>, request: set<string>,
                                     cat: Catalogue, world: Objects, scope: string, items: seq<Write>, d: string)
    requires Requests(childMap, keep, concrete, request) && ReadsAll(world, request, scope, items)
    requires scope != "" && Linked(childMap, concrete, world, scope, d)
    requires d == scope || world[d].cls in keep || (world[d].cls in concrete && AboveKept(childMap, keep, world[d].cls))
    ensures Under(NodesOf(Usable(cat, items)), scope, d)
    decreases |d|
  {
    LinkedUnder(childMap, concrete, world, scope, d);
    hide Usable, NodesOf, ReadsAll, AboveKept;
    UnderLonger(world, scope, d);
    ReadItem(cat, world, request, scope, items, d);
    if d != scope {
      ParentAndRn(d);
      var p := ParentDn(d).value;
      if p != scope {
        if world[d].cls in keep {
          FirstStep(childMap, keep, world[d].cls, world[p].cls);
        } else {
          NextStep(childMap, keep, world[d].cls, world[p].cls);
        }
      }
      ChainRead(childMap, keep, concrete, request, cat, world, scope, items, p);
    }
  }

  /** Every object of a kept class whose chain follows the containment map is in the final tree. */
  lemma NoKeptObjectIsLost(childMap: ChildMap, keep: set<string>, concrete: set<string>, request: set<string>,
                           cat: Catalogue, world: Objects, scope: string, items: seq<Write>, d: string)
    requires Requests(childMap, keep, concrete, request) && ReadsAll(world, request, scope, items)
    requires scope != "" && Linked(childMap, concrete, world, scope, d) && world[d].cls in keep
    ensures FinalTree(cat, keep, items, scope).Some?
    ensures Write(d, world[d].cls, Normalise(cat, world[d].cls, world[d].attrs)) in Flat(FinalTree(cat, keep, items, scope).value, scope)
  {
    var nodes := NodesOf(Usable(cat, items));
    LinkedUnder(childMap, concrete, world, scope, d);
    UnderLonger(world, scope, d);
    ChainRead(childMap, keep, concrete, request, cat, world, scope, items, d);
    UnderLonger(nodes, scope, d);
    ReadItem(cat, world, request, scope, items, d);
    assert FinalTree(cat, keep, items, scope).Some?;
    hide FinalTree, Usable, NodesOf, ReadsAll, Requests, Linked;
    KeptShelters(nodes, keep, d);
    FinalTreeIsExact(cat, keep, items, scope, Write(d, world[d].cls, Normalise(cat, world[d].cls, world[d].attrs)));
  }
}
