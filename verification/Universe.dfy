/** The classes a snapshot requests (`snapshot.py`, `_snapshot_universe`). */
module Universe {
  /** `CHILD_MAP`: the child classes of each class; containment may be cyclic. */
  type ChildMap = map<string, set<string>>

  ghost predicate ParentOf(childMap: ChildMap, parent: string, child: string) {
    parent in childMap && child in childMap[parent]
  }

  /** A climb from `path[0]`, one containing class at a time. */
  ghost predicate Climb(childMap: ChildMap, path: seq<string>) {
    |path| >= 2 && forall i, j :: 0 <= i && j == i + 1 && j < |path| ==> ParentOf(childMap, path[j], path[i])
  }

  /** `cls` contains, at some remove, an instance of a kept class. */
  ghost predicate AboveKept(childMap: ChildMap, keep: set<string>, cls: string) {
    exists path :: Climb(childMap, path) && path[0] in keep && path[|path| - 1] == cls
  }

  function Parents(parentsOf: map<string, set<string>>, cls: string): set<string> {
    if cls in parentsOf then parentsOf[cls] else {}
  }

  lemma FirstStep(childMap: ChildMap, keep: set<string>, cls: string, parent: string)
    requires cls in keep && ParentOf(childMap, parent, cls)
    ensures AboveKept(childMap, keep, parent)
  {
    var path := [cls, parent];
    assert Climb(childMap, path);
  }

  lemma NextStep(childMap: ChildMap, keep: set<string>, cls: string, parent: string)
    requires AboveKept(childMap, keep, cls) && ParentOf(childMap, parent, cls)
    ensures AboveKept(childMap, keep, parent)
  {
    var path :| Climb(childMap, path) && path[0] in keep && path[|path| - 1] == cls;
    var longer := path + [parent];
    assert Climb(childMap, longer);
    assert longer[0] in keep && longer[|longer| - 1] == parent;
  }

  /** A set of classes holding the parents of the kept classes and of its own members holds every ancestor. */
  lemma {:induction false} ClosedHoldsAll(childMap: ChildMap, keep: set<string>, closed: set<string>, path: seq<string>)
    requires Climb(childMap, path) && path[0] in keep
    requires forall cls, parent :: cls in keep + closed && ParentOf(childMap, parent, cls) ==> parent in closed
    ensures path[|path| - 1] in closed
  {
    if |path| > 2 {
      ClosedHoldsAll(childMap, keep, closed, path[..|path| - 1]);
      assert path[..|path| - 1][|path| - 2] == path[|path| - 2];
    }
    assert ParentOf(childMap, path[|path| - 1], path[|path| - 2]);
  }

  /** What the children of `parent` met so far have added. */
  ghost predicate ChildrenAdded(before: map<string, set<string>>, parentsOf: map<string, set<string>>, parent: string, met: set<string>) {
    forall c :: Parents(parentsOf, c) == Parents(before, c) + if c in met then {parent} else {}
  }

  lemma ChildAdded(before: map<string, set<string>>, parentsOf: map<string, set<string>>, parent: string, met: set<string>, child: string)
    requires ChildrenAdded(before, parentsOf, parent, met)
    ensures ChildrenAdded(before, parentsOf[child := Parents(parentsOf, child) + {parent}], parent, met + {child})
  {
  }

  /** The parents met so far, inverted. */
  ghost predicate Inverted(childMap: ChildMap, parentsOf: map<string, set<string>>, met: set<string>) {
    forall c, p :: p in Parents(parentsOf, c) <==> ParentOf(childMap, p, c) && p in met
  }

  lemma ParentInverted(childMap: ChildMap, before: map<string, set<string>>, parentsOf: map<string, set<string>>, met: set<string>, parent: string)
    requires Inverted(childMap, before, met) && parent in childMap && ChildrenAdded(before, parentsOf, parent, childMap[parent])
    ensures Inverted(childMap, parentsOf, met + {parent})
  {
    hide Parents;
  }

  /** `{child: {parents}}`, from `{parent: children}`. */
  method Invert(childMap: ChildMap) returns (parentsOf: map<string, set<string>>)
    ensures forall c, p :: p in Parents(parentsOf, c) <==> ParentOf(childMap, p, c)
  {
    parentsOf := map[];
    var todo := childMap.Keys;
    while todo != {}
      invariant todo <= childMap.Keys && Inverted(childMap, parentsOf, childMap.Keys - todo)
      decreases todo
    {
      var parent :| parent in todo;
      ghost var before := parentsOf;
      var children := childMap[parent];
      while children != {}
        invariant children <= childMap[parent] && ChildrenAdded(before, parentsOf, parent, childMap[parent] - children)
        decreases children
      {
        var child :| child in children;
        ChildAdded(before, parentsOf, parent, childMap[parent] - children, child);
        assert childMap[parent] - (children - {child}) == childMap[parent] - children + {child};
        hide ChildrenAdded;
        parentsOf := parentsOf[child := Parents(parentsOf, child) + {parent}];
        children := children - {child};
      }
      assert childMap[parent] - {} == childMap[parent] && childMap.Keys - (todo - {parent}) == childMap.Keys - todo + {parent};
      ParentInverted(childMap, before, parentsOf, childMap.Keys - todo, parent);
      todo := todo - {parent};
    }
  }

  /** What the frontier loop has found so far. */
  ghost predicate Climbing(childMap: ChildMap, keep: set<string>, ancestors: set<string>, frontier: set<string>) {
    && ancestors <= childMap.Keys && frontier <= keep + ancestors
    && (forall cls :: cls in ancestors ==> AboveKept(childMap, keep, cls))
    && (forall cls, parent :: cls in keep + ancestors && cls !in frontier && ParentOf(childMap, parent, cls) ==> parent in ancestors)
  }

  /** One round: the parents of the frontier join the ancestors; the new ones are the next frontier. */
  method Climb1(childMap: ChildMap, parentsOf: map<string, set<string>>, ghost keep: set<string>, found: set<string>, frontier: set<string>)
    returns (ancestors: set<string>, nxt: set<string>)
    requires forall c, p :: p in Parents(parentsOf, c) <==> ParentOf(childMap, p, c)
    requires Climbing(childMap, keep, found, frontier)
    ensures Climbing(childMap, keep, ancestors, nxt)
    ensures ancestors == found + nxt && found * nxt == {}
  {
    ancestors, nxt := found, {};
    var todo := frontier;
    while todo != {}
      invariant todo <= frontier
      invariant ancestors == found + nxt && found * nxt == {}
      invariant Climbing(childMap, keep, ancestors, todo + nxt)
      decreases todo
    {
      var cls :| cls in todo;
      var parents := Parents(parentsOf, cls);
      assert forall p :: p in parents ==> AboveKept(childMap, keep, p) by {
        forall p | p in parents ensures AboveKept(childMap, keep, p) {
          if cls in keep { FirstStep(childMap, keep, cls, p); } else { NextStep(childMap, keep, cls, p); }
        }
      }
      hide AboveKept;
      var unseen := parents - ancestors;
      ancestors, nxt := ancestors + unseen, nxt + unseen;
      todo := todo - {cls};
    }
    assert {} + nxt == nxt;
  }

  /**
   * `_snapshot_universe`: the kept classes and exactly their concrete containment ancestors, at any
   * remove; the loop ends on cyclic containment.
   */
  method SnapshotUniverse(childMap: ChildMap, keep: set<string>, concrete: set<string>) returns (request: set<string>)
    ensures forall cls :: cls in request <==> cls in keep || (cls in concrete && AboveKept(childMap, keep, cls))
  {
    var parentsOf := Invert(childMap);
    var ancestors: set<string>, frontier := {}, keep;
    while frontier != {}
      invariant Climbing(childMap, keep, ancestors, frontier)
      decreases childMap.Keys - ancestors, frontier != {}
    {
      var found, nxt := Climb1(childMap, parentsOf, keep, ancestors, frontier);
      if nxt != {} {
        var cls :| cls in nxt;
        assert cls in found && found <= childMap.Keys;
        assert cls !in ancestors * nxt;
      }
      ancestors, frontier := found, nxt;
    }
    forall cls | AboveKept(childMap, keep, cls) ensures cls in ancestors {
      var path :| Climb(childMap, path) && path[0] in keep && path[|path| - 1] == cls;
      ClosedHoldsAll(childMap, keep, ancestors, path);
    }
    request := keep + (ancestors * concrete);
  }
}
