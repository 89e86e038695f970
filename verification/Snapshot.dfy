/** Assembling a snapshot from flat items (`snapshot.py`, `_assemble`). */
module Snapshot {
  import opened Text
  import opened Dn
  import opened Store
  import opened Rebuild
  import opened Canonical
  import opened Universe

  // ---- Normalising one item

  datatype PropFlag = PropFlag(configurable: bool, secure: bool)

  /** What the catalogue knows: property flags by class, the secret positions, the classes whose DN is secret. */
  datatype Catalogue = Catalogue(
    flags: map<string, map<string, PropFlag>>,
    secretPositions: set<(string, string)>,
    secretDnClasses: set<string>)

  const REDACTED := "<redacted>"

  predicate Secret(cat: Catalogue, cls: string, wire: string)
    requires cls in cat.flags && wire in cat.flags[cls]
  {
    cat.flags[cls][wire].secure || (cls, wire) in cat.secretPositions
  }

  /** Configurable properties only, secrets redacted; a class the catalogue does not know is left alone. */
  function Normalise(cat: Catalogue, cls: string, attrs: map<string, string>): (r: map<string, string>)
    ensures forall wire :: wire in r ==> wire in attrs
  {
    if cls !in cat.flags then attrs
    else map wire | wire in attrs && wire in cat.flags[cls] && cat.flags[cls][wire].configurable ::
           if Secret(cat, cls, wire) then REDACTED else attrs[wire]
  }

  function NormaliseItem(cat: Catalogue, w: Write): Write {
    Write(w.dn, w.cls, Normalise(cat, w.cls, w.attrs))
  }

  /** The items that carry a DN, normalised; the others are skipped. */
  function Usable(cat: Catalogue, items: seq<Write>): (r: seq<Write>)
    ensures AllNamed(r)
    ensures forall w :: w in r <==> exists v :: v in items && v.dn != "" && w == NormaliseItem(cat, v)
  {
    if items == [] then []
    else
      var last := items[|items| - 1];
      var before := Usable(cat, items[..|items| - 1]);
      assert forall v :: v in items <==> v in items[..|items| - 1] || v == last by {
        assert items == items[..|items| - 1] + [last];
      }
      if last.dn == "" then before else before + [NormaliseItem(cat, last)]
  }

  /** No secret value of a known class survives normalisation. */
  lemma SecretsRedacted(cat: Catalogue, cls: string, attrs: map<string, string>, wire: string)
    requires cls in cat.flags && wire in Normalise(cat, cls, attrs)
    ensures wire in cat.flags[cls] && cat.flags[cls][wire].configurable
    ensures Secret(cat, cls, wire) ==> Normalise(cat, cls, attrs)[wire] == REDACTED
  {
  }

  // ---- The capture

  datatype Capture = Capture(tree: Option<Env>, coverage: map<string, nat>, warnings: seq<string>)

  function Count(coverage: map<string, nat>, cls: string): nat {
    if cls in coverage then coverage[cls] else 0
  }

  ghost predicate Positive(coverage: map<string, nat>) {
    forall cls :: cls in coverage ==> coverage[cls] > 0
  }

  predicate Counted(keep: set<string>, scope: string, w: Write) {
    w.cls in keep || w.dn == scope
  }

  /** How many objects of class `cls` the capture accounts for. */
  function Instances(keep: set<string>, scope: string, ws: seq<Write>, cls: string): nat {
    if ws == [] then 0
    else Instances(keep, scope, ws[..|ws| - 1], cls) +
         (if ws[|ws| - 1].cls == cls && Counted(keep, scope, ws[|ws| - 1]) then 1 else 0)
  }

  lemma {:induction false} InstancesConcat(keep: set<string>, scope: string, a: seq<Write>, b: seq<Write>, cls: string)
    ensures Instances(keep, scope, a + b, cls) == Instances(keep, scope, a, cls) + Instances(keep, scope, b, cls)
  {
    if b == [] {
      assert a + b == a;
    } else {
      InstancesConcat(keep, scope, a, b[..|b| - 1], cls);
      assert (a + b)[..|a + b| - 1] == a + b[..|b| - 1];
    }
  }

  function Warning(w: Write): string {
    w.dn + ": the DN of a " + w.cls + " carries a secret in its naming property; it cannot be redacted in place"
  }

  function WarningOf(cat: Catalogue, w: Write): seq<string> {
    if w.cls in cat.secretDnClasses then [Warning(w)] else []
  }

  function Warnings(cat: Catalogue, ws: seq<Write>): seq<string> {
    if ws == [] then [] else Warnings(cat, ws[..|ws| - 1]) + WarningOf(cat, ws[|ws| - 1])
  }

  lemma {:induction false} WarningsConcat(cat: Catalogue, a: seq<Write>, b: seq<Write>)
    ensures Warnings(cat, a + b) == Warnings(cat, a) + Warnings(cat, b)
  {
    hide WarningOf;
    if b == [] {
      assert a + b == a;
    } else {
      var init, last := b[..|b| - 1], b[|b| - 1];
      WarningsConcat(cat, a, init);
      assert (a + b)[..|a + b| - 1] == a + init;
      assert Warnings(cat, a + b) == Warnings(cat, a + init) + WarningOf(cat, last);
      assert (Warnings(cat, a) + Warnings(cat, init)) + WarningOf(cat, last) == Warnings(cat, a) + (Warnings(cat, init) + WarningOf(cat, last));
    }
  }

  /** The accounts kept while the tree is walked: instance counts, and warnings in walk order. */
  datatype Ledger = Ledger(coverage: map<string, nat>, warnings: seq<string>)

  /** The counts `after` are the counts `before` plus those of `ws`; so are the warnings. */
  ghost predicate AddsUp(cat: Catalogue, keep: set<string>, scope: string, before: Ledger, ws: seq<Write>, after: Ledger) {
    && (forall cls :: Count(after.coverage, cls) == Count(before.coverage, cls) + Instances(keep, scope, ws, cls))
    && (Positive(before.coverage) ==> Positive(after.coverage))
    && after.warnings == before.warnings + Warnings(cat, ws)
  }

  lemma AddsUpConcat(cat: Catalogue, keep: set<string>, scope: string, a: Ledger, v: seq<Write>, b: Ledger, w: seq<Write>, c: Ledger)
    requires AddsUp(cat, keep, scope, a, v, b) && AddsUp(cat, keep, scope, b, w, c)
    ensures AddsUp(cat, keep, scope, a, v + w, c)
  {
    hide Count, Instances, Warnings;
    forall cls ensures Count(c.coverage, cls) == Count(a.coverage, cls) + Instances(keep, scope, v + w, cls) {
      InstancesConcat(keep, scope, v, w, cls);
    }
    WarningsConcat(cat, v, w);
  }

  lemma AddsNothing(cat: Catalogue, keep: set<string>, scope: string, a: Ledger)
    ensures AddsUp(cat, keep, scope, a, [], a)
  {
  }

  /** The final tree: pruned below the scope, children sorted. */
  function FinalTree(cat: Catalogue, keep: set<string>, items: seq<Write>, scope: string): Option<Env> {
    match Rebuilt(Usable(cat, items), scope)
    case None => None
    case Some(t) => Some(SortTree(Prune(keep, t)))
  }

  /** The counts and the warnings are read off the final tree. */
  ghost predicate Accounted(cat: Catalogue, keep: set<string>, scope: string, ws: seq<Write>, capture: Capture) {
    && Positive(capture.coverage)
    && (forall cls :: Count(capture.coverage, cls) == Instances(keep, scope, ws, cls))
    && capture.warnings == SortedStrings(Warnings(cat, ws))
  }

  ghost predicate Captures(cat: Catalogue, keep: set<string>, scope: string, items: seq<Write>, capture: Capture) {
    && capture.tree == FinalTree(cat, keep, items, scope)
    && match capture.tree
       case None => capture.coverage == map[] && capture.warnings == []
       case Some(t) => Accounted(cat, keep, scope, Flat(t, scope), capture)
  }

  // ---- Determinism

  lemma UsableWithin(cat: Catalogue, a: seq<Write>, b: seq<Write>, w: Write)
    requires (forall v :: v in a ==> v in b) && w in Usable(cat, a)
    ensures w in Usable(cat, b)
  {
    var v :| v in a && v.dn != "" && w == NormaliseItem(cat, v);
  }

  lemma UsableConsistent(cat: Catalogue, a: seq<Write>, v: Write, w: Write)
    requires SameRead(a, a) && v in Usable(cat, a) && w in Usable(cat, a) && v.dn == w.dn
    ensures v == w
  {
    var x :| x in a && x.dn != "" && v == NormaliseItem(cat, x);
    var y :| y in a && y.dn != "" && w == NormaliseItem(cat, y);
  }

  lemma UsableSameRead(cat: Catalogue, a: seq<Write>, b: seq<Write>)
    requires SameRead(a, b)
    ensures SameRead(Usable(cat, a), Usable(cat, b))
  {
    assert SameRead(a, a);
    hide NormaliseItem;
    forall w ensures w in Usable(cat, a) <==> w in Usable(cat, b) {
      if w in Usable(cat, a) { UsableWithin(cat, a, b, w); }
      if w in Usable(cat, b) { UsableWithin(cat, b, a, w); }
    }
    forall v, w | v in Usable(cat, a) && w in Usable(cat, a) && v.dn == w.dn ensures v == w {
      UsableConsistent(cat, a, v, w);
    }
  }

  /** The same objects, however ordered, sharded or repeated, give the same final tree. */
  lemma SameReadSameTree(cat: Catalogue, keep: set<string>, a: seq<Write>, b: seq<Write>, scope: string)
    requires SameRead(a, b)
    ensures FinalTree(cat, keep, a, scope) == FinalTree(cat, keep, b, scope)
  {
    hide SortTree, Prune, Rebuilt;
    UsableSameRead(cat, a, b);
    ReadOrderIrrelevant(Usable(cat, a), Usable(cat, b), scope);
    if Rebuilt(Usable(cat, a), scope).Some? {
      PruneThenSort(keep, Rebuilt(Usable(cat, a), scope).value);
      PruneThenSort(keep, Rebuilt(Usable(cat, b), scope).value);
    }
  }

  /** `_assemble` is deterministic: same tree, same coverage, same warnings. */
  lemma SnapshotsAreDeterministic(cat: Catalogue, keep: set<string>, scope: string, a: seq<Write>, b: seq<Write>, ca: Capture, cb: Capture)
    requires SameRead(a, b) && Captures(cat, keep, scope, a, ca) && Captures(cat, keep, scope, b, cb)
    ensures ca == cb
  {
    SameReadSameTree(cat, keep, a, b, scope);
    hide FinalTree, Instances, SortedStrings, Warnings, Flat;
    if ca.tree.Some? {
      SameCounts(ca.coverage, cb.coverage);
    }
  }

  lemma SameCounts(a: map<string, nat>, b: map<string, nat>)
    requires Positive(a) && Positive(b) && forall cls :: Count(a, cls) == Count(b, cls)
    ensures a == b
  {
    forall cls ensures cls in a <==> cls in b {
      assert Count(a, cls) == Count(b, cls);
    }
    forall cls | cls in a ensures a[cls] == b[cls] {
      assert Count(a, cls) == Count(b, cls);
    }
  }
}
