/** Building the shared tables and reading the properties back (`generate_catalog.py`). */
module CatalogTables {
  import opened Text
  import opened Dn
  import opened Catalog

  /** One distinct property signature; texts and enumerations by id. */
  datatype Sig = Sig(
    wire: string, label_: Option<nat>, comment: Option<nat>, enumId: Option<nat>,
    baseType: Option<nat>, modelType: Option<nat>, uitype: Option<nat>,
    default: Option<Json>, likeProp: Option<string>, bits: nat, residual: map<string, Json>)

  datatype Tables = Tables(
    labels: seq<string>, comments: seq<Json>, types: seq<string>, enums: seq<Json>,
    sigs: seq<Sig>, classProps: seq<(nat, nat)>)

  // ---- Interning

  /** `_Pool`: identical values stored once; the id of a value is its place. */
  class Pool<T(==)> {
    var ids: map<T, nat>
    ghost var items: seq<T>

    ghost predicate Valid()
      reads this
    {
      && NoRepeat(items) && ids.Keys == (set t | t in items)
      && |ids| == |items| && forall i :: 0 <= i < |items| ==> items[i] in ids && ids[items[i]] == i
    }

    constructor ()
      ensures Valid() && items == []
    {
      ids, items := map[], [];
    }

    /** `rows`, the values in the order of their ids. */
    method Rows() returns (r: seq<T>)
      requires Valid()
      ensures r == items
    {
      r := [];
      for i := 0 to |ids|
        invariant r == items[..i]
      {
        assert ids[items[i]] == i;
        var t :| t in ids && ids[t] == i;
        ghost var k :| 0 <= k < |items| && items[k] == t;
        r := r + [t];
      }
    }

    method Intern(t: T) returns (id: nat)
      requires Valid()
      modifies this
      ensures Valid()
      ensures id < |items| && items[id] == t
      ensures items == if t in old(items) then old(items) else old(items) + [t]
    {
      if t in ids {
        id := ids[t];
        ghost var i :| 0 <= i < |items| && items[i] == t;
      } else {
        id := |ids|;
        ids := ids[t := id];
        items := items + [t];
      }
    }
  }

  /** `_EnumStore`: values addressed by content hash. */
  class EnumStore {
    const digest: Json -> string
    var byHash: map<string, nat>
    var blobs: seq<Json>

    ghost predicate Valid()
      reads this
    {
      && (forall h :: h in byHash ==> byHash[h] < |blobs| && digest(blobs[byHash[h]]) == h)
      && forall i :: 0 <= i < |blobs| ==> digest(blobs[i]) in byHash && byHash[digest(blobs[i])] == i
    }

    constructor (digest: Json -> string)
      ensures Valid() && blobs == [] && this.digest == digest
    {
      this.digest := digest;
      byHash, blobs := map[], [];
    }

    /** A value is stored unless one with its digest already is. */
    method Add(values: Json) returns (id: nat)
      requires Valid()
      modifies this
      ensures Valid()
      ensures id < |blobs| && digest(blobs[id]) == digest(values)
      ensures blobs == if digest(values) in old(byHash) then old(blobs) else old(blobs) + [values]
    {
      var h := digest(values);
      if h in byHash { return byHash[h]; }
      id := |blobs|;
      byHash := byHash[h := id];
      blobs := blobs + [values];
    }
  }

  // ---- Reading a signature back

  ghost predicate Under(id: Option<nat>, n: nat) {
    id.Some? ==> id.value < n
  }

  /** Every id of the signature is in the tables. */
  ghost predicate Closed(t: Tables, s: Sig) {
    && Under(s.label_, |t.labels|) && Under(s.comment, |t.comments|) && Under(s.enumId, |t.enums|)
    && Under(s.baseType, |t.types|) && Under(s.modelType, |t.types|) && Under(s.uitype, |t.types|)
  }

  function At<T>(items: seq<T>, id: Option<nat>): Option<T>
    requires id.Some? ==> id.value < |items|
  {
    if id.Some? then Some(items[id.value]) else None
  }

  /** `setdefault("platformFlavors", [])`. */
  function WithFlavors(residual: map<string, Json>): map<string, Json> {
    if FLAVORS in residual then residual else residual[FLAVORS := NO_FLAVORS]
  }

  /** `_reconstruct_props`, one row. */
  function Expand(t: Tables, s: Sig): Prop
    requires Closed(t, s)
  {
    Prop(At(t.labels, s.label_), At(t.comments, s.comment), At(t.types, s.baseType), At(t.types, s.modelType), At(t.types, s.uitype),
         s.default, s.likeProp, Unpacked(s.bits), At(t.enums, s.enumId), WithFlavors(s.residual), map[], {})
  }

  // ---- What the catalogue keeps of a property

  predicate IsIdentifier(p: Prop) {
    p.baseType.Some? && "mo:" <= p.baseType.value
  }

  predicate KeepsValues(p: Prop) {
    p.validValues.Some? && p.validValues.value.JList? && p.validValues.value.items != [] && !IsIdentifier(p)
  }

  function StoredResidual(residual: map<string, Json>): map<string, Json> {
    map k | k in residual && !(k == FLAVORS && !Truthy(residual[k])) :: residual[k]
  }

  /** What the reconstruction gives back for a property. */
  function Normal(p: Prop): Prop {
    p.(validValues := if KeepsValues(p) then p.validValues else None,
       residual := WithFlavors(StoredResidual(p.residual)), dropped := map[], unrouted := {})
  }

  /** The property without what the catalogue drops on purpose. */
  function Stripped(p: Prop): Prop {
    p.(validValues := if IsIdentifier(p) then None else p.validValues, dropped := map[], unrouted := {})
  }

  /** Flavours are written as the catalogue defaults them, and no kept list of values is empty. */
  predicate Lossless(p: Prop) {
    && FLAVORS in p.residual && (Truthy(p.residual[FLAVORS]) || p.residual[FLAVORS] == NO_FLAVORS)
    && (IsIdentifier(p) || p.validValues.None? || KeepsValues(p))
  }

  lemma LosslessIff(p: Prop)
    ensures Normal(p) == Stripped(p) <==> Lossless(p)
  {
    var stored := StoredResidual(p.residual);
    if Lossless(p) { assert WithFlavors(stored) == p.residual; }
    if WithFlavors(stored) == p.residual {
      assert FLAVORS in WithFlavors(stored);
      assert p.residual[FLAVORS] == WithFlavors(stored)[FLAVORS];
    }
  }

  ghost predicate Refused(p: Prop) {
    p.unrouted != {} || exists f :: f in FLAG_ORDER && f !in p.flags
  }

  /** A property carries no flag but the known ones: any other key is unrouted. */
  ghost predicate WellRouted(p: Prop) {
    forall f :: f in p.flags ==> f in FLAG_ORDER
  }

  ghost predicate Injective(digest: Json -> string) {
    forall a, b :: digest(a) == digest(b) ==> a == b
  }

  // ---- Tables only grow

  ghost predicate Grows(a: Tables, b: Tables) {
    && a.labels <= b.labels && a.comments <= b.comments && a.types <= b.types && a.enums <= b.enums
    && a.sigs <= b.sigs && a.classProps <= b.classProps
  }

  /** Ids are stable: a signature reads the same in the tables as they grow. */
  lemma ExpandStable(a: Tables, b: Tables, s: Sig)
    requires Grows(a, b) && Closed(a, s)
    ensures Closed(b, s) && Expand(b, s) == Expand(a, s)
  {
  }

  /** A class: its name and its properties in schema order, one per wire name. */
  datatype ClassDef = ClassDef(cls: string, props: seq<(string, Prop)>)

  function WiresOf(props: seq<(string, Prop)>): (r: seq<string>)
    ensures |r| == |props| && forall i :: 0 <= i < |r| ==> r[i] == props[i].0
  {
    seq(|props|, i requires 0 <= i < |props| => props[i].0)
  }

  /** The signature `s` reads back as the property. */
  ghost predicate ReadsAs(t: Tables, s: nat, wire: string, p: Prop) {
    s < |t.sigs| && Closed(t, t.sigs[s]) && t.sigs[s].wire == wire && Expand(t, t.sigs[s]) == Normal(p)
  }

  /** The tables hold, under this class, a signature that reads back as the property. */
  ghost predicate Linked(t: Tables, c: nat, wire: string, p: Prop) {
    exists s :: (c, s) in t.classProps && ReadsAs(t, s, wire, p)
  }

  ghost predicate ReadsAsOne(t: Tables, s: nat, props: seq<(string, Prop)>, n: nat)
    requires n <= |props|
  {
    exists i :: 0 <= i < n && ReadsAs(t, s, props[i].0, props[i].1)
  }

  ghost predicate AllLinked(t: Tables, c: nat, props: seq<(string, Prop)>, n: nat)
    requires n <= |props|
  {
    forall i :: 0 <= i < n ==> Linked(t, c, props[i].0, props[i].1)
  }

  ghost predicate NothingElse(t: Tables, c: nat, props: seq<(string, Prop)>, n: nat)
    requires n <= |props|
  {
    forall s :: (c, s) in t.classProps ==> ReadsAsOne(t, s, props, n)
  }

  /** The links of class `c` stand for its first `n` properties, all of them and nothing else. */
  ghost predicate Holds(t: Tables, c: nat, props: seq<(string, Prop)>, n: nat)
    requires n <= |props|
  {
    AllLinked(t, c, props, n) && NothingElse(t, c, props, n)
  }

  lemma ReadsAsStable(a: Tables, b: Tables, s: nat, wire: string, p: Prop)
    requires Grows(a, b) && ReadsAs(a, s, wire, p)
    ensures ReadsAs(b, s, wire, p)
  {
    ExpandStable(a, b, a.sigs[s]);
    assert b.sigs[s] == a.sigs[s];
  }

  lemma LinkedStable(a: Tables, b: Tables, c: nat, wire: string, p: Prop)
    requires Grows(a, b) && Linked(a, c, wire, p)
    ensures Linked(b, c, wire, p)
  {
    var s :| (c, s) in a.classProps && ReadsAs(a, s, wire, p);
    ReadsAsStable(a, b, s, wire, p);
  }

  lemma OneStable(a: Tables, b: Tables, s: nat, props: seq<(string, Prop)>, n: nat, k: nat)
    requires Grows(a, b) && n <= k <= |props| && ReadsAsOne(a, s, props, n)
    ensures ReadsAsOne(b, s, props, k)
  {
    var i :| 0 <= i < n && ReadsAs(a, s, props[i].0, props[i].1);
    ReadsAsStable(a, b, s, props[i].0, props[i].1);
  }

  class Builder {
    const labels: Pool<string>
    const comments: Pool<Json>
    const types: Pool<string>
    const enums: EnumStore
    const sigIds: Pool<Sig>
    var classProps: seq<(nat, nat)>

    ghost predicate Valid()
      reads this, labels, comments, types, enums, sigIds
    {
      && labels != types && labels.Valid() && comments.Valid() && types.Valid() && enums.Valid() && sigIds.Valid()
      && (forall k :: 0 <= k < |classProps| ==> classProps[k].1 < |sigIds.items|)
    }

    ghost function View(): Tables
      reads this, labels, comments, types, enums, sigIds
    {
      Tables(labels.items, comments.items, types.items, enums.blobs, sigIds.items, classProps)
    }

    constructor (digest: Json -> string)
      ensures Valid() && fresh(labels) && fresh(comments) && fresh(types) && fresh(enums) && fresh(sigIds)
      ensures View() == Tables([], [], [], [], [], []) && enums.digest == digest
    {
      labels := new Pool();
      comments := new Pool();
      types := new Pool();
      enums := new EnumStore(digest);
      sigIds := new Pool();
      classProps := [];
    }

    method InternType(t: Option<string>) returns (id: Option<nat>)
      requires Valid()
      modifies types
      ensures Valid() && Grows(old(View()), View()) && View() == old(View()).(types := types.items)
      ensures Under(id, |types.items|) && At(types.items, id) == t
    {
      if t.None? { return None; }
      var i := types.Intern(t.value);
      return Some(i);
    }

    method InternEnum(p: Prop) returns (id: Option<nat>)
      requires Valid()
      modifies enums
      ensures Valid() && Grows(old(View()), View()) && View() == old(View()).(enums := enums.blobs)
      ensures Under(id, |enums.blobs|)
      ensures Injective(enums.digest) ==> At(enums.blobs, id) == if KeepsValues(p) then p.validValues else None
    {
      if !KeepsValues(p) { return None; }
      var i := enums.Add(p.validValues.value);
      return Some(i);
    }

    method InternLabel(name: Option<string>) returns (id: Option<nat>)
      requires Valid()
      modifies labels
      ensures Valid() && Grows(old(View()), View()) && View() == old(View()).(labels := labels.items)
      ensures Under(id, |labels.items|) && At(labels.items, id) == name
    {
      if name.None? { return None; }
      var i := labels.Intern(name.value);
      return Some(i);
    }

    method InternComment(comment: Option<Json>) returns (id: Option<nat>)
      requires Valid()
      modifies comments
      ensures Valid() && Grows(old(View()), View()) && View() == old(View()).(comments := comments.items)
      ensures Under(id, |comments.items|) && At(comments.items, id) == comment
    {
      if comment.None? { return None; }
      var i := comments.Intern(comment.value);
      return Some(i);
    }

    /** The three type columns, through the pool they share. */
    method InternTypes(p: Prop) returns (baseType: Option<nat>, modelType: Option<nat>, uitype: Option<nat>)
      requires Valid()
      modifies types
      ensures Valid() && Grows(old(View()), View()) && View() == old(View()).(types := types.items)
      ensures Under(baseType, |types.items|) && At(types.items, baseType) == p.baseType
      ensures Under(modelType, |types.items|) && At(types.items, modelType) == p.modelType
      ensures Under(uitype, |types.items|) && At(types.items, uitype) == p.uitype
    {
      baseType := InternType(p.baseType);
      modelType := InternType(p.modelType);
      uitype := InternType(p.uitype);
    }

    /** `_prop_row` without the class id: the signature, or none when the property is refused. */
    method PropRow(wire: string, p: Prop) returns (sig: Option<Sig>)
      requires Valid()
      modifies labels, comments, types, enums
      ensures Valid() && Grows(old(View()), View())
      ensures View().sigs == old(View()).sigs && View().classProps == old(View()).classProps
      ensures sig.None? <==> Refused(p)
      ensures sig.Some? ==> sig.value.wire == wire && Closed(View(), sig.value)
      ensures sig.Some? && WellRouted(p) && Injective(enums.digest) ==> Expand(View(), sig.value) == Normal(p)
    {
      hide Valid, Normal, Injective, KeepsValues;
      var enumId := InternEnum(p);
      if p.unrouted != {} { return None; }
      var labelId := InternLabel(p.name);
      var commentId := InternComment(p.comment);
      var baseType, modelType, uitype := InternTypes(p);
      var bits := PackFlags(p.flags);
      if bits.None? { return None; }
      sig := Some(Sig(wire, labelId, commentId, enumId, baseType, modelType, uitype, p.default, p.likeProp, bits.value, StoredResidual(p.residual)));
      if WellRouted(p) && Injective(enums.digest) { RowReadsBack(View(), sig.value, p); }
    }

    /** One class: a signature per property, shared with every class that has the same one. */
    method AddClass(c: nat, props: seq<(string, Prop)>) returns (ok: bool)
      requires Valid() && NoLinks(View(), c)
      modifies this, labels, comments, types, enums, sigIds
      ensures Valid()
      ensures ok <==> Accepted(props, |props|)
      ensures ok ==> AddedSoFar(old(View()), View(), enums.digest, c, props, |props|)
    {
      ghost var start, digest := View(), enums.digest;
      NothingAdded(start, digest, c, props);
      assert Accepted(props, 0);
      hide *;
      ghost var now := start;
      for i := 0 to |props|
        invariant Valid() && now == View()
        invariant AddedSoFar(start, now, digest, c, props, i)
        invariant Accepted(props, i)
      {
        var added := AddProp(c, props[i].0, props[i].1);
        AcceptedStep(props, i);
        if !added { return false; }
        AddedStep(start, now, View(), digest, c, props, i);
        now := View();
      }
      ok := true;
    }

    /** One property of class `c`: its signature, then the link to it. */
    method AddProp(c: nat, wire: string, p: Prop) returns (ok: bool)
      requires Valid()
      modifies this, labels, comments, types, enums, sigIds
      ensures Valid()
      ensures ok <==> !Refused(p)
      ensures ok ==> AddsOne(old(View()), View(), enums.digest, c, wire, p)
    {
      hide Valid, Refused, Closed, Grows, Normal, Expand, GainsLink;
      ghost var a := View();
      var sig := PropRow(wire, p);
      if sig.None? { return false; }
      ghost var b := View();
      AddLink(c, sig.value);
      AddsOneIs(a, b, View(), enums.digest, c, wire, p, sig.value);
      ok := true;
    }

    method AddLink(c: nat, sig: Sig)
      requires Valid()
      modifies this, sigIds
      ensures Valid()
      ensures GainsLink(old(View()), View(), c, sig)
    {
      var s := sigIds.Intern(sig);
      classProps := classProps + [(c, s)];
    }
  }

  /** What adding the first `i` properties of class `c` has done. */
  ghost predicate AddedSoFar(start: Tables, now: Tables, digest: Json -> string, c: nat, props: seq<(string, Prop)>, i: nat)
    requires i <= |props|
  {
    Grows(start, now) && OthersKept(start, now, c) && (Faithful(digest, props) ==> Holds(now, c, props, i))
  }

  lemma NothingAdded(t: Tables, digest: Json -> string, c: nat, props: seq<(string, Prop)>)
    requires NoLinks(t, c)
    ensures AddedSoFar(t, t, digest, c, props, 0)
  {
    NothingHeld(t, c, props);
  }

  /** The tables after one property: texts interned, and one link to a signature that reads back as it. */
  ghost predicate AddsOne(a: Tables, d: Tables, digest: Json -> string, c: nat, wire: string, p: Prop) {
    exists b, sig :: Passed(a, b, digest, wire, p, sig) && GainsLink(b, d, c, sig)
  }

  ghost predicate Passed(a: Tables, b: Tables, digest: Json -> string, wire: string, p: Prop, sig: Sig) {
    && Grows(a, b) && b.sigs == a.sigs && b.classProps == a.classProps
    && Closed(b, sig) && sig.wire == wire
    && (WellRouted(p) && Injective(digest) ==> Expand(b, sig) == Normal(p))
  }

  lemma AddsOneIs(a: Tables, b: Tables, d: Tables, digest: Json -> string, c: nat, wire: string, p: Prop, sig: Sig)
    requires Grows(a, b) && b.sigs == a.sigs && b.classProps == a.classProps
    requires Closed(b, sig) && sig.wire == wire
    requires WellRouted(p) && Injective(digest) ==> Expand(b, sig) == Normal(p)
    requires GainsLink(b, d, c, sig)
    ensures AddsOne(a, d, digest, c, wire, p)
  {
    assert Passed(a, b, digest, wire, p, sig);
  }

  lemma AddedStep(start: Tables, a: Tables, d: Tables, digest: Json -> string, c: nat, props: seq<(string, Prop)>, i: nat)
    requires i < |props| && AddedSoFar(start, a, digest, c, props, i)
    requires AddsOne(a, d, digest, c, props[i].0, props[i].1)
    ensures AddedSoFar(start, d, digest, c, props, i + 1)
  {
    var b, sig :| Passed(a, b, digest, props[i].0, props[i].1, sig) && GainsLink(b, d, c, sig);
    GrowsTwice(start, a, b, d, c);
    if Faithful(digest, props) { HoldsStep(a, b, d, c, props, i, sig); }
  }

  /** None of the first `n` properties is refused. */
  ghost predicate Accepted(props: seq<(string, Prop)>, n: nat)
    requires n <= |props|
  {
    forall i :: 0 <= i < n ==> !Refused(props[i].1)
  }

  lemma AcceptedStep(props: seq<(string, Prop)>, i: nat)
    requires i < |props| && Accepted(props, i)
    ensures Accepted(props, i + 1) <==> !Refused(props[i].1)
    ensures Refused(props[i].1) ==> !Accepted(props, |props|)
  {
  }

  ghost predicate NoLinks(t: Tables, c: nat) {
    forall s :: (c, s) !in t.classProps
  }

  /** Links of the other classes are what they were. */
  ghost predicate OthersKept(a: Tables, b: Tables, c: nat) {
    forall d, s :: d != c ==> ((d, s) in b.classProps <==> (d, s) in a.classProps)
  }

  /** One more link, to the shared signature. */
  ghost predicate GainsLink(a: Tables, b: Tables, c: nat, sig: Sig) {
    && b == a.(sigs := b.sigs, classProps := b.classProps) && a.sigs <= b.sigs
    && |b.classProps| == |a.classProps| + 1 && b.classProps[..|a.classProps|] == a.classProps
    && var link := b.classProps[|a.classProps|];
       link.0 == c && link.1 < |b.sigs| && b.sigs[link.1] == sig
  }

  ghost predicate Faithful(digest: Json -> string, props: seq<(string, Prop)>) {
    Injective(digest) && forall i :: 0 <= i < |props| ==> WellRouted(props[i].1)
  }

  lemma NothingHeld(t: Tables, c: nat, props: seq<(string, Prop)>)
    requires NoLinks(t, c)
    ensures Grows(t, t) && OthersKept(t, t, c) && Holds(t, c, props, 0)
  {
  }

  lemma LinkGrows(a: Tables, b: Tables, c: nat, sig: Sig)
    requires GainsLink(a, b, c, sig)
    ensures Grows(a, b) && forall l :: l in b.classProps <==> l in a.classProps || l == b.classProps[|a.classProps|]
  {
    assert b.classProps == a.classProps + [b.classProps[|a.classProps|]];
  }

  lemma GrowsTwice(start: Tables, a: Tables, b: Tables, d: Tables, c: nat)
    requires Grows(start, a) && OthersKept(start, a, c)
    requires Grows(a, b) && b.classProps == a.classProps
    requires exists sig :: GainsLink(b, d, c, sig)
    ensures Grows(start, d) && OthersKept(start, d, c)
  {
    var sig :| GainsLink(b, d, c, sig);
    LinkGrows(b, d, c, sig);
  }

  lemma NewLinkReads(b: Tables, d: Tables, c: nat, wire: string, p: Prop, sig: Sig)
    requires Closed(b, sig) && sig.wire == wire && Expand(b, sig) == Normal(p) && GainsLink(b, d, c, sig)
    ensures var s := d.classProps[|b.classProps|].1;
            Grows(b, d) && (c, s) in d.classProps && ReadsAs(d, s, wire, p) &&
            forall l :: l in d.classProps <==> l in b.classProps || l == (c, s)
  {
    LinkGrows(b, d, c, sig);
    ExpandStable(b, d, sig);
    assert d.classProps[|b.classProps|] in d.classProps;
  }

  lemma AllLinkedStep(a: Tables, d: Tables, c: nat, props: seq<(string, Prop)>, i: nat)
    requires i < |props| && AllLinked(a, c, props, i) && Grows(a, d) && Linked(d, c, props[i].0, props[i].1)
    ensures AllLinked(d, c, props, i + 1)
  {
    hide Linked, Grows;
    forall k | 0 <= k < i + 1 ensures Linked(d, c, props[k].0, props[k].1) {
      if k < i { LinkedStable(a, d, c, props[k].0, props[k].1); }
    }
  }

  lemma NothingElseStep(a: Tables, d: Tables, c: nat, props: seq<(string, Prop)>, i: nat, s: nat)
    requires i < |props| && NothingElse(a, c, props, i) && Grows(a, d) && ReadsAs(d, s, props[i].0, props[i].1)
    requires forall l :: l in d.classProps <==> l in a.classProps || l == (c, s)
    ensures NothingElse(d, c, props, i + 1)
  {
    assert ReadsAsOne(d, s, props, i + 1);
    hide ReadsAs, ReadsAsOne, Grows;
    forall x | (c, x) in d.classProps ensures ReadsAsOne(d, x, props, i + 1) {
      if (c, x) in a.classProps { OneStable(a, d, x, props, i, i + 1); }
    }
  }

  lemma HoldsStep(a: Tables, b: Tables, d: Tables, c: nat, props: seq<(string, Prop)>, i: nat, sig: Sig)
    requires i < |props| && Holds(a, c, props, i)
    requires Grows(a, b) && b.sigs == a.sigs && b.classProps == a.classProps
    requires Closed(b, sig) && sig.wire == props[i].0 && Expand(b, sig) == Normal(props[i].1)
    requires GainsLink(b, d, c, sig)
    ensures Holds(d, c, props, i + 1)
  {
    NewLinkReads(b, d, c, props[i].0, props[i].1, sig);
    var s := d.classProps[|b.classProps|].1;
    GrowsTransitive(a, b, d);
    hide Expand, Normal, Closed, ReadsAs, Grows, GainsLink, AllLinked, NothingElse;
    assert Linked(d, c, props[i].0, props[i].1);
    AllLinkedStep(a, d, c, props, i);
    NothingElseStep(a, d, c, props, i, s);
  }

  lemma GrowsTransitive(a: Tables, b: Tables, d: Tables)
    requires Grows(a, b) && Grows(b, d)
    ensures Grows(a, d)
  {
  }

  lemma RowReadsBack(t: Tables, s: Sig, p: Prop)
    requires Closed(t, s) && WellRouted(p) && !Refused(p)
    requires At(t.labels, s.label_) == p.name && At(t.comments, s.comment) == p.comment
    requires At(t.types, s.baseType) == p.baseType && At(t.types, s.modelType) == p.modelType && At(t.types, s.uitype) == p.uitype
    requires At(t.enums, s.enumId) == if KeepsValues(p) then p.validValues else None
    requires s.default == p.default && s.likeProp == p.likeProp && s.residual == StoredResidual(p.residual)
    requires s.bits == Packed(FLAG_ORDER, p.flags, |FLAG_ORDER|)
    ensures Expand(t, s) == Normal(p)
  {
    hide Packed, Unpacked, StoredResidual, WithFlavors, KeepsValues;
    assert p.flags.Keys == set f | f in FLAG_ORDER;
    FlagsRoundTrip(p.flags);
  }

  // ---- The whole catalogue

  ghost predicate AnyRefused(classes: seq<ClassDef>, n: nat)
    requires n <= |classes|
  {
    exists c :: 0 <= c < n && !Accepted(classes[c].props, |classes[c].props|)
  }

  ghost predicate LinksBelow(t: Tables, n: nat) {
    forall l :: l in t.classProps ==> l.0 < n
  }

  /** The first `n` classes read back. */
  ghost predicate Built(t: Tables, digest: Json -> string, classes: seq<ClassDef>, n: nat)
    requires n <= |classes|
  {
    && LinksBelow(t, n)
    && forall c :: 0 <= c < n && Faithful(digest, classes[c].props) ==> Holds(t, c, classes[c].props, |classes[c].props|)
  }

  lemma HoldsStable(a: Tables, b: Tables, c: nat, d: nat, props: seq<(string, Prop)>)
    requires Grows(a, b) && OthersKept(a, b, d) && c != d && Holds(a, c, props, |props|)
    ensures Holds(b, c, props, |props|)
  {
    hide ReadsAsOne, Linked, Grows;
    forall i | 0 <= i < |props| ensures Linked(b, c, props[i].0, props[i].1) { LinkedStable(a, b, c, props[i].0, props[i].1); }
    forall s | (c, s) in b.classProps ensures ReadsAsOne(b, s, props, |props|) { OneStable(a, b, s, props, |props|, |props|); }
  }

  lemma BuiltStep(a: Tables, b: Tables, digest: Json -> string, classes: seq<ClassDef>, n: nat)
    requires n < |classes| && Built(a, digest, classes, n)
    requires AddedSoFar(a, b, digest, n, classes[n].props, |classes[n].props|)
    ensures Built(b, digest, classes, n + 1)
  {
    hide Holds, Grows, Faithful;
    forall l | l in b.classProps ensures l.0 < n + 1 {
      if l.0 != n { assert (l.0, l.1) in a.classProps; }
    }
    forall c | 0 <= c < n + 1 && Faithful(digest, classes[c].props) ensures Holds(b, c, classes[c].props, |classes[c].props|) {
      if c < n { HoldsStable(a, b, c, n, classes[c].props); }
    }
  }

  lemma NoLinksYet(t: Tables, n: nat)
    requires LinksBelow(t, n)
    ensures NoLinks(t, n)
  {
  }

  /** `build_catalog`, its property tables. */
  method BuildCatalog(digest: Json -> string, classes: seq<ClassDef>) returns (t: Option<Tables>)
    ensures t.None? <==> AnyRefused(classes, |classes|)
    ensures t.Some? ==> Built(t.value, digest, classes, |classes|)
  {
    var builder := new Builder(digest);
    ghost var now := builder.View();
    for c := 0 to |classes|
      invariant builder.Valid() && now == builder.View() && builder.enums.digest == digest
      invariant fresh(builder) && fresh(builder.labels) && fresh(builder.comments) && fresh(builder.types) && fresh(builder.enums) && fresh(builder.sigIds)
      invariant Built(now, digest, classes, c) && !AnyRefused(classes, c)
    {
      NoLinksYet(now, c);
      hide Built, AddedSoFar, NoLinks, Accepted;
      var ok := builder.AddClass(c, classes[c].props);
      if !ok { return None; }
      BuiltStep(now, builder.View(), digest, classes, c);
      now := builder.View();
    }
    var labels := builder.labels.Rows();
    var comments := builder.comments.Rows();
    var types := builder.types.Rows();
    var sigs := builder.sigIds.Rows();
    t := Some(Tables(labels, comments, types, builder.enums.blobs, sigs, builder.classProps));
  }

  /** The properties of a class are those of `props`, as the catalogue keeps them. */
  ghost predicate Restores(r: map<string, Prop>, props: seq<(string, Prop)>) {
    (forall w :: w in r <==> w in WiresOf(props)) && forall i :: 0 <= i < |props| ==> props[i].0 in r && r[props[i].0] == Normal(props[i].1)
  }

  /** What reading the links up to some point has put in the dictionary. */
  ghost predicate ReadSoFar(t: Tables, c: nat, links: seq<(nat, nat)>, props: seq<(string, Prop)>, r: map<string, Prop>) {
    && (forall w :: w in r ==> exists i :: 0 <= i < |props| && props[i].0 == w && r[w] == Normal(props[i].1))
    && (forall s :: (c, s) in links && s < |t.sigs| ==> t.sigs[s].wire in r)
  }

  lemma ReadStep(t: Tables, c: nat, links: seq<(nat, nat)>, link: (nat, nat), props: seq<(string, Prop)>, r: map<string, Prop>)
    requires ReadSoFar(t, c, links, props, r)
    ensures link.0 != c ==> ReadSoFar(t, c, links + [link], props, r)
    ensures link.0 == c && ReadsAsOne(t, link.1, props, |props|) ==>
              link.1 < |t.sigs| && Closed(t, t.sigs[link.1]) &&
              ReadSoFar(t, c, links + [link], props, r[t.sigs[link.1].wire := Expand(t, t.sigs[link.1])])
  {
    hide Closed, Expand, Normal;
  }

  /** One property, found in the dictionary under its wire name. */
  lemma ReadOne(t: Tables, c: nat, props: seq<(string, Prop)>, r: map<string, Prop>, i: nat)
    requires i < |props| && Linked(t, c, props[i].0, props[i].1)
    requires ReadSoFar(t, c, t.classProps, props, r) && NoRepeat(WiresOf(props))
    ensures props[i].0 in r && r[props[i].0] == Normal(props[i].1)
  {
    hide Closed, Expand, Normal;
    var s :| (c, s) in t.classProps && ReadsAs(t, s, props[i].0, props[i].1);
    var w := props[i].0;
    assert w in r;
    var j :| 0 <= j < |props| && props[j].0 == w && r[w] == Normal(props[j].1);
    assert WiresOf(props)[i] == WiresOf(props)[j];
  }

  lemma ReadOnlyWires(t: Tables, c: nat, props: seq<(string, Prop)>, r: map<string, Prop>)
    requires ReadSoFar(t, c, t.classProps, props, r)
    ensures forall w :: w in r ==> w in WiresOf(props)
  {
    forall w | w in r ensures w in WiresOf(props) {
      var i :| 0 <= i < |props| && props[i].0 == w && r[w] == Normal(props[i].1);
      assert WiresOf(props)[i] == w;
    }
  }

  lemma WireListed(props: seq<(string, Prop)>, w: string) returns (i: nat)
    requires w in WiresOf(props)
    ensures i < |props| && props[i].0 == w
  {
    i :| i < |WiresOf(props)| && WiresOf(props)[i] == w;
  }

  lemma ReadAll(t: Tables, c: nat, props: seq<(string, Prop)>, r: map<string, Prop>)
    requires Holds(t, c, props, |props|) && ReadSoFar(t, c, t.classProps, props, r) && NoRepeat(WiresOf(props))
    ensures Restores(r, props)
  {
    hide ReadSoFar, Linked, Normal, NoRepeat, NothingElse;
    ReadOnlyWires(t, c, props, r);
    forall i | 0 <= i < |props| ensures props[i].0 in r && r[props[i].0] == Normal(props[i].1) {
      ReadOne(t, c, props, r, i);
    }
    forall w | w in WiresOf(props) ensures w in r {
      var i := WireListed(props, w);
    }
  }

  /** `_reconstruct_props`: gives back every property of the class, as the catalogue keeps it. */
  method ReconstructProps(t: Tables, c: nat, ghost props: seq<(string, Prop)>) returns (r: map<string, Prop>)
    requires Holds(t, c, props, |props|) && NoRepeat(WiresOf(props))
    ensures Restores(r, props)
  {
    r := map[];
    for k := 0 to |t.classProps|
      invariant ReadSoFar(t, c, t.classProps[..k], props, r)
    {
      var link := t.classProps[k];
      assert t.classProps[..k + 1] == t.classProps[..k] + [link];
      ReadStep(t, c, t.classProps[..k], link, props, r);
      assert link.0 == c ==> (c, link.1) in t.classProps;
      hide ReadSoFar, ReadsAsOne, Expand, Closed;
      if link.0 == c {
        r := r[t.sigs[link.1].wire := Expand(t, t.sigs[link.1])];
      }
    }
    assert t.classProps[..|t.classProps|] == t.classProps;
    ReadAll(t, c, props, r);
  }

  // ---- There and back

  /** The classes as the schema gives them: one property a wire name, no flag key but the known ones. */
  ghost predicate FromSchema(classes: seq<ClassDef>) {
    forall c :: 0 <= c < |classes| ==>
      NoRepeat(WiresOf(classes[c].props)) && forall i :: 0 <= i < |classes[c].props| ==> WellRouted(classes[c].props[i].1)
  }

  /** Read back, each property is the original minus the dropped keys exactly when it is `Lossless`. */
  ghost predicate ReadBack(r: map<string, Prop>, props: seq<(string, Prop)>) {
    && (forall w :: w in r <==> w in WiresOf(props))
    && forall i :: 0 <= i < |props| ==> props[i].0 in r && (r[props[i].0] == Stripped(props[i].1) <==> Lossless(props[i].1))
  }

  /** Written as null, false, zero or empty. */
  predicate Blank(j: Json) {
    j in [JNull, JBool(false), JNum(0), JStr(""), JList([]), JObject([])]
  }

  /** Values that the catalogue keeps: a list, not empty, of no `mo:` type. */
  ghost predicate HasEnumeration(p: Prop) {
    && p.validValues.Some? && p.validValues.value.JList? && |p.validValues.value.items| > 0
    && (p.baseType.Some? ==> |p.baseType.value| < 3 || p.baseType.value[..3] != "mo:")
  }

  /** What comes back of a property, part by part. */
  ghost predicate ComesBack(p: Prop, q: Prop) {
    && q.name == p.name && q.comment == p.comment && q.baseType == p.baseType && q.modelType == p.modelType && q.uitype == p.uitype
    && q.default == p.default && q.likeProp == p.likeProp && q.flags == p.flags && q.dropped == map[] && q.unrouted == {}
    && q.validValues == (if HasEnumeration(p) then p.validValues else None)
    && (forall k :: k != "platformFlavors" ==> (k in q.residual <==> k in p.residual) && (k in p.residual ==> q.residual[k] == p.residual[k]))
    && "platformFlavors" in q.residual
    && q.residual["platformFlavors"] ==
       if "platformFlavors" in p.residual && !Blank(p.residual["platformFlavors"]) then p.residual["platformFlavors"] else JList([])
  }

  lemma NormalComesBack(p: Prop)
    ensures ComesBack(p, Normal(p))
  {
    forall j: Json ensures Blank(j) <==> !Truthy(j) { BlankIsFalsy(j); }
    hide Blank, Truthy;
    assert HasEnumeration(p) <==> KeepsValues(p) by { EnumerationKept(p); }
  }

  lemma BlankIsFalsy(j: Json)
    ensures Blank(j) <==> !Truthy(j)
  {
  }

  lemma EnumerationKept(p: Prop)
    ensures HasEnumeration(p) <==> KeepsValues(p)
  {
  }

  ghost predicate AllComeBack(r: map<string, Prop>, props: seq<(string, Prop)>) {
    forall i :: 0 <= i < |props| ==> props[i].0 in r && ComesBack(props[i].1, r[props[i].0])
  }

  lemma RestoredComeBack(r: map<string, Prop>, props: seq<(string, Prop)>)
    requires Restores(r, props)
    ensures AllComeBack(r, props)
  {
    hide Normal, ComesBack;
    forall i | 0 <= i < |props| ensures props[i].0 in r && ComesBack(props[i].1, r[props[i].0]) { NormalComesBack(props[i].1); }
  }

  lemma RestoresReadBack(r: map<string, Prop>, props: seq<(string, Prop)>)
    requires Restores(r, props)
    ensures ReadBack(r, props)
  {
    hide Normal, Stripped, Lossless;
    forall i | 0 <= i < |props| ensures props[i].0 in r && (r[props[i].0] == Stripped(props[i].1) <==> Lossless(props[i].1)) {
      LosslessIff(props[i].1);
    }
  }

  /** Building the catalogue of any list of classes, then reconstructing the properties of each. */
  method RoundTrip(digest: Json -> string, classes: seq<ClassDef>) returns (r: Option<seq<map<string, Prop>>>)
    requires Injective(digest) && FromSchema(classes)
    ensures r.None? <==> AnyRefused(classes, |classes|)
    ensures r.Some? ==> |r.value| == |classes|
    ensures r.Some? ==> forall c :: 0 <= c < |classes| ==> Restores(r.value[c], classes[c].props) && ReadBack(r.value[c], classes[c].props)
    ensures r.Some? ==> forall c :: 0 <= c < |classes| ==> AllComeBack(r.value[c], classes[c].props)
  {
    hide *;
    var t := BuildCatalog(digest, classes);
    if t.None? { return None; }
    var out: seq<map<string, Prop>> := [];
    for c := 0 to |classes|
      invariant |out| == c
      invariant forall k :: 0 <= k < c ==> Restores(out[k], classes[k].props) && ReadBack(out[k], classes[k].props)
      invariant forall k :: 0 <= k < c ==> AllComeBack(out[k], classes[k].props)
    {
      BuiltHolds(t.value, digest, classes, c);
      var props := ReconstructProps(t.value, c, classes[c].props);
      RestoresReadBack(props, classes[c].props);
      RestoredComeBack(props, classes[c].props);
      out := out + [props];
    }
    return Some(out);
  }

  lemma BuiltHolds(t: Tables, digest: Json -> string, classes: seq<ClassDef>, c: nat)
    requires Built(t, digest, classes, |classes|) && c < |classes| && Injective(digest) && FromSchema(classes)
    ensures Holds(t, c, classes[c].props, |classes[c].props|) && NoRepeat(WiresOf(classes[c].props))
  {
    hide Holds, NoRepeat;
    assert Faithful(digest, classes[c].props);
  }
}
