/** The plan: a dry-run diff of the desired tree against the current one (`_plan_result` in `_push.py`). */
module Plan {
  import opened Text
  import opened Dn
  import opened Store
  import opened Rebuild
  import opened Compiler
  import opened Merge

  /** Per attribute, the current value if any and the desired one. */
  type Changes = map<string, (Option<string>, string)>

  datatype Verdict = Create | Update(changes: Changes) | Same

  /** One desired object and what the plan says of it. */
  datatype Entry = Entry(desired: Write, verdict: Verdict)

  /** `mo_diff`: the declared attributes whose current value does not agree. */
  function Drift(m: Models, d: Write, c: Obj): Changes {
    map wire | wire in d.attrs && !(wire in c.attrs && Agree(m, d.cls, wire, c.attrs[wire], d.attrs[wire])) ::
      (if wire in c.attrs then Some(c.attrs[wire]) else None, d.attrs[wire])
  }

  function Judge(m: Models, d: Write, c: Obj): (r: Verdict)
    ensures !r.Create?
  {
    var changes := Drift(m, d, c);
    if changes == map[] then Same else Update(changes)
  }

  /** `current_children.get((aci_class, rn))`. */
  function FindChild(ts: seq<Env>, cls: string, rn: string): (r: Option<Env>)
    ensures r.Some? ==> r.value in ts && r.value.cls == cls && r.value.rn == rn
    ensures r.None? ==> forall t :: t in ts ==> t.cls != cls || t.rn != rn
  {
    if ts == [] then None
    else
      assert forall t :: t in ts <==> t in ts[..|ts| - 1] || t == ts[|ts| - 1] by {
        assert ts == ts[..|ts| - 1] + [ts[|ts| - 1]];
      }
      if ts[|ts| - 1].cls == cls && ts[|ts| - 1].rn == rn then Some(ts[|ts| - 1])
      else FindChild(ts[..|ts| - 1], cls, rn)
  }

  function ChildOf(parent: Option<Env>, child: Env): Option<Env> {
    if parent.None? then None else FindChild(parent.value.children, child.cls, child.rn)
  }

  /** The current object when it is there with the desired class. */
  function Met(d: Env, c: Option<Env>): Option<Env> {
    if c.Some? && c.value.cls == d.cls then c else None
  }

  function OwnEntry(m: Models, d: Env, c: Option<Env>, dn: string): Entry {
    var w := Write(dn, d.cls, d.attrs);
    Entry(w, if c.None? then Create else Judge(m, w, Obj(c.value.cls, c.value.attrs)))
  }

  function Planned(m: Models, d: Env, c: Option<Env>, dn: string): seq<Entry>
    decreases d, 0
  {
    [OwnEntry(m, d, Met(d, c), dn)] + PlannedAll(m, d.children, Met(d, c), dn)
  }

  function PlannedAll(m: Models, ds: seq<Env>, parent: Option<Env>, at: string): seq<Entry>
    decreases ds
  {
    if ds == [] then []
    else
      assert ds[|ds| - 1] in ds;
      PlannedAll(m, ds[..|ds| - 1], parent, at) +
      Planned(m, ds[|ds| - 1], ChildOf(parent, ds[|ds| - 1]), Child(at, ds[|ds| - 1].rn))
  }

  // ---- The report

  function Creates(es: seq<Entry>): seq<string> {
    if es == [] then []
    else Creates(es[..|es| - 1]) + if es[|es| - 1].verdict.Create? then [es[|es| - 1].desired.dn] else []
  }

  function Unchanged(es: seq<Entry>): seq<string> {
    if es == [] then []
    else Unchanged(es[..|es| - 1]) + if es[|es| - 1].verdict.Same? then [es[|es| - 1].desired.dn] else []
  }

  function Updates(es: seq<Entry>): map<string, Changes> {
    if es == [] then map[]
    else
      var before, last := Updates(es[..|es| - 1]), es[|es| - 1];
      if last.verdict.Update? then before[last.desired.dn := last.verdict.changes] else before
  }

  datatype PlanResult = PlanResult(creates: seq<string>, updates: map<string, Changes>, same: seq<string>)

  function Report(es: seq<Entry>): PlanResult {
    PlanResult(Creates(es), Updates(es), Unchanged(es))
  }

  function AddEntry(r: PlanResult, e: Entry): PlanResult {
    match e.verdict
    case Create => r.(creates := r.creates + [e.desired.dn])
    case Update(changes) => r.(updates := r.updates[e.desired.dn := changes])
    case Same => r.(same := r.same + [e.desired.dn])
  }

  lemma ReportSnoc(es: seq<Entry>, e: Entry)
    ensures Report(es + [e]) == AddEntry(Report(es), e)
  {
    assert (es + [e])[..|es|] == es;
  }

  class Planner {
    const m: Models
    var result: PlanResult
    ghost var entries: seq<Entry>

    ghost predicate Valid()
      reads this
    {
      result == Report(entries)
    }

    constructor (m: Models)
      ensures this.m == m && Valid() && entries == []
    {
      this.m, result, entries := m, PlanResult([], map[], []), [];
    }

    method Book(e: Entry)
      requires Valid()
      modifies this
      ensures Valid() && entries == old(entries) + [e]
    {
      ReportSnoc(entries, e);
      entries := entries + [e];
      result := AddEntry(result, e);
    }

    /** `_walk`: once an object is a create, so is everything below it. */
    method Walk(d: Env, c: Option<Env>, dn: string)
      requires Valid()
      modifies this
      ensures Valid() && entries == old(entries) + Planned(m, d, c, dn)
      decreases d, 0
    {
      hide OwnEntry, PlannedAll;
      var met := Met(d, c);
      var own := OwnEntry(m, d, met, dn);
      Book(own);
      WalkAll(d.children, met, dn);
      assert old(entries) + [own] + PlannedAll(m, d.children, met, dn) == old(entries) + ([own] + PlannedAll(m, d.children, met, dn));
    }

    method WalkAll(ds: seq<Env>, parent: Option<Env>, at: string)
      requires Valid()
      modifies this
      ensures Valid() && entries == old(entries) + PlannedAll(m, ds, parent, at)
      decreases ds
    {
      assert ds[..0] == [];
      for i := 0 to |ds|
        invariant Valid() && entries == old(entries) + PlannedAll(m, ds[..i], parent, at)
      {
        hide Planned, Valid;
        Walk(ds[i], ChildOf(parent, ds[i]), Child(at, ds[i].rn));
        assert ds[..i + 1][..i] == ds[..i];
        ghost var before, own := PlannedAll(m, ds[..i], parent, at), Planned(m, ds[i], ChildOf(parent, ds[i]), Child(at, ds[i].rn));
        assert old(entries) + before + own == old(entries) + (before + own);
      }
      assert ds[..|ds|] == ds;
    }
  }

  /** `_plan_result`. */
  method Plan(m: Models, desired: Env, current: Option<Env>, rootDn: string) returns (r: PlanResult)
    ensures r == Report(Planned(m, desired, current, rootDn))
  {
    var planner := new Planner(m);
    planner.Walk(desired, current, rootDn);
    assert [] + Planned(m, desired, current, rootDn) == Planned(m, desired, current, rootDn);
    r := planner.result;
  }

  predicate HasChanges(r: PlanResult) {
    r.creates != [] || r.updates != map[]
  }
}
