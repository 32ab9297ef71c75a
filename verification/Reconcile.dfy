/** The reconcile planner: from what exists and what a forma asks for to a set of operations
    (internal/metastructure/resource_update/resource_update_generator.go). Plans are read as sets. */
module Reconcile {
  import opened Common
  import opened Operations

  /** A resource as the planner sees it; `refs` are the URIs its properties refer to. */
  datatype Resource = Resource(
    ksuid: string, stack: string, name: string, kind: string, target: string, refs: seq<FormaeUri>, props: string)
  {
    function Uri(): FormaeUri { FormaeUri(ksuid, "") }
    function FormaKey(): string { stack + "|" + name + "|" + kind }
  }

  predicate SameTriple(a: Resource, b: Resource) { a.stack == b.stack && a.name == b.name && a.kind == b.kind }

  /** The resource of the forma that an existing one is compared with. */
  predicate Matches(e: Resource, n: Resource) { SameTriple(e, n) && e.target == n.target }

  predicate RefersTo(r: Resource, d: Resource) { exists u | u in r.refs :: u.Stripped() == d.Uri() }

  datatype PlanOp = CreateOp(n: Resource) | UpdateOp(e: Resource, n: Resource) | DeleteOp(e: Resource) {
    /** The resource the operation is filed under. */
    function Subject(): Resource { if DeleteOp? then e else n }
  }

  datatype Outcome = NoChange | InPlace | Replacement

  /** The comparison of properties and the patch it leads to are the environment's. */
  datatype Differ = Differ(decide: (Resource, Resource) -> Outcome) {
    function Compare(e: Resource, n: Resource): Outcome { if e == n then NoChange else decide(e, n) }
  }

  // ----- What the loops collect, as sets -----

  predicate Unmatched(e: Resource, forma: seq<Resource>) { forall n | n in forma :: !Matches(e, n) }

  predicate IsNew(n: Resource, existing: seq<Resource>) { forall e | e in existing :: !Matches(e, n) }

  function Updates(d: Differ, existing: seq<Resource>, forma: seq<Resource>): set<PlanOp> {
    set e, n | e in existing && n in forma && Matches(e, n) && d.Compare(e, n) == InPlace :: UpdateOp(e, n)
  }

  function ReplaceDeletes(d: Differ, existing: seq<Resource>, forma: seq<Resource>): set<PlanOp> {
    set e, n | e in existing && n in forma && Matches(e, n) && d.Compare(e, n) == Replacement :: DeleteOp(e)
  }

  function ReplaceCreates(d: Differ, existing: seq<Resource>, forma: seq<Resource>): set<PlanOp> {
    set e, n | e in existing && n in forma && Matches(e, n) && d.Compare(e, n) == Replacement :: CreateOp(n)
  }

  function ImplicitDeletes(existing: seq<Resource>, forma: seq<Resource>): set<PlanOp> {
    set e | e in existing && (exists n | n in forma :: n.stack == e.stack) && Unmatched(e, forma) :: DeleteOp(e)
  }

  function Creates(existing: seq<Resource>, forma: seq<Resource>): set<PlanOp> {
    set n | n in forma && IsNew(n, existing) :: CreateOp(n)
  }

  /** Deletes for existing resources that refer to one being deleted and are not in the list themselves. */
  function DependencyDeletes(deletes: set<PlanOp>, existing: seq<Resource>): set<PlanOp> {
    set r, op | r in existing && op in deletes && op.DeleteOp? && !SameTriple(r, op.e) && RefersTo(r, op.e)
                && (forall x | x in deletes :: !SameTriple(x.Subject(), r)) :: DeleteOp(r)
  }

  predicate HasUpdateOrCreate(all: set<PlanOp>, r: Resource) {
    exists op | op in all :: !op.DeleteOp? && op.n.Uri() == r.Uri()
  }

  /** A dependency delete of something the forma keeps and nothing else touches becomes a replacement. */
  predicate BecomesReplacement(all: set<PlanOp>, forma: seq<Resource>, r: Resource, n: Resource) {
    n in forma && n.FormaKey() == r.FormaKey() && !HasUpdateOrCreate(all, r)
  }

  // ----- Applying a plan -----

  /** What there is after the plan: existing resources that are neither deleted nor updated, the new forms of the
      updated ones, and the created ones. */
  ghost function Applied(plan: set<PlanOp>, existing: seq<Resource>): set<Resource> {
    (set e | e in existing && DeleteOp(e) !in plan && (forall op | op in plan && op.UpdateOp? :: op.e != e)) +
    (set op | op in plan && op.UpdateOp? && op.e in existing && DeleteOp(op.e) !in plan :: op.n) +
    (set op | op in plan && op.CreateOp? :: op.n)
  }

  // ----- The plan -----

  function FirstPlan(d: Differ, existing: seq<Resource>, forma: seq<Resource>): set<PlanOp> {
    Creates(existing, forma) + Removals(d, existing, forma) + Updates(d, existing, forma)
  }

  /** Everything that goes with a replacement or an implicit removal. */
  function Removals(d: Differ, existing: seq<Resource>, forma: seq<Resource>): set<PlanOp> {
    ReplaceDeletes(d, existing, forma) + ReplaceCreates(d, existing, forma) + ImplicitDeletes(existing, forma)
  }

  function ReplacementCreates(all: set<PlanOp>, deps: set<PlanOp>, forma: seq<Resource>): set<PlanOp> {
    set op, n | op in deps && op.DeleteOp? && n in forma && BecomesReplacement(all, forma, op.e, n) :: CreateOp(n)
  }

  predicate DependencyDeleted(deps: set<PlanOp>, r: Resource) {
    exists op | op in deps :: op.DeleteOp? && op.e.Uri() == r.Uri()
  }

  /** Updates of resources that must be deleted for their references become replacements. */
  function Converted(all: set<PlanOp>, deps: set<PlanOp>): set<PlanOp> {
    (set op | op in all && !(op.UpdateOp? && DependencyDeleted(deps, op.n))) +
    (set op | op in all && op.UpdateOp? && DependencyDeleted(deps, op.n) :: DeleteOp(op.e)) +
    (set op | op in all && op.UpdateOp? && DependencyDeleted(deps, op.n) :: CreateOp(op.n))
  }

  function FinalPlan(d: Differ, existing: seq<Resource>, forma: seq<Resource>): set<PlanOp> {
    var all, deps := FirstPlan(d, existing, forma), DependencyDeletes(Removals(d, existing, forma), existing);
    Converted(all + deps + ReplacementCreates(all, deps, forma), deps)
  }

  // ----- What the planner may rely on -----

  ghost predicate Distinct(s: seq<Resource>) {
    forall a, b | a in s && b in s && SameTriple(a, b) :: a == b
  }

  /** Stack, label and type identify a resource on each side, where it is listed once, and go with one KSUID
      throughout. */
  ghost predicate WellFormed(existing: seq<Resource>, forma: seq<Resource>) {
    && Distinct(existing) && Distinct(forma) && NoDup(existing) && NoDup(forma)
    && (forall a, b | a in existing + forma && b in existing + forma ::
          && (a.ksuid == b.ksuid <==> SameTriple(a, b))
          && (a.FormaKey() == b.FormaKey() ==> SameTriple(a, b)))
  }

  // ----- Facts about the plan -----

  lemma {:induction false} FirstPlanShape(d: Differ, existing: seq<Resource>, forma: seq<Resource>, op: PlanOp)
    requires op in FirstPlan(d, existing, forma)
    ensures op.DeleteOp? ==> op.e in existing && op in Removals(d, existing, forma)
    ensures op.CreateOp? ==> op.n in forma
    ensures op.UpdateOp? ==>
              && op.e in existing && op.n in forma && Matches(op.e, op.n) && d.Compare(op.e, op.n) == InPlace
  {
  }

  /** An existing resource is deleted by the first plan exactly when it is replaced or not matched. */
  lemma {:induction false} FirstPlanDeletes(d: Differ, existing: seq<Resource>, forma: seq<Resource>, e: Resource)
    requires e in existing
    ensures DeleteOp(e) in Removals(d, existing, forma) <==>
            || (exists n | n in forma :: Matches(e, n) && d.Compare(e, n) == Replacement)
            || ((exists n | n in forma :: n.stack == e.stack) && Unmatched(e, forma))
  {
  }

  lemma {:induction false} DependencyShape(deletes: set<PlanOp>, existing: seq<Resource>, op: PlanOp)
    requires op in DependencyDeletes(deletes, existing)
    ensures op.DeleteOp? && op.e in existing && forall x | x in deletes :: !SameTriple(x.Subject(), op.e)
  {
  }

  lemma {:induction false} ConvertedOps(all: set<PlanOp>, deps: set<PlanOp>, r: Resource, n: Resource)
    ensures DeleteOp(r) in Converted(all, deps) <==>
            DeleteOp(r) in all || exists op | op in all :: op.UpdateOp? && DependencyDeleted(deps, op.n) && op.e == r
    ensures CreateOp(n) in Converted(all, deps) <==>
            CreateOp(n) in all || exists op | op in all :: op.UpdateOp? && DependencyDeleted(deps, op.n) && op.n == n
    ensures UpdateOp(r, n) in Converted(all, deps) <==> UpdateOp(r, n) in all && !DependencyDeleted(deps, n)
  {
  }

  /** An update is converted exactly when the resource it updates is deleted for its references. */
  lemma {:induction false} UpdateConverted(d: Differ, existing: seq<Resource>, forma: seq<Resource>, op: PlanOp)
    requires WellFormed(existing, forma) && op.UpdateOp?
    ensures var deps := DependencyDeletes(Removals(d, existing, forma), existing);
            op in FirstPlan(d, existing, forma) ==> (DependencyDeleted(deps, op.n) <==> DeleteOp(op.e) in deps)
  {
    hide DependencyDeletes, Removals, FirstPlan, WellFormed, Differ.Compare;
    if op in FirstPlan(d, existing, forma) {
      var deps := DependencyDeletes(Removals(d, existing, forma), existing);
      FirstPlanShape(d, existing, forma, op);
      var e, n := op.e, op.n;
      SameResource(existing, forma, e, n);
      if DependencyDeleted(deps, n) {
        var x :| x in deps && x.DeleteOp? && x.e.Uri() == n.Uri();
        DependencyShape(Removals(d, existing, forma), existing, x);
        SameResource(existing, forma, x.e, n);
        SameResource(existing, forma, x.e, e);
      }
    }
  }

  /** The same KSUID is the same stack, label and type, and on one side the same resource. */
  lemma {:induction false} SameResource(existing: seq<Resource>, forma: seq<Resource>, a: Resource, b: Resource)
    requires WellFormed(existing, forma) && (a in existing || a in forma) && (b in existing || b in forma)
    ensures a.Uri() == b.Uri() <==> SameTriple(a, b)
    ensures a.FormaKey() == b.FormaKey() <==> SameTriple(a, b)
    ensures SameTriple(a, b) && ((a in existing && b in existing) || (a in forma && b in forma)) ==> a == b
  {
    assert a in existing + forma && b in existing + forma;
  }

  /** Every deletion of the final plan is of an existing resource, and for which reason. */
  lemma {:induction false} FinalDeletes(d: Differ, existing: seq<Resource>, forma: seq<Resource>, r: Resource)
    requires WellFormed(existing, forma)
    ensures DeleteOp(r) in FinalPlan(d, existing, forma) <==>
            || DeleteOp(r) in Removals(d, existing, forma)
            || DeleteOp(r) in DependencyDeletes(Removals(d, existing, forma), existing)
  {
    hide Converted, DependencyDeletes, Creates, Updates, Removals, WellFormed, DependencyDeleted;
    var all, deps := FirstPlan(d, existing, forma), DependencyDeletes(Removals(d, existing, forma), existing);
    var all1 := all + deps + ReplacementCreates(all, deps, forma);
    ConvertedOps(all1, deps, r, r);
    NoUpdatesIn(all, deps, d, existing, forma);
    if op :| op in all1 && op.UpdateOp? && DependencyDeleted(deps, op.n) && op.e == r {
      UpdateConverted(d, existing, forma, op);
    }
    if DeleteOp(r) in all {
      FirstPlanShape(d, existing, forma, DeleteOp(r));
    }
  }

  /** The additions to the first plan hold no updates. */
  lemma {:induction false} NoUpdatesIn(
    all: set<PlanOp>, deps: set<PlanOp>, d: Differ, existing: seq<Resource>, forma: seq<Resource>)
    requires deps == DependencyDeletes(Removals(d, existing, forma), existing)
    ensures forall op | op in deps :: op.DeleteOp?
    ensures forall op | op in ReplacementCreates(all, deps, forma) :: op.CreateOp? && op.n in forma
  {
  }

  /** What an update or a create of the first plan says about the existing resource it concerns. */
  lemma {:induction false} FirstPlanSubject(
    d: Differ, existing: seq<Resource>, forma: seq<Resource>, op: PlanOp, e: Resource, n: Resource)
    requires WellFormed(existing, forma) && e in existing && n in forma && Matches(e, n)
    requires op in FirstPlan(d, existing, forma) && !op.DeleteOp? && op.n.Uri() == e.Uri()
    ensures op.n == n
    ensures op.UpdateOp? ==> op.e == e && d.Compare(e, n) == InPlace
    ensures op.CreateOp? ==> d.Compare(e, n) == Replacement
  {
    hide Resource.FormaKey, WellFormed;
    FirstPlanShape(d, existing, forma, op);
    SameResource(existing, forma, op.n, e);
    SameResource(existing, forma, op.n, n);
    if op.UpdateOp? {
      SameResource(existing, forma, op.e, e);
    } else {
      assert op in Creates(existing, forma) || op in ReplaceCreates(d, existing, forma);
      if op in ReplaceCreates(d, existing, forma) {
        var e', n' :| e' in existing && n' in forma && Matches(e', n') && d.Compare(e', n') == Replacement &&
            n' == op.n;
        SameResource(existing, forma, e', e);
      }
    }
  }

  ghost function Deps(d: Differ, existing: seq<Resource>, forma: seq<Resource>): set<PlanOp> {
    DependencyDeletes(Removals(d, existing, forma), existing)
  }

  /** The creations and updates of the final plan, and where they come from. */
  lemma {:induction false} FinalCreatesAndUpdates(
    d: Differ, existing: seq<Resource>, forma: seq<Resource>, e: Resource, n: Resource)
    requires WellFormed(existing, forma)
    ensures var all, deps := FirstPlan(d, existing, forma), Deps(d, existing, forma);
            CreateOp(n) in FinalPlan(d, existing, forma) <==>
              || CreateOp(n) in all || CreateOp(n) in ReplacementCreates(all, deps, forma)
              || exists op | op in all :: op.UpdateOp? && op.n == n && DeleteOp(op.e) in deps
    ensures UpdateOp(e, n) in FinalPlan(d, existing, forma) <==>
            UpdateOp(e, n) in FirstPlan(d, existing, forma) && DeleteOp(e) !in Deps(d, existing, forma)
  {
    hide Converted, DependencyDeletes, FirstPlan, Removals, WellFormed, DependencyDeleted, ReplacementCreates;
    var all, deps := FirstPlan(d, existing, forma), Deps(d, existing, forma);
    var all1 := all + deps + ReplacementCreates(all, deps, forma);
    ConvertedOps(all1, deps, e, n);
    NoUpdatesIn(all, deps, d, existing, forma);
    forall op | op in all1 && op.UpdateOp? ensures op in all && (DependencyDeleted(deps, op.n) <==>
        DeleteOp(op.e) in deps) {
      UpdateConverted(d, existing, forma, op);
    }
    if UpdateOp(e, n) in all {
      assert UpdateOp(e, n) in all1;
    }
    if op :| op in all && op.UpdateOp? && op.n == n && DeleteOp(op.e) in deps {
      assert op in all1;
    }
  }

  /** A matched resource that is not being replaced leaves the plan only for its references. */
  lemma {:induction false} MatchedDeletes(
    d: Differ, existing: seq<Resource>, forma: seq<Resource>, e: Resource, n: Resource)
    requires WellFormed(existing, forma) && e in existing && n in forma && Matches(e, n)
    ensures DeleteOp(e) in FinalPlan(d, existing, forma) <==>
            d.Compare(e, n) == Replacement || DeleteOp(e) in Deps(d, existing, forma)
  {
    hide FinalPlan, WellFormed, DependencyDeletes, Removals, Differ.Compare;
    FinalDeletes(d, existing, forma, e);
    FirstPlanDeletes(d, existing, forma, e);
    forall n' | n' in forma && Matches(e, n') ensures n' == n {
      SameResource(existing, forma, n', n);
    }
  }

  /** A create for a matched resource comes with a deletion of it. */
  lemma {:induction false} MatchedCreates(
    d: Differ, existing: seq<Resource>, forma: seq<Resource>, e: Resource, n: Resource)
    requires WellFormed(existing, forma) && e in existing && n in forma && Matches(e, n)
    ensures CreateOp(n) in FinalPlan(d, existing, forma) <==>
            d.Compare(e, n) == Replacement || DeleteOp(e) in Deps(d, existing, forma)
  {
    hide FinalPlan, WellFormed, DependencyDeletes, Removals, Differ.Compare, Creates, Updates, Resource.FormaKey;
    var all, deps := FirstPlan(d, existing, forma), Deps(d, existing, forma);
    FinalCreatesAndUpdates(d, existing, forma, e, n);
    SameResource(existing, forma, e, n);
    if CreateOp(n) in all {
      FirstPlanSubject(d, existing, forma, CreateOp(n), e, n);
    } else if CreateOp(n) in ReplacementCreates(all, deps, forma) {
      ReplacementSource(d, existing, forma, e, n);
    } else if op :| op in all && op.UpdateOp? && op.n == n && DeleteOp(op.e) in deps {
      FirstPlanSubject(d, existing, forma, op, e, n);
    }
    if d.Compare(e, n) == Replacement {
      ReplacementPlanned(d, existing, forma, e, n);
    } else if DeleteOp(e) in deps {
      if op :| op in all && !op.DeleteOp? && op.n.Uri() == e.Uri() {
        FirstPlanSubject(d, existing, forma, op, e, n);
      } else {
        assert BecomesReplacement(all, forma, e, n);
        assert DeleteOp(e).e == e;
      }
    }
  }

  lemma {:induction false} ReplacementPlanned(
    d: Differ, existing: seq<Resource>, forma: seq<Resource>, e: Resource, n: Resource)
    requires e in existing && n in forma && Matches(e, n) && d.Compare(e, n) == Replacement
    ensures CreateOp(n) in FirstPlan(d, existing, forma)
  {
    assert CreateOp(n) in ReplaceCreates(d, existing, forma);
  }

  lemma {:induction false} ReplacementSource(
    d: Differ, existing: seq<Resource>, forma: seq<Resource>, e: Resource, n: Resource)
    requires WellFormed(existing, forma) && e in existing && n in forma && SameTriple(e, n)
    ensures CreateOp(n) in ReplacementCreates(FirstPlan(d, existing, forma), Deps(d, existing, forma), forma) ==>
              DeleteOp(e) in Deps(d, existing, forma)
  {
    hide FinalPlan, WellFormed, FirstPlan, DependencyDeletes, Removals, Resource.FormaKey;
    if CreateOp(n) in ReplacementCreates(FirstPlan(d, existing, forma), Deps(d, existing, forma), forma) {
      var all, deps := FirstPlan(d, existing, forma), Deps(d, existing, forma);
      var op, n' :| op in deps && op.DeleteOp? && n' in forma && BecomesReplacement(all, forma, op.e, n') && n' == n;
      DependencyShape(Removals(d, existing, forma), existing, op);
      SameResource(existing, forma, op.e, n);
      SameResource(existing, forma, op.e, e);
    }
  }

  // ----- The fate of a matched, an unmatched and a new resource -----

  /** A resource that exists and is asked for stays, is updated, or is deleted and created again. */
  lemma {:induction false} MatchedFate(
    d: Differ, existing: seq<Resource>, forma: seq<Resource>, e: Resource, n: Resource)
    requires WellFormed(existing, forma) && e in existing && n in forma && Matches(e, n)
    ensures var plan := FinalPlan(d, existing, forma);
            && (CreateOp(n) in plan <==> DeleteOp(e) in plan)
            && (UpdateOp(e, n) in plan <==> DeleteOp(e) !in plan && d.Compare(e, n) == InPlace)
            && (forall op | op in plan && op.UpdateOp? && op.e == e :: op.n == n)
  {
    hide FinalPlan, WellFormed, DependencyDeletes, Removals, Differ.Compare, Creates, FirstPlan, Resource.FormaKey;
    MatchedDeletes(d, existing, forma, e, n);
    MatchedCreates(d, existing, forma, e, n);
    FinalCreatesAndUpdates(d, existing, forma, e, n);
    UpdatePlanned(d, existing, forma, e, n);
    forall op | op in FinalPlan(d, existing, forma) && op.UpdateOp? && op.e == e ensures op.n == n {
      FinalCreatesAndUpdates(d, existing, forma, op.e, op.n);
      FirstPlanShape(d, existing, forma, op);
      SameResource(existing, forma, op.n, n);
    }
  }

  lemma {:induction false} UpdatePlanned(
    d: Differ, existing: seq<Resource>, forma: seq<Resource>, e: Resource, n: Resource)
    requires e in existing && n in forma && Matches(e, n)
    ensures UpdateOp(e, n) in FirstPlan(d, existing, forma) <==> d.Compare(e, n) == InPlace
  {
  }

  /** A resource of a stack the forma speaks about, but which it does not ask for, goes, and nothing replaces it. */
  lemma {:induction false} UnmatchedFate(d: Differ, existing: seq<Resource>, forma: seq<Resource>, e: Resource)
    requires WellFormed(existing, forma) && e in existing && Unmatched(e, forma)
    requires exists n | n in forma :: n.stack == e.stack
    ensures DeleteOp(e) in FinalPlan(d, existing, forma)
  {
    hide FinalPlan, WellFormed, DependencyDeletes, Removals, Differ.Compare;
    FinalDeletes(d, existing, forma, e);
    FirstPlanDeletes(d, existing, forma, e);
  }

  lemma {:induction false} NewFate(d: Differ, existing: seq<Resource>, forma: seq<Resource>, n: Resource)
    requires WellFormed(existing, forma) && n in forma && IsNew(n, existing)
    ensures CreateOp(n) in FinalPlan(d, existing, forma)
  {
    hide FinalPlan, WellFormed, DependencyDeletes, Removals, ReplacementCreates;
    FinalCreatesAndUpdates(d, existing, forma, n, n);
    assert CreateOp(n) in Creates(existing, forma);
  }

  /** Only resources of the forma are created. */
  lemma {:induction false} CreatedAreAskedFor(d: Differ, existing: seq<Resource>, forma: seq<Resource>, n: Resource)
    requires WellFormed(existing, forma)
    ensures CreateOp(n) in FinalPlan(d, existing, forma) ==> n in forma
  {
    hide FinalPlan, WellFormed, DependencyDeletes, FirstPlan, Removals, ReplacementCreates;
    if CreateOp(n) in FinalPlan(d, existing, forma) {
      FinalCreatesAndUpdates(d, existing, forma, n, n);
      var all, deps := FirstPlan(d, existing, forma), Deps(d, existing, forma);
      NoUpdatesIn(all, deps, d, existing, forma);
      if CreateOp(n) in all {
        FirstPlanShape(d, existing, forma, CreateOp(n));
      } else if op :| op in all && op.UpdateOp? && op.n == n && DeleteOp(op.e) in deps {
        FirstPlanShape(d, existing, forma, op);
      }
    }
  }

  // ----- Convergence -----

  predicate Touches(forma: seq<Resource>, stack: string) { exists n | n in forma :: n.stack == stack }

  ghost predicate SettlesMatched(d: Differ, plan: set<PlanOp>, e: Resource, n: Resource) {
    && (CreateOp(n) in plan <==> DeleteOp(e) in plan)
    && (UpdateOp(e, n) in plan <==> DeleteOp(e) !in plan && d.Compare(e, n) == InPlace)
    && (d.Compare(e, n) == Replacement ==> DeleteOp(e) in plan)
  }

  /** What a plan does about each resource, existing or asked for. */
  ghost predicate Settles(d: Differ, existing: seq<Resource>, forma: seq<Resource>, plan: set<PlanOp>) {
    && (forall e, n | e in existing && n in forma && Matches(e, n) :: SettlesMatched(d, plan, e, n))
    && (forall e | e in existing && Unmatched(e, forma) && Touches(forma, e.stack) :: DeleteOp(e) in plan)
    && (forall n | n in forma && IsNew(n, existing) :: CreateOp(n) in plan)
    && (forall n | CreateOp(n) in plan :: n in forma)
    && (forall op | op in plan && op.UpdateOp? :: op.e in existing && op.n in forma && Matches(op.e, op.n))
    && (forall r | DeleteOp(r) in plan :: r in existing)
  }

  lemma {:induction false} FinalPlanSettles(d: Differ, existing: seq<Resource>, forma: seq<Resource>)
    requires WellFormed(existing, forma)
    ensures Settles(d, existing, forma, FinalPlan(d, existing, forma))
  {
    hide FinalPlan, WellFormed, Differ.Compare, Removals, DependencyDeletes, FirstPlan;
    var plan := FinalPlan(d, existing, forma);
    forall e, n | e in existing && n in forma && Matches(e, n) ensures SettlesMatched(d, plan, e, n) {
      MatchedFate(d, existing, forma, e, n);
      MatchedDeletes(d, existing, forma, e, n);
    }
    forall e | e in existing && Unmatched(e, forma) && Touches(forma, e.stack) ensures DeleteOp(e) in plan {
      UnmatchedFate(d, existing, forma, e);
    }
    forall n | n in forma && IsNew(n, existing) ensures CreateOp(n) in plan {
      NewFate(d, existing, forma, n);
    }
    forall n | CreateOp(n) in plan ensures n in forma {
      CreatedAreAskedFor(d, existing, forma, n);
    }
    forall op | op in plan && op.UpdateOp? ensures op.e in existing && op.n in forma && Matches(op.e, op.n) {
      FinalCreatesAndUpdates(d, existing, forma, op.e, op.n);
      FirstPlanShape(d, existing, forma, op);
    }
    forall r | DeleteOp(r) in plan ensures r in existing {
      FinalDeletes(d, existing, forma, r);
      if DeleteOp(r) in Removals(d, existing, forma) {
        RemovalsExist(d, existing, forma, r);
      } else {
        DependencyShape(Removals(d, existing, forma), existing, DeleteOp(r));
      }
    }
  }

  /** After the plan, a stack the forma speaks about holds the forma's resources and no others: every resource left
      there is one the forma asks for, either new or compared equal, and each is there once. */
  lemma {:induction false} ReconcileConverges(d: Differ, existing: seq<Resource>, forma: seq<Resource>, stack: string)
    requires WellFormed(existing, forma) && Touches(forma, stack)
    ensures var after := Applied(FinalPlan(d, existing, forma), existing);
            && (forall r | r in after && r.stack == stack ::
                  exists n | n in forma :: SameTriple(r, n) && (r == n || d.Compare(r, n) == NoChange))
            && (forall n | n in forma && n.stack == stack :: exists r | r in after :: SameTriple(r, n))
            && (forall r, r' | r in after && r' in after && r.stack == stack && SameTriple(r, r') :: r == r')
  {
    hide FinalPlan, Settles, Applied;
    var plan := FinalPlan(d, existing, forma);
    var after := Applied(plan, existing);
    FinalPlanSettles(d, existing, forma);
    forall r | r in after && r.stack == stack
      ensures exists n | n in forma :: SameTriple(r, n) && (r == n || d.Compare(r, n) == NoChange)
    {
      LeftIsAskedFor(d, existing, forma, plan, r);
    }
    forall n | n in forma && n.stack == stack ensures exists r | r in after :: SameTriple(r, n) {
      AskedForIsThere(d, existing, forma, plan, n);
    }
    forall r, r' | r in after && r' in after && r.stack == stack && SameTriple(r, r') ensures r == r' {
      LeftOnce(d, existing, forma, plan, r, r');
    }
  }

  lemma {:induction false} LeftIsAskedFor(
    d: Differ, existing: seq<Resource>, forma: seq<Resource>, plan: set<PlanOp>, r: Resource)
    requires Settles(d, existing, forma, plan) && Touches(forma, r.stack) && r in Applied(plan, existing)
    ensures exists n | n in forma :: SameTriple(r, n) && (r == n || d.Compare(r, n) == NoChange)
  {
    hide Applied, IsNew, Brought, Differ.Compare;
    LeftOrigin(d, existing, forma, plan, r);
    if Untouched(plan, existing, r) {
      assert !Unmatched(r, forma);
      var n :| n in forma && Matches(r, n);
      var u := UpdateOp(r, n);
      assert u.e == r && u !in plan;
      assert SettlesMatched(d, plan, r, n);
    }
  }

  lemma {:induction false} AskedForIsThere(
    d: Differ, existing: seq<Resource>, forma: seq<Resource>, plan: set<PlanOp>, n: Resource)
    requires Settles(d, existing, forma, plan) && n in forma
    ensures exists r | r in Applied(plan, existing) :: SameTriple(r, n)
  {
    var after := Applied(plan, existing);
    if IsNew(n, existing) {
      assert CreateOp(n).n in after;
    } else {
      var e :| e in existing && Matches(e, n);
      assert SettlesMatched(d, plan, e, n);
      if DeleteOp(e) in plan {
        assert CreateOp(n).n in after;
      } else if op :| op in plan && op.UpdateOp? && op.e == e {
        assert op.n in after && Matches(e, op.n);
      } else {
        assert e in after;
      }
    }
  }

  lemma {:induction false} LeftOnce(
    d: Differ, existing: seq<Resource>, forma: seq<Resource>, plan: set<PlanOp>, r: Resource, r': Resource)
    requires WellFormed(existing, forma) && Settles(d, existing, forma, plan) && SameTriple(r, r')
    requires r in Applied(plan, existing) && r' in Applied(plan, existing)
    ensures r == r'
  {
    hide WellFormed, Settles, Applied;
    LeftOrigin(d, existing, forma, plan, r);
    LeftOrigin(d, existing, forma, plan, r');
    if r in forma && r' in forma {
      SameResource(existing, forma, r, r');
    } else if r in existing && r' in existing {
      SameResource(existing, forma, r, r');
    } else if r in forma {
      MixedLeft(d, existing, forma, plan, r', r);
    } else {
      MixedLeft(d, existing, forma, plan, r, r');
    }
  }

  /** What is left is an existing resource that nothing touches, or one of the forma that is created or updated. */
  predicate Untouched(plan: set<PlanOp>, existing: seq<Resource>, r: Resource) {
    r in existing && DeleteOp(r) !in plan && forall op | op in plan && op.UpdateOp? :: op.e != r
  }

  predicate Brought(plan: set<PlanOp>, existing: seq<Resource>, r: Resource) {
    CreateOp(r) in plan ||
    exists op | op in plan :: op.UpdateOp? && op.e in existing && DeleteOp(op.e) !in plan && op.n == r
  }

  lemma {:induction false} LeftOrigin(
    d: Differ, existing: seq<Resource>, forma: seq<Resource>, plan: set<PlanOp>, r: Resource)
    requires Settles(d, existing, forma, plan) && r in Applied(plan, existing)
    ensures Untouched(plan, existing, r) || (Brought(plan, existing, r) && r in forma)
  {
    hide SettlesMatched, Unmatched, IsNew, Touches;
    if !Untouched(plan, existing, r) && CreateOp(r) !in plan {
      var op :| op in plan && op.UpdateOp? && op.e in existing && DeleteOp(op.e) !in plan && op.n == r;
      assert op.n in forma;
    }
  }

  /** What is untouched in a stack the forma speaks about is asked for as it is. */
  lemma {:induction false} UntouchedIsMatched(
    d: Differ, existing: seq<Resource>, forma: seq<Resource>, plan: set<PlanOp>, e: Resource, n: Resource)
    requires WellFormed(existing, forma) && Settles(d, existing, forma, plan) && SameTriple(e, n)
    requires Untouched(plan, existing, e) && n in forma
    ensures Matches(e, n) && SettlesMatched(d, plan, e, n)
  {
    hide WellFormed, Differ.Compare, IsNew, SettlesMatched;
    assert Touches(forma, e.stack) && !Unmatched(e, forma);
    var n' :| n' in forma && Matches(e, n');
    SameResource(existing, forma, n', n);
  }

  /** An untouched resource and one that is brought in are never the same resource in two forms. */
  lemma {:induction false} MixedLeft(
    d: Differ, existing: seq<Resource>, forma: seq<Resource>, plan: set<PlanOp>, e: Resource, n: Resource)
    requires WellFormed(existing, forma) && Settles(d, existing, forma, plan) && SameTriple(e, n)
    requires Untouched(plan, existing, e)
    ensures !Brought(plan, existing, n)
  {
    hide WellFormed, Differ.Compare, IsNew;
    if n in forma {
      UntouchedIsMatched(d, existing, forma, plan, e, n);
      assert CreateOp(n) in plan <==> DeleteOp(e) in plan;
    }
    if op :| op in plan && op.UpdateOp? && op.e in existing && DeleteOp(op.e) !in plan && op.n == n {
      SameResource(existing, forma, op.e, e);
    }
  }

  lemma {:induction false} DependentIsDeleted(
    d: Differ, existing: seq<Resource>, forma: seq<Resource>, gone: Resource, r: Resource)
    requires WellFormed(existing, forma) && DeleteOp(gone) in Removals(d, existing, forma)
    requires r in existing && !SameTriple(r, gone) && RefersTo(r, gone)
    ensures DeleteOp(r) in FinalPlan(d, existing, forma)
  {
    hide FinalPlan, WellFormed, Differ.Compare;
    FinalDeletes(d, existing, forma, r);
    var deletes := Removals(d, existing, forma);
    if x :| x in deletes && SameTriple(x.Subject(), r) {
      if x.DeleteOp? {
        SameResource(existing, forma, x.e, r);
      } else {
        var e, n :| e in existing && n in forma && Matches(e, n) && d.Compare(e, n) == Replacement && n == x.n;
        SameResource(existing, forma, e, r);
      }
    } else {
      assert DeleteOp(gone).e == gone;
      assert DeleteOp(r) in DependencyDeletes(deletes, existing);
    }
  }

  // ----- Exactly what a plan does -----

  /** An existing resource goes of itself: the forma has it in a form that replaces it, or speaks about its stack and
      does not have it. */
  ghost predicate Goes(d: Differ, existing: seq<Resource>, forma: seq<Resource>, r: Resource) {
    && r in existing
    && (|| (exists n | n in forma ::
              && n.stack == r.stack && n.name == r.name && n.kind == r.kind && n.target == r.target
              && n != r && d.decide(r, n) == Replacement)
        || ((exists n | n in forma :: n.stack == r.stack) &&
            (forall n | n in forma && n.stack == r.stack && n.name == r.name && n.kind == r.kind ::
               n.target != r.target)))
  }

  lemma {:induction false} GoesIsRemoved(d: Differ, existing: seq<Resource>, forma: seq<Resource>, r: Resource)
    ensures Goes(d, existing, forma, r) <==> DeleteOp(r) in Removals(d, existing, forma)
  {
    hide Removals;
    if DeleteOp(r) in Removals(d, existing, forma) {
      RemovalsExist(d, existing, forma, r);
    }
    if r in existing {
      FirstPlanDeletes(d, existing, forma, r);
    }
  }

  /** Whoever has a reference with the KSUID of a resource that goes is deleted too, whatever property it names. */
  lemma {:induction false} ReferrersAreDeleted(
    d: Differ, existing: seq<Resource>, forma: seq<Resource>, gone: Resource, r: Resource)
    requires WellFormed(existing, forma) && Goes(d, existing, forma, gone)
    requires r in existing && r.ksuid != gone.ksuid && exists u | u in r.refs :: u.ksuid == gone.ksuid
    ensures DeleteOp(r) in FinalPlan(d, existing, forma)
  {
    hide FinalPlan, Removals, Differ.Compare;
    GoesIsRemoved(d, existing, forma, gone);
    KsuidIsTriple(existing, forma, r, gone);
    var u :| u in r.refs && u.ksuid == gone.ksuid;
    assert u.Stripped() == gone.Uri();
    DependentIsDeleted(d, existing, forma, gone, r);
  }

  lemma {:induction false} KsuidIsTriple(existing: seq<Resource>, forma: seq<Resource>, a: Resource, b: Resource)
    requires WellFormed(existing, forma) && a in existing + forma && b in existing + forma
    ensures a.ksuid == b.ksuid <==> SameTriple(a, b)
  {
  }

  /** A plan deletes what goes of itself and what has a reference to some of that, by KSUID, and nothing else. */
  lemma {:induction false} DeletedExactly(d: Differ, existing: seq<Resource>, forma: seq<Resource>, r: Resource)
    requires WellFormed(existing, forma)
    ensures DeleteOp(r) in FinalPlan(d, existing, forma) <==>
            || Goes(d, existing, forma, r)
            || (r in existing && exists g | Goes(d, existing, forma, g) ::
                  g.ksuid != r.ksuid && exists u | u in r.refs :: u.ksuid == g.ksuid)
  {
    hide FinalPlan, Removals, Goes, WellFormed;
    var removals := Removals(d, existing, forma);
    FinalDeletes(d, existing, forma, r);
    GoesIsRemoved(d, existing, forma, r);
    if DeleteOp(r) in DependencyDeletes(removals, existing) {
      var op :| op in removals && op.DeleteOp? && !SameTriple(r, op.e) && RefersTo(r, op.e);
      GoesIsRemoved(d, existing, forma, op.e);
      RemovalsExist(d, existing, forma, op.e);
      KsuidIsTriple(existing, forma, r, op.e);
      var u :| u in r.refs && u.Stripped() == op.e.Uri();
      assert u.ksuid == op.e.ksuid;
    }
    if g :|
        && r in existing && Goes(d, existing, forma, g) && g.ksuid != r.ksuid
        && exists u | u in r.refs :: u.ksuid == g.ksuid {
      ReferrersAreDeleted(d, existing, forma, g, r);
    }
  }

  /** A plan creates what the forma has and nothing that exists matches, or what matches a resource it deletes. */
  lemma {:induction false} CreatedExactly(d: Differ, existing: seq<Resource>, forma: seq<Resource>, n: Resource)
    requires WellFormed(existing, forma)
    ensures CreateOp(n) in FinalPlan(d, existing, forma) <==>
            n in forma &&
            forall e | e in existing && e.stack == n.stack && e.name == n.name && e.kind == n.kind &&
              e.target == n.target :: DeleteOp(e) in FinalPlan(d, existing, forma)
  {
    hide FinalPlan, WellFormed;
    CreatedAreAskedFor(d, existing, forma, n);
    if n in forma {
      if IsNew(n, existing) {
        NewFate(d, existing, forma, n);
      }
      forall e | e in existing && Matches(e, n)
        ensures CreateOp(n) in FinalPlan(d, existing, forma) <==> DeleteOp(e) in FinalPlan(d, existing, forma)
      {
        MatchedFate(d, existing, forma, e, n);
      }
    }
  }

  /** A plan updates what exists and the forma has in a form that differs in place, unless it deletes it. */
  lemma {:induction false} UpdatedExactly(
    d: Differ, existing: seq<Resource>, forma: seq<Resource>, e: Resource, n: Resource)
    requires WellFormed(existing, forma)
    ensures UpdateOp(e, n) in FinalPlan(d, existing, forma) <==>
            && e in existing && n in forma
            && e.stack == n.stack && e.name == n.name && e.kind == n.kind && e.target == n.target
            && e != n && d.decide(e, n) == InPlace && DeleteOp(e) !in FinalPlan(d, existing, forma)
  {
    hide FinalPlan, WellFormed;
    FinalPlanSettles(d, existing, forma);
    if e in existing && n in forma && Matches(e, n) {
      MatchedFate(d, existing, forma, e, n);
    }
  }

  /** A resource of a stack that the forma does not speak about, and which has no reference to anything that goes,
      is there afterwards as it was. */
  lemma {:induction false} OthersStay(d: Differ, existing: seq<Resource>, forma: seq<Resource>, r: Resource)
    requires WellFormed(existing, forma) && r in existing && forall n | n in forma :: n.stack != r.stack
    requires forall g, u | Goes(d, existing, forma, g) && u in r.refs :: u.ksuid != g.ksuid
    ensures r in Applied(FinalPlan(d, existing, forma), existing)
  {
    hide FinalPlan, WellFormed;
    DeletedExactly(d, existing, forma, r);
    forall op | op in FinalPlan(d, existing, forma) && op.UpdateOp? ensures op.e != r {
      UpdatedExactly(d, existing, forma, op.e, op.n);
    }
  }

  /** No resource keeps both an update and a delete. */
  lemma {:induction false} UpdatesAndDeletesApart(d: Differ, existing: seq<Resource>, forma: seq<Resource>)
    requires WellFormed(existing, forma)
    ensures var plan := FinalPlan(d, existing, forma);
            forall op, r | op in plan && op.UpdateOp? && DeleteOp(r) in plan ::
              op.n.Uri() != r.Uri() && op.e.Uri() != r.Uri()
  {
    hide FinalPlan, WellFormed, Settles, Matches;
    var plan := FinalPlan(d, existing, forma);
    FinalPlanSettles(d, existing, forma);
    forall op, r | op in plan && op.UpdateOp? && DeleteOp(r) in plan
      ensures op.n.Uri() != r.Uri() && op.e.Uri() != r.Uri()
    {
      UpdateAndDeleteApart(d, existing, forma, plan, op, r);
    }
  }

  lemma {:induction false} UpdateAndDeleteApart(
    d: Differ, existing: seq<Resource>, forma: seq<Resource>, plan: set<PlanOp>, op: PlanOp, r: Resource)
    requires WellFormed(existing, forma) && Settles(d, existing, forma, plan)
    requires op.UpdateOp? && op in plan && DeleteOp(r) in plan
    ensures op.n.Uri() != r.Uri() && op.e.Uri() != r.Uri()
  {
    hide WellFormed, Differ.Compare;
    assert SettlesMatched(d, plan, op.e, op.n);
    SameResource(existing, forma, op.n, r);
    SameResource(existing, forma, op.e, r);
  }

  lemma {:induction false} RemovalsExist(d: Differ, existing: seq<Resource>, forma: seq<Resource>, r: Resource)
    requires DeleteOp(r) in Removals(d, existing, forma)
    ensures r in existing
  {
  }
}
