/** The planner's loops, which append to and shrink slices, proved to compute the plan of Reconcile.dfy
    (internal/metastructure/resource_update/resource_update_generator.go). */
module ReconcileGenerator {
  import opened Common
  import opened Reconcile

  // ----- One stack -----

  lemma {:induction false} FormaMore(d: Differ, e: Resource, forma: seq<Resource>, n: Resource)
    ensures Updates(d, [e], forma + [n]) == Updates(d, [e], forma) +
            (if Matches(e, n) && d.Compare(e, n) == InPlace then {UpdateOp(e, n)} else {})
    ensures ReplaceDeletes(d, [e], forma + [n]) == ReplaceDeletes(d, [e], forma) +
            (if Matches(e, n) && d.Compare(e, n) == Replacement then {DeleteOp(e)} else {})
    ensures ReplaceCreates(d, [e], forma + [n]) == ReplaceCreates(d, [e], forma) +
            (if Matches(e, n) && d.Compare(e, n) == Replacement then {CreateOp(n)} else {})
  {
  }

  lemma {:induction false} ExistingMore(d: Differ, existing: seq<Resource>, e: Resource, forma: seq<Resource>)
    ensures Updates(d, existing + [e], forma) == Updates(d, existing, forma) + Updates(d, [e], forma)
    ensures ReplaceDeletes(d, existing + [e], forma) == ReplaceDeletes(d, existing, forma) + ReplaceDeletes(d, [e],
              forma)
    ensures ReplaceCreates(d, existing + [e], forma) == ReplaceCreates(d, existing, forma) + ReplaceCreates(d, [e],
              forma)
    ensures ImplicitDeletes(existing + [e], forma) == ImplicitDeletes(existing, forma) + ImplicitDeletes([e], forma)
  {
  }

  /** Compares one existing resource with every resource the forma has in its stack. */
  method CompareWithForma(d: Differ, e: Resource, forma: seq<Resource>)
    returns (found: bool, updates: seq<PlanOp>, replacements: seq<PlanOp>)
    requires Distinct(forma) && NoDup(forma)
    ensures |updates| <= 1 && forall op | op in updates :: op.UpdateOp? && op.e == e && Matches(e, op.n)
    ensures found <==> !Unmatched(e, forma)
    ensures Elements(updates) == Updates(d, [e], forma)
    ensures Elements(replacements) == ReplaceDeletes(d, [e], forma) + ReplaceCreates(d, [e], forma)
  {
    hide Updates, ReplaceDeletes, ReplaceCreates, Elements;
    NothingCompared(d, e, forma);
    found, updates, replacements := false, [], [];
    for i := 0 to |forma|
      invariant |updates| <= 1 && (updates != [] ==> found)
      invariant forall op | op in updates :: op.UpdateOp? && op.e == e && Matches(e, op.n)
      invariant found ==> exists k | 0 <= k < i :: Matches(e, forma[k])
      invariant found <==> !Unmatched(e, forma[..i])
      invariant Elements(updates) == Updates(d, [e], forma[..i])
      invariant Elements(replacements) == ReplaceDeletes(d, [e], forma[..i]) + ReplaceCreates(d, [e], forma[..i])
    {
      var n := forma[i];
      FormaMore(d, e, forma[..i], n);
      assert forma[..i + 1] == forma[..i] + [n];
      if Matches(e, n) {
        found := true;
        match d.Compare(e, n) {
          case NoChange =>
          case InPlace =>
            ElementsAppend(updates, [UpdateOp(e, n)]);
            OneElement(UpdateOp(e, n));
            OnlyMatch(e, forma, i);
            updates := updates + [UpdateOp(e, n)];
          case Replacement =>
            ElementsAppend(replacements, [DeleteOp(e), CreateOp(n)]);
            TwoElements(DeleteOp(e), CreateOp(n));
            replacements := replacements + [DeleteOp(e), CreateOp(n)];
        }
      }
    }
    assert forma[..|forma|] == forma;
  }

  lemma {:induction false} NothingCompared(d: Differ, e: Resource, forma: seq<Resource>)
    ensures Elements<PlanOp>([]) == Updates(d, [e], forma[..0])
    ensures Elements<PlanOp>([]) == ReplaceDeletes(d, [e], forma[..0]) + ReplaceCreates(d, [e], forma[..0])
  {
  }

  /** Nothing before a match matches too. */
  lemma {:induction false} OnlyMatch(e: Resource, forma: seq<Resource>, i: nat)
    requires Distinct(forma) && NoDup(forma) && i < |forma| && Matches(e, forma[i])
    ensures forall k | 0 <= k < i :: !Matches(e, forma[k])
  {
    forall k | 0 <= k < i ensures !Matches(e, forma[k]) {
      assert forma[k] in forma && forma[i] in forma && forma[k] != forma[i];
    }
  }

  lemma {:induction false} OneElement<T>(x: T)
    ensures Elements([x]) == {x}
  {
  }

  lemma {:induction false} TwoElements<T>(x: T, y: T)
    ensures Elements([x, y]) == {x, y}
  {
    assert [x, y] == [x] + [y];
  }

  /** Existing resources of a stack: updates and replacements for the matched, deletes for the rest. */
  method PlanExisting(d: Differ, existing: seq<Resource>, forma: seq<Resource>)
    returns (updates: seq<PlanOp>, replacements: seq<PlanOp>, implicitDeletes: seq<PlanOp>)
    requires Distinct(existing) && NoDup(existing) && Distinct(forma) && NoDup(forma)
    requires forall e | e in existing :: exists n | n in forma :: n.stack == e.stack
    ensures UpdatesApart(updates)
    ensures Elements(updates) == Updates(d, existing, forma)
    ensures Elements(replacements) == ReplaceDeletes(d, existing, forma) + ReplaceCreates(d, existing, forma)
    ensures Elements(implicitDeletes) == ImplicitDeletes(existing, forma)
  {
    updates, replacements, implicitDeletes := [], [], [];
    for i := 0 to |existing|
      invariant UpdatesApart(updates) && forall op | op in updates :: op.e in existing[..i]
      invariant Elements(updates) == Updates(d, existing[..i], forma)
      invariant Elements(replacements) == ReplaceDeletes(d, existing[..i], forma) + ReplaceCreates(d,
                existing[..i], forma)
      invariant Elements(implicitDeletes) == ImplicitDeletes(existing[..i], forma)
    {
      var e := existing[i];
      var found, ups, reps := CompareWithForma(d, e, forma);
      ExistingMore(d, existing[..i], e, forma);
      assert existing[..i + 1] == existing[..i] + [e];
      ElementsAppend(updates, ups);
      ElementsAppend(replacements, reps);
      ApartMore(updates, ups, existing, i);
      updates, replacements := updates + ups, replacements + reps;
      assert e in existing;
      ImplicitOne(e, forma);
      if !found {
        ElementsAppend(implicitDeletes, [DeleteOp(e)]);
        OneElement(DeleteOp(e));
        implicitDeletes := implicitDeletes + [DeleteOp(e)];
      }
    }
    assert existing[..|existing|] == existing;
  }

  /** The updates are of different resources. */
  ghost predicate UpdatesApart(updates: seq<PlanOp>) {
    && (forall op | op in updates :: op.UpdateOp? && Matches(op.e, op.n))
    && (forall i, j | 0 <= i < j < |updates| :: !SameTriple(updates[i].Subject(), updates[j].Subject()))
  }

  lemma {:induction false} ApartMore(updates: seq<PlanOp>, more: seq<PlanOp>, existing: seq<Resource>, i: nat)
    requires i < |existing| && Distinct(existing) && NoDup(existing)
    requires UpdatesApart(updates) && forall op | op in updates :: op.e in existing[..i]
    requires |more| <= 1 && forall op | op in more :: op.UpdateOp? && op.e == existing[i] && Matches(existing[i], op.n)
    ensures UpdatesApart(updates + more)
  {
    forall j | 0 <= j < |updates| && more != [] ensures !SameTriple(updates[j].Subject(), more[0].Subject()) {
      assert updates[j] in updates && more[0] in more;
      var k :| 0 <= k < i && existing[k] == updates[j].e;
      assert existing[k] in existing && existing[i] in existing && existing[k] != existing[i];
    }
  }

  lemma {:induction false} ImplicitOne(e: Resource, forma: seq<Resource>)
    requires exists n | n in forma :: n.stack == e.stack
    ensures ImplicitDeletes([e], forma) == if Unmatched(e, forma) then {DeleteOp(e)} else {}
  {
  }

  /** Resources of the forma that the stack does not have yet. */
  method PlanCreates(existing: seq<Resource>, forma: seq<Resource>) returns (creates: seq<PlanOp>)
    ensures Elements(creates) == Creates(existing, forma)
  {
    creates := [];
    for i := 0 to |forma|
      invariant Elements(creates) == Creates(existing, forma[..i])
    {
      var n, found := forma[i], false;
      for j := 0 to |existing|
        invariant found <==> !IsNew(n, existing[..j])
      {
        assert existing[..j + 1] == existing[..j] + [existing[j]];
        if Matches(existing[j], n) {
          found := true;
        }
      }
      assert existing[..|existing|] == existing;
      assert forma[..i + 1] == forma[..i] + [n];
      assert Creates(existing, forma[..i + 1]) ==
             Creates(existing, forma[..i]) + (if IsNew(n, existing) then {CreateOp(n)} else {});
      if !found {
        ElementsAppend(creates, [CreateOp(n)]);
        OneElement(CreateOp(n));
        creates := creates + [CreateOp(n)];
      }
    }
    assert forma[..|forma|] == forma;
  }

  // ----- All stacks -----

  /** The resources that lie in one of these stacks, in order. */
  function InStacks(rs: seq<Resource>, stacks: set<string>): (r: seq<Resource>)
    ensures forall x :: x in r <==> x in rs && x.stack in stacks
  {
    if rs == [] then []
    else
      var last := rs[|rs| - 1];
      assert rs == rs[..|rs| - 1] + [last];
      InStacks(rs[..|rs| - 1], stacks) + (if last.stack in stacks then [last] else [])
  }

  /** Matching stays inside a stack, so the plan can be made stack by stack. */
  lemma {:induction false} StackMore(d: Differ, existing: seq<Resource>, forma: seq<Resource>, done: set<string>,
      s: string)
    requires s !in done
    ensures Updates(d, InStacks(existing, done + {s}), InStacks(forma, done + {s})) ==
            Updates(d, InStacks(existing, done), InStacks(forma, done)) +
            Updates(d, InStacks(existing, {s}), InStacks(forma, {s}))
    ensures ReplaceDeletes(d, InStacks(existing, done + {s}), InStacks(forma, done + {s})) ==
            ReplaceDeletes(d, InStacks(existing, done), InStacks(forma, done)) +
            ReplaceDeletes(d, InStacks(existing, {s}), InStacks(forma, {s}))
    ensures ReplaceCreates(d, InStacks(existing, done + {s}), InStacks(forma, done + {s})) ==
            ReplaceCreates(d, InStacks(existing, done), InStacks(forma, done)) +
            ReplaceCreates(d, InStacks(existing, {s}), InStacks(forma, {s}))
  {
    hide InStacks;
  }

  lemma {:induction false} StackMoreEnds(existing: seq<Resource>, forma: seq<Resource>, done: set<string>, s: string)
    requires s !in done
    ensures ImplicitDeletes(InStacks(existing, done + {s}), InStacks(forma, done + {s})) ==
            ImplicitDeletes(InStacks(existing, done), InStacks(forma, done)) +
            ImplicitDeletes(InStacks(existing, {s}), InStacks(forma, {s}))
    ensures Creates(InStacks(existing, done + {s}), InStacks(forma, done + {s})) ==
            Creates(InStacks(existing, done), InStacks(forma, done)) +
            Creates(InStacks(existing, {s}), InStacks(forma, {s}))
  {
    hide InStacks;
  }

  /** A stack that is exactly as the forma has it needs nothing. */
  lemma {:induction false} SameStackNeedsNothing(d: Differ, forma: seq<Resource>)
    requires Distinct(forma)
    ensures Updates(d, forma, forma) == ReplaceDeletes(d, forma, forma) == ReplaceCreates(d, forma, forma) == {}
    ensures ImplicitDeletes(forma, forma) == Creates(forma, forma) == {}
  {
    forall e | e in forma ensures Matches(e, e) {}
  }

  method FilterStack(rs: seq<Resource>, stack: string) returns (r: seq<Resource>)
    ensures r == InStacks(rs, {stack})
  {
    r := [];
    for i := 0 to |rs|
      invariant r == InStacks(rs[..i], {stack})
    {
      assert rs[..i + 1][..i] == rs[..i];
      if rs[i].stack == stack {
        r := r + [rs[i]];
      }
    }
    assert rs[..|rs|] == rs;
  }

  /** One stack of the forma against what exists of it. */
  method PlanStack(d: Differ, existing: seq<Resource>, forma: seq<Resource>)
    returns (creates: seq<PlanOp>, updates: seq<PlanOp>, replacements: seq<PlanOp>, implicitDeletes: seq<PlanOp>)
    requires Distinct(existing) && NoDup(existing) && Distinct(forma) && NoDup(forma)
    requires forma != [] && forall a, b | a in existing + forma && b in existing + forma :: a.stack == b.stack
    ensures UpdatesApart(updates)
    ensures Elements(creates) == Creates(existing, forma)
    ensures Elements(updates) == Updates(d, existing, forma)
    ensures Elements(replacements) == ReplaceDeletes(d, existing, forma) + ReplaceCreates(d, existing, forma)
    ensures Elements(implicitDeletes) == ImplicitDeletes(existing, forma)
  {
    if existing == forma {
      SameStackNeedsNothing(d, forma);
      return [], [], [], [];
    }
    forall e | e in existing ensures exists n | n in forma :: n.stack == e.stack {
      assert forma[0] in existing + forma && e in existing + forma;
    }
    updates, replacements, implicitDeletes := PlanExisting(d, existing, forma);
    creates := PlanCreates(existing, forma);
  }

  /** The first plan, stack by stack in whatever order the stacks come. */
  method PlanAllStacks(d: Differ, existing: seq<Resource>, forma: seq<Resource>)
    returns (creates: seq<PlanOp>, updates: seq<PlanOp>, replacements: seq<PlanOp>, implicitDeletes: seq<PlanOp>)
    requires Distinct(existing) && NoDup(existing) && Distinct(forma) && NoDup(forma)
    ensures UpdatesApart(updates)
    ensures Elements(creates) == Creates(existing, forma)
    ensures Elements(updates) == Updates(d, existing, forma)
    ensures Elements(replacements) == ReplaceDeletes(d, existing, forma) + ReplaceCreates(d, existing, forma)
    ensures Elements(implicitDeletes) == ImplicitDeletes(existing, forma)
  {
    hide Elements, InStacks, Updates, ReplaceDeletes, ReplaceCreates, ImplicitDeletes, Creates;
    creates, updates, replacements, implicitDeletes := [], [], [], [];
    var todo := set n | n in forma :: n.stack;
    ghost var done: set<string> := {};
    NoStacks(d, existing, forma);
    while todo != {}
      invariant todo !! done && todo + done == set n | n in forma :: n.stack
      invariant UpdatesApart(updates) && forall op | op in updates :: op.n.stack in done
      invariant Elements(creates) == Creates(InStacks(existing, done), InStacks(forma, done))
      invariant Elements(updates) == Updates(d, InStacks(existing, done), InStacks(forma, done))
      invariant Elements(replacements) ==
                ReplaceDeletes(d, InStacks(existing, done), InStacks(forma, done)) +
                ReplaceCreates(d, InStacks(existing, done), InStacks(forma, done))
      invariant Elements(implicitDeletes) == ImplicitDeletes(InStacks(existing, done), InStacks(forma, done))
      decreases todo
    {
      var s :| s in todo;
      todo := todo - {s};
      var stack := FilterStack(forma, s);
      var existingStack := FilterStack(existing, s);
      StackNonEmpty(existing, forma, s);
      StackNoDup(existing, s);
      StackNoDup(forma, s);
      var cs, us, rs, ds := PlanStack(d, existingStack, stack);
      StackMore(d, existing, forma, done, s);
      StackMoreEnds(existing, forma, done, s);
      ElementsAppend(creates, cs);
      ElementsAppend(updates, us);
      ElementsAppend(replacements, rs);
      ElementsAppend(implicitDeletes, ds);
      ApartStacks(d, updates, us, existingStack, stack, done, s);
      creates, updates, replacements, implicitDeletes :=
        creates + cs, updates + us, replacements + rs, implicitDeletes + ds;
      done := done + {s};
    }
    AllStacks(d, existing, forma, done);
  }

  lemma {:induction false} StackNonEmpty(existing: seq<Resource>, forma: seq<Resource>, s: string)
    requires exists n | n in forma :: n.stack == s
    ensures InStacks(forma, {s}) != []
    ensures forall a, b | a in InStacks(existing, {s}) + InStacks(forma, {s}) && b in InStacks(existing,
              {s}) + InStacks(forma, {s})
              :: a.stack == b.stack
  {
    var n :| n in forma && n.stack == s;
    assert n in InStacks(forma, {s});
  }

  lemma {:induction false} StackNoDup(rs: seq<Resource>, s: string)
    requires Distinct(rs) && NoDup(rs)
    ensures Distinct(InStacks(rs, {s})) && NoDup(InStacks(rs, {s}))
  {
    if rs != [] {
      var init, last := rs[..|rs| - 1], rs[|rs| - 1];
      assert forall x | x in init :: x in rs;
      StackNoDup(init, s);
      assert last !in init;
      assert last !in InStacks(init, {s});
    }
  }

  /** Updates of different stacks are of different resources. */
  lemma {:induction false} ApartStacks(
    d: Differ, updates: seq<PlanOp>, more: seq<PlanOp>, existing: seq<Resource>, forma: seq<Resource>,
    done: set<string>, s: string)
    requires UpdatesApart(updates) && UpdatesApart(more) && Elements(more) == Updates(d, existing, forma)
    requires s !in done && (forall op | op in updates :: op.n.stack in done) && forall n | n in forma :: n.stack == s
    ensures UpdatesApart(updates + more) && forall op | op in updates + more :: op.n.stack in done + {s}
  {
    forall op | op in more ensures op.n.stack == s {
      assert op in Elements(more);
    }
    var all := updates + more;
    forall i, j | 0 <= i < j < |all| ensures !SameTriple(all[i].Subject(), all[j].Subject()) {
      if i < |updates| <= j {
        assert all[i] in updates && all[j] in more;
      }
    }
  }

  lemma {:induction false} NoStacks(d: Differ, existing: seq<Resource>, forma: seq<Resource>)
    ensures var e, f := InStacks(existing, {}), InStacks(forma, {});
            && Updates(d, e, f) == ReplaceDeletes(d, e, f) == ReplaceCreates(d, e, f) == {}
            && ImplicitDeletes(e, f) == Creates(e, f) == {}
    ensures Elements<PlanOp>([]) == {}
  {
    hide InStacks;
  }

  /** Stacks that the forma does not mention play no part. */
  lemma {:induction false} AllStacks(d: Differ, existing: seq<Resource>, forma: seq<Resource>, stacks: set<string>)
    requires stacks == set n | n in forma :: n.stack
    ensures var e, f := InStacks(existing, stacks), InStacks(forma, stacks);
            && Updates(d, e, f) == Updates(d, existing, forma)
            && ReplaceDeletes(d, e, f) == ReplaceDeletes(d, existing, forma)
            && ReplaceCreates(d, e, f) == ReplaceCreates(d, existing, forma)
            && ImplicitDeletes(e, f) == ImplicitDeletes(existing, forma)
            && Creates(e, f) == Creates(existing, forma)
  {
    hide InStacks;
    var e, f := InStacks(existing, stacks), InStacks(forma, stacks);
    assert forall n :: n in f <==> n in forma;
    assert forall n | n in forma :: n.stack in stacks;
    assert forall x, n | x in existing && n in forma && Matches(x, n) :: x in e;
  }

  // ----- Dependents -----

  function DependencyFrom(part: set<PlanOp>, deletes: set<PlanOp>, existing: seq<Resource>): set<PlanOp> {
    set r, op | r in existing && op in part && op.DeleteOp? && !SameTriple(r, op.e) && RefersTo(r, op.e)
                && (forall x | x in deletes :: !SameTriple(x.Subject(), r)) :: DeleteOp(r)
  }

  method FindResourcesThatDependOn(target: Resource, existing: seq<Resource>) returns (dependents: seq<Resource>)
    ensures forall r :: r in dependents <==> r in existing && !SameTriple(r, target) && RefersTo(r, target)
  {
    dependents := [];
    for i := 0 to |existing|
      invariant forall r :: r in dependents <==> r in existing[..i] && !SameTriple(r, target) && RefersTo(r, target)
    {
      var r := existing[i];
      assert existing[..i + 1] == existing[..i] + [r];
      if !SameTriple(r, target) {
        var refers := false;
        for j := 0 to |r.refs|
          invariant refers <==> exists u | u in r.refs[..j] :: u.Stripped() == target.Uri()
        {
          assert r.refs[..j + 1] == r.refs[..j] + [r.refs[j]];
          if r.refs[j].Stripped() == target.Uri() {
            refers := true;
          }
        }
        assert r.refs[..|r.refs|] == r.refs;
        if refers {
          dependents := dependents + [r];
        }
      }
    }
    assert existing[..|existing|] == existing;
  }

  /** Deletes for what refers to something deleted, one reference level deep. */
  method FindDependencyUpdates(deletes: seq<PlanOp>, existing: seq<Resource>) returns (deps: seq<PlanOp>)
    ensures Elements(deps) == DependencyDeletes(Elements(deletes), existing)
  {
    deps := [];
    ghost var whole := Elements(deletes);
    for i := 0 to |deletes|
      invariant Elements(deps) == DependencyFrom(Elements(deletes[..i]), whole, existing)
    {
      assert deletes[..i + 1] == deletes[..i] + [deletes[i]];
      ElementsAppend(deletes[..i], [deletes[i]]);
      OneElement(deletes[i]);
      var more := DependentsOf(deletes[i], deletes, existing);
      assert DependencyFrom(Elements(deletes[..i + 1]), whole, existing) ==
             DependencyFrom(Elements(deletes[..i]), whole, existing) + DependencyFrom({deletes[i]}, whole, existing);
      ElementsAppend(deps, more);
      deps := deps + more;
    }
    assert deletes[..|deletes|] == deletes;
    assert DependencyFrom(whole, whole, existing) == DependencyDeletes(whole, existing);
  }

  method DependentsOf(op: PlanOp, deletes: seq<PlanOp>, existing: seq<Resource>) returns (deps: seq<PlanOp>)
    ensures Elements(deps) == DependencyFrom({op}, Elements(deletes), existing)
  {
    deps := [];
    if !op.DeleteOp? {
      return;
    }
    var dependents := FindResourcesThatDependOn(op.e, existing);
    for i := 0 to |dependents|
      invariant forall x :: x in deps <==>
                  (x.DeleteOp? && x.e in dependents[..i] && forall y | y in deletes :: !SameTriple(y.Subject(), x.e))
    {
      var r := dependents[i];
      assert dependents[..i + 1] == dependents[..i] + [r];
      var already := false;
      for j := 0 to |deletes|
        invariant already <==> exists y | y in deletes[..j] :: SameTriple(y.Subject(), r)
      {
        assert deletes[..j + 1] == deletes[..j] + [deletes[j]];
        if SameTriple(deletes[j].Subject(), r) {
          already := true;
        }
      }
      assert deletes[..|deletes|] == deletes;
      if !already {
        deps := deps + [DeleteOp(r)];
      }
    }
    assert dependents[..|dependents|] == dependents;
    forall x ensures x in deps <==> x in DependencyFrom({op}, Elements(deletes), existing) {
      if x in DependencyFrom({op}, Elements(deletes), existing) {
        assert x.DeleteOp? && x.e in dependents;
      }
    }
  }

  // ----- Conversions -----

  /** The forma's resources by stack, label and type; a later one with the same key wins. */
  function FormaTable(forma: seq<Resource>): map<string, Resource> {
    if forma == [] then map[]
    else FormaTable(forma[..|forma| - 1])[forma[|forma| - 1].FormaKey() := forma[|forma| - 1]]
  }

  lemma {:induction false} FormaTableLookup(forma: seq<Resource>, key: string)
    ensures key in FormaTable(forma) <==> exists n | n in forma :: n.FormaKey() == key
    ensures key in FormaTable(forma) ==> FormaTable(forma)[key] in forma && FormaTable(forma)[key].FormaKey() == key
  {
    if forma != [] {
      var init, last := forma[..|forma| - 1], forma[|forma| - 1];
      FormaTableLookup(init, key);
      assert forma == init + [last];
    }
  }

  ghost predicate DistinctKeys(forma: seq<Resource>) {
    forall a, b | a in forma && b in forma && a.FormaKey() == b.FormaKey() :: a == b
  }

  method BuildFormaTable(forma: seq<Resource>) returns (m: map<string, Resource>)
    ensures m == FormaTable(forma)
  {
    m := map[];
    for i := 0 to |forma|
      invariant m == FormaTable(forma[..i])
    {
      assert forma[..i + 1][..i] == forma[..i];
      m := m[forma[i].FormaKey() := forma[i]];
    }
    assert forma[..|forma|] == forma;
  }

  method FindUpdateOrCreate(all: seq<PlanOp>, r: Resource) returns (found: bool)
    ensures found <==> HasUpdateOrCreate(Elements(all), r)
  {
    found := false;
    for i := 0 to |all|
      invariant found <==> exists op | op in all[..i] :: !op.DeleteOp? && op.n.Uri() == r.Uri()
    {
      assert all[..i + 1] == all[..i] + [all[i]];
      if all[i].Subject().Uri() == r.Uri() && (all[i].UpdateOp? || all[i].CreateOp?) {
        found := true;
      }
    }
    assert all[..|all|] == all;
  }

  /** Dependency deletes of resources that the forma keeps become replacements; the others stay. */
  method ConvertDependencyDeletesToReplacements(all: seq<PlanOp>, deps: seq<PlanOp>, forma: seq<Resource>)
    returns (converted: seq<PlanOp>)
    requires DistinctKeys(forma) && forall op | op in deps :: op.DeleteOp?
    ensures Elements(converted) == Elements(deps) + ReplacementCreates(Elements(all), Elements(deps), forma)
  {
    hide Elements, ReplacementCreates, FormaTable, HasUpdateOrCreate;
    NothingReplaced(all, deps, forma);
    var replacements, remaining := [], [];
    var table := BuildFormaTable(forma);
    for i := 0 to |deps|
      invariant Elements(replacements) + Elements(remaining) ==
                Elements(deps[..i]) + ReplacementCreates(Elements(all), Elements(deps[..i]), forma)
    {
      var op := deps[i];
      var key := op.e.FormaKey();
      assert deps[..i + 1] == deps[..i] + [op];
      ElementsAppend(deps[..i], [op]);
      OneElement(op);
      FormaTableLookup(forma, key);
      var busy := FindUpdateOrCreate(all, op.e);
      OneReplacement(Elements(all), Elements(deps[..i]), op, forma, table);
      if key in table && !busy {
        ElementsAppend(replacements, [op, CreateOp(table[key])]);
        TwoElements(op, CreateOp(table[key]));
        replacements := replacements + [op, CreateOp(table[key])];
      } else {
        ElementsAppend(remaining, [op]);
        remaining := remaining + [op];
      }
    }
    assert deps[..|deps|] == deps;
    ElementsAppend(replacements, remaining);
    converted := replacements + remaining;
  }

  lemma {:induction false} NothingReplaced(all: seq<PlanOp>, deps: seq<PlanOp>, forma: seq<Resource>)
    ensures Elements<PlanOp>([]) + Elements<PlanOp>([]) ==
            Elements(deps[..0]) + ReplacementCreates(Elements(all), Elements(deps[..0]), forma)
  {
  }

  lemma {:induction false} OneReplacement(
    all: set<PlanOp>, deps: set<PlanOp>, op: PlanOp, forma: seq<Resource>, table: map<string, Resource>)
    requires DistinctKeys(forma) && op.DeleteOp? && table == FormaTable(forma)
    ensures ReplacementCreates(all, deps + {op}, forma) == ReplacementCreates(all, deps, forma) +
            (if op.e.FormaKey() in table && !HasUpdateOrCreate(all, op.e)
             then {CreateOp(table[op.e.FormaKey()])} else {})
  {
    var key := op.e.FormaKey();
    FormaTableLookup(forma, key);
    hide FormaTable, HasUpdateOrCreate;
    assert forall n | BecomesReplacement(all, forma, op.e, n) :: key in table && n == table[key];
  }

  /** Dependency deletes that no delete of the plan covers yet. */
  function Uncovered(plan: set<PlanOp>, deps: set<PlanOp>): set<PlanOp> {
    set op | op in deps && op.DeleteOp? && !(exists x | x in plan :: x.DeleteOp? && x.e.Uri() == op.e.Uri())
  }

  /** What the shrinking list of dependency deletes still holds after the first `i` updates: all but some that went
      with an update for the same resource. */
  ghost predicate Shrunk(all: seq<PlanOp>, i: nat, deps0: seq<PlanOp>, deps: seq<PlanOp>)
    requires i <= |all|
  {
    && (forall x | x in deps :: x in deps0)
    && (forall x | x in deps0 && x !in deps ::
          exists j | 0 <= j < i :: all[j].UpdateOp? && x.DeleteOp? && all[j].n.Uri() == x.e.Uri())
  }

  ghost predicate OneUpdateEach(all: seq<PlanOp>) {
    && (forall i, j | 0 <= i < j < |all| && all[i].UpdateOp? && all[j].UpdateOp? :: all[i].n.Uri() != all[j].n.Uri())
    && (forall op | op in all && op.UpdateOp? :: op.e.Uri() == op.n.Uri())
  }

  /** Taking entries out after use does not change what later updates find. */
  lemma {:induction false} ShrunkFinds(all: seq<PlanOp>, i: nat, deps0: seq<PlanOp>, deps: seq<PlanOp>)
    requires OneUpdateEach(all) && i < |all| && all[i].UpdateOp? && Shrunk(all, i, deps0, deps)
    ensures DependencyDeleted(Elements(deps), all[i].n) <==> DependencyDeleted(Elements(deps0), all[i].n)
  {
    if DependencyDeleted(Elements(deps0), all[i].n) {
      var x :| x in deps0 && x.DeleteOp? && x.e.Uri() == all[i].n.Uri();
      assert x in deps;
    }
  }

  lemma {:induction false} ConvertedMore(all: set<PlanOp>, deps: set<PlanOp>, op: PlanOp)
    ensures Converted(all + {op}, deps) == Converted(all, deps) +
            (if op.UpdateOp? && DependencyDeleted(deps, op.n) then {DeleteOp(op.e), CreateOp(op.n)} else {op})
  {
    hide DependencyDeleted;
  }

  /** The position of the first dependency delete for a resource. */
  method FindDependencyDelete(deps: seq<PlanOp>, r: Resource) returns (k: nat)
    requires forall op | op in deps :: op.DeleteOp?
    ensures k <= |deps| && (k < |deps| ==> deps[k].e.Uri() == r.Uri())
    ensures k < |deps| <==> DependencyDeleted(Elements(deps), r)
  {
    for i := 0 to |deps|
      invariant forall j | 0 <= j < i :: deps[j].e.Uri() != r.Uri()
    {
      assert deps[i] in deps;
      if deps[i].e.Uri() == r.Uri() {
        return i;
      }
    }
    k := |deps|;
  }

  /** Updates of resources that are deleted for their references become replacements, each taking its entry out of the
      list in place; what is left of the list and not covered yet is added. */
  method ConvertUpdatesToReplacements(all: seq<PlanOp>, deps0: seq<PlanOp>) returns (plan: seq<PlanOp>)
    requires OneUpdateEach(all) && forall op | op in deps0 :: op.DeleteOp?
    requires forall x, y | x in deps0 && y in deps0 && x.e.Uri() == y.e.Uri() :: x == y
    ensures var a, d0 := Elements(all), Elements(deps0);
            Elements(plan) == Converted(a, d0) + Uncovered(Converted(a, d0), d0)
  {
    hide Converted, Elements, DependencyDeleted, Shrunk, OneUpdateEach, Uncovered;
    plan := [];
    var deps := deps0;
    ghost var d0 := Elements(deps0);
    NothingConverted(all, deps0);
    for i := 0 to |all|
      invariant Shrunk(all, i, deps0, deps)
      invariant Elements(plan) == Converted(Elements(all[..i]), d0)
    {
      var op := all[i];
      assert all[..i + 1] == all[..i] + [op];
      ElementsAppend(all[..i], [op]);
      OneElement(op);
      ConvertedMore(Elements(all[..i]), d0, op);
      var convert := false;
      ShrunkKept(all, i, deps0, deps);
      if op.UpdateOp? {
        ShrunkFinds(all, i, deps0, deps);
        var k := FindDependencyDelete(deps, op.n);
        convert := k < |deps|;
        if convert {
          ghost var before := deps;
          deps := deps[..k] + deps[k + 1..];
          ShrunkMore(all, i, deps0, before, deps, k);
        }
      }
      if convert {
        ElementsAppend(plan, [DeleteOp(op.e), CreateOp(op.n)]);
        TwoElements(DeleteOp(op.e), CreateOp(op.n));
        plan := plan + [DeleteOp(op.e), CreateOp(op.n)];
      } else {
        ElementsAppend(plan, [op]);
        plan := plan + [op];
      }
    }
    assert all[..|all|] == all;
    SameUncovered(all, deps0, deps);
    ShrunkSubset(all, deps0, deps);
    plan := AddUncovered(plan, deps);
  }

  lemma {:induction false} NothingConverted(all: seq<PlanOp>, deps0: seq<PlanOp>)
    ensures Shrunk(all, 0, deps0, deps0)
    ensures Elements<PlanOp>([]) == Converted(Elements(all[..0]), Elements(deps0))
  {
  }

  lemma {:induction false} ShrunkKept(all: seq<PlanOp>, i: nat, deps0: seq<PlanOp>, deps: seq<PlanOp>)
    requires i < |all| && Shrunk(all, i, deps0, deps)
    ensures Shrunk(all, i + 1, deps0, deps)
    ensures forall x | x in deps :: x in deps0
  {
  }

  lemma {:induction false} ShrunkSubset(all: seq<PlanOp>, deps0: seq<PlanOp>, deps: seq<PlanOp>)
    requires Shrunk(all, |all|, deps0, deps)
    ensures forall x | x in deps :: x in deps0
  {
  }

  lemma {:induction false} ShrunkMore(
    all: seq<PlanOp>, i: nat, deps0: seq<PlanOp>, before: seq<PlanOp>, deps: seq<PlanOp>, k: nat)
    requires i < |all| && Shrunk(all, i, deps0, before) && k < |before| && deps == before[..k] + before[k + 1..]
    requires all[i].UpdateOp? && before[k].DeleteOp? && before[k].e.Uri() == all[i].n.Uri()
    ensures Shrunk(all, i + 1, deps0, deps)
  {
    assert before == before[..k] + [before[k]] + before[k + 1..];
    forall x | x in deps0 && x !in deps
      ensures exists j | 0 <= j < i + 1 :: all[j].UpdateOp? && x.DeleteOp? && all[j].n.Uri() == x.e.Uri()
    {
      if x in before {
        assert x == before[k];
        assert all[i].UpdateOp? && x.DeleteOp? && all[i].n.Uri() == x.e.Uri();
      } else {
        var j :| 0 <= j < i && all[j].UpdateOp? && x.DeleteOp? && all[j].n.Uri() == x.e.Uri();
      }
    }
  }

  /** Entries that went with an update are covered by the delete of its replacement. */
  lemma {:induction false} SameUncovered(all: seq<PlanOp>, deps0: seq<PlanOp>, deps: seq<PlanOp>)
    requires OneUpdateEach(all) && Shrunk(all, |all|, deps0, deps)
    ensures var plan := Converted(Elements(all), Elements(deps0));
            Uncovered(plan, Elements(deps)) == Uncovered(plan, Elements(deps0))
  {
    var plan := Converted(Elements(all), Elements(deps0));
    forall x | x in deps0 && x !in deps ensures x !in Uncovered(plan, Elements(deps0)) {
      var j :| 0 <= j < |all| && all[j].UpdateOp? && x.DeleteOp? && all[j].n.Uri() == x.e.Uri();
      assert all[j] in all;
      assert DependencyDeleted(Elements(deps0), all[j].n);
      assert DeleteOp(all[j].e) in plan && DeleteOp(all[j].e).e.Uri() == x.e.Uri();
    }
  }

  method AddUncovered(plan0: seq<PlanOp>, deps: seq<PlanOp>) returns (plan: seq<PlanOp>)
    requires forall op | op in deps :: op.DeleteOp?
    requires forall x, y | x in deps && y in deps && x.e.Uri() == y.e.Uri() :: x == y
    ensures Elements(plan) == Elements(plan0) + Uncovered(Elements(plan0), Elements(deps))
  {
    plan := plan0;
    for i := 0 to |deps|
      invariant Elements(plan) == Elements(plan0) + Uncovered(Elements(plan0), Elements(deps[..i]))
    {
      var op := deps[i];
      assert deps[..i + 1] == deps[..i] + [op];
      var found := HasDelete(plan, op.e);
      UncoveredMore(Elements(plan0), deps, i);
      hide Uncovered;
      if !found {
        ElementsAppend(plan, [op]);
        OneElement(op);
        plan := plan + [op];
      }
    }
    assert deps[..|deps|] == deps;
  }

  lemma {:induction false} UncoveredMore(plan: set<PlanOp>, deps: seq<PlanOp>, i: nat)
    requires i < |deps| && forall op | op in deps :: op.DeleteOp?
    requires forall x, y | x in deps && y in deps && x.e.Uri() == y.e.Uri() :: x == y
    ensures var now := plan + Uncovered(plan, Elements(deps[..i]));
            plan + Uncovered(plan, Elements(deps[..i + 1])) ==
            now + (if exists x | x in now :: x.DeleteOp? && x.e.Uri() == deps[i].e.Uri() then {} else {deps[i]})
  {
    var op := deps[i];
    var now := plan + Uncovered(plan, Elements(deps[..i]));
    assert deps[..i + 1] == deps[..i] + [op];
    assert op in deps;
    forall x | x in Uncovered(plan, Elements(deps[..i])) && x.e.Uri() == op.e.Uri() ensures x == op {
      assert x in deps;
    }
    if op in Uncovered(plan, Elements(deps[..i + 1])) {
      assert forall x | x in plan :: !(x.DeleteOp? && x.e.Uri() == op.e.Uri());
    }
  }

  method HasDelete(plan: seq<PlanOp>, r: Resource) returns (found: bool)
    ensures found <==> exists x | x in Elements(plan) :: x.DeleteOp? && x.e.Uri() == r.Uri()
  {
    found := false;
    for i := 0 to |plan|
      invariant found <==> exists x | x in plan[..i] :: x.DeleteOp? && x.e.Uri() == r.Uri()
    {
      assert plan[..i + 1] == plan[..i] + [plan[i]];
      if plan[i].DeleteOp? && plan[i].e.Uri() == r.Uri() {
        found := true;
      }
    }
    assert plan[..|plan|] == plan;
  }

  // ----- The whole planner -----

  method GenerateForReconcile(d: Differ, existing: seq<Resource>, forma: seq<Resource>) returns (plan: seq<PlanOp>)
    requires WellFormed(existing, forma)
    ensures Elements(plan) == FinalPlan(d, existing, forma)
    ensures forall r :: DeleteOp(r) in plan <==>
              || Goes(d, existing, forma, r)
              || (r in existing && exists g | Goes(d, existing, forma, g) ::
                    g.ksuid != r.ksuid && exists u | u in r.refs :: u.ksuid == g.ksuid)
    ensures forall n :: CreateOp(n) in plan <==>
              n in forma &&
              forall e | e in existing && e.stack == n.stack && e.name == n.name && e.kind == n.kind &&
                e.target == n.target :: DeleteOp(e) in plan
    ensures forall e, n :: UpdateOp(e, n) in plan <==>
              && e in existing && n in forma
              && e.stack == n.stack && e.name == n.name && e.kind == n.kind && e.target == n.target
              && e != n && d.decide(e, n) == InPlace && DeleteOp(e) !in plan
  {
    plan := MakePlan(d, existing, forma);
    assert forall op :: op in plan <==> op in FinalPlan(d, existing, forma);
    hide Elements, FinalPlan, WellFormed, Goes;
    forall r ensures DeleteOp(r) in plan <==>
                     || Goes(d, existing, forma, r)
                     || (r in existing && exists g | Goes(d, existing, forma, g) ::
                           g.ksuid != r.ksuid && exists u | u in r.refs :: u.ksuid == g.ksuid)
    {
      DeletedExactly(d, existing, forma, r);
    }
    forall n ensures CreateOp(n) in plan <==>
                     n in forma &&
                     forall e | e in existing && e.stack == n.stack && e.name == n.name && e.kind == n.kind &&
                       e.target == n.target :: DeleteOp(e) in plan
    {
      CreatedExactly(d, existing, forma, n);
    }
    forall e, n ensures UpdateOp(e, n) in plan <==>
                        && e in existing && n in forma
                        && e.stack == n.stack && e.name == n.name && e.kind == n.kind && e.target == n.target
                        && e != n && d.decide(e, n) == InPlace && DeleteOp(e) !in plan
    {
      UpdatedExactly(d, existing, forma, e, n);
    }
  }

  method MakePlan(d: Differ, existing: seq<Resource>, forma: seq<Resource>) returns (plan: seq<PlanOp>)
    requires WellFormed(existing, forma)
    ensures Elements(plan) == FinalPlan(d, existing, forma)
  {
    hide Elements, Creates, Updates, ReplaceDeletes, ReplaceCreates, ImplicitDeletes, DependencyDeletes, Converted,
      ReplacementCreates, WellFormed, Uncovered, OneUpdateEach;
    SameOnEachSide(existing, forma);
    var creates, updates, replacements, implicitDeletes := PlanAllStacks(d, existing, forma);
    ElementsAppend(replacements, implicitDeletes);
    var deps := FindDependencyUpdates(replacements + implicitDeletes, existing);
    var all := creates + replacements + updates + implicitDeletes;
    ElementsAppend(creates, replacements);
    ElementsAppend(creates + replacements, updates);
    ElementsAppend(creates + replacements + updates, implicitDeletes);
    assert Elements(all) == FirstPlan(d, existing, forma);
    DepsFacts(d, existing, forma, deps);
    var converted := ConvertDependencyDeletesToReplacements(all, deps, forma);
    ElementsAppend(all, converted);
    NotUpdates(d, existing, forma, creates, replacements, implicitDeletes, deps, converted, Elements(all));
    OneUpdateEachInPlan(d, existing, forma, creates + replacements, updates, implicitDeletes + converted);
    assert all + converted == creates + replacements + updates + (implicitDeletes + converted);
    assert Elements(all + converted) ==
           Elements(all) + Elements(deps) + ReplacementCreates(Elements(all), Elements(deps), forma);
    NothingUncovered(Elements(all + converted), Elements(deps));
    plan := ConvertUpdatesToReplacements(all + converted, deps);
  }

  lemma {:induction false} SameOnEachSide(existing: seq<Resource>, forma: seq<Resource>)
    requires WellFormed(existing, forma)
    ensures Distinct(existing) && NoDup(existing) && Distinct(forma) && NoDup(forma) && DistinctKeys(forma)
  {
    forall a, b | a in forma && b in forma && a.FormaKey() == b.FormaKey() ensures a == b {
      SameResource(existing, forma, a, b);
    }
  }

  lemma {:induction false} DepsFacts(d: Differ, existing: seq<Resource>, forma: seq<Resource>, deps: seq<PlanOp>)
    requires WellFormed(existing, forma) && Elements(deps) == Deps(d, existing, forma)
    ensures forall op | op in deps :: op.DeleteOp?
    ensures forall x, y | x in deps && y in deps && x.e.Uri() == y.e.Uri() :: x == y
  {
    forall x | x in deps ensures x.DeleteOp? && x.e in existing {
      assert x in Elements(deps);
      DependencyShape(Removals(d, existing, forma), existing, x);
    }
    forall x, y | x in deps && y in deps && x.e.Uri() == y.e.Uri() ensures x == y {
      SameResource(existing, forma, x.e, y.e);
    }
  }

  lemma {:induction false} NotUpdates(
    d: Differ, existing: seq<Resource>, forma: seq<Resource>, creates: seq<PlanOp>, replacements: seq<PlanOp>,
    implicitDeletes: seq<PlanOp>, deps: seq<PlanOp>, converted: seq<PlanOp>, all: set<PlanOp>)
    requires Elements(creates) == Creates(existing, forma)
    requires Elements(replacements) == ReplaceDeletes(d, existing, forma) + ReplaceCreates(d, existing, forma)
    requires Elements(implicitDeletes) == ImplicitDeletes(existing, forma)
    requires forall op | op in deps :: op.DeleteOp?
    requires Elements(converted) == Elements(deps) + ReplacementCreates(all, Elements(deps), forma)
    ensures forall op | op in creates + replacements + (implicitDeletes + converted) :: !op.UpdateOp?
  {
    forall op | op in creates ensures !op.UpdateOp? { assert op in Elements(creates); }
    forall op | op in replacements ensures !op.UpdateOp? { assert op in Elements(replacements); }
    forall op | op in implicitDeletes ensures !op.UpdateOp? { assert op in Elements(implicitDeletes); }
    forall op | op in converted ensures !op.UpdateOp? { assert op in Elements(converted); }
  }

  lemma {:induction false} OneUpdateEachInPlan(
    d: Differ, existing: seq<Resource>, forma: seq<Resource>, a: seq<PlanOp>, updates: seq<PlanOp>, b: seq<PlanOp>)
    requires WellFormed(existing, forma) && UpdatesApart(updates) && Elements(updates) == Updates(d, existing, forma)
    requires forall op | op in a + b :: !op.UpdateOp?
    ensures OneUpdateEach(a + updates + b)
  {
    forall op | op in updates ensures op.e in existing && op.n in forma && op.e.Uri() == op.n.Uri() {
      assert op in Elements(updates);
      SameResource(existing, forma, op.e, op.n);
    }
    var all := a + updates + b;
    forall i, j | 0 <= i < j < |all| && all[i].UpdateOp? && all[j].UpdateOp? ensures all[i].n.Uri() != all[j].n.Uri() {
      assert all[i] in a + b || |a| <= i < |a| + |updates|;
      assert all[j] in a + b || |a| <= j < |a| + |updates|;
      var x, y := updates[i - |a|], updates[j - |a|];
      assert all[i] == x && all[j] == y && x in updates && y in updates;
      SameResource(existing, forma, x.n, y.n);
    }
  }

  lemma {:induction false} NothingUncovered(all: set<PlanOp>, deps: set<PlanOp>)
    requires deps <= all
    ensures Uncovered(Converted(all, deps), deps) == {}
  {
    forall op | op in deps && op.DeleteOp? ensures op !in Uncovered(Converted(all, deps), deps) {
      assert op in Converted(all, deps);
    }
  }
}
