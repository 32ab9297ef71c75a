/** Whole runs of the executor: its traces are runs of the scheduler, and with an environment that works they come to an
    end (internal/metastructure/changeset/changeset_executor.go). */
module ExecutorRuns {
  import opened Common
  import opened Digraph
  import opened Operations
  import opened Scheduler
  import opened RunReports
  import opened ChangesetPipeline
  import opened RateLimiting
  import opened ChangesetExecution

  // ----- Every trace is a run -----

  /** Drives the executor over any number of arbitrary messages, with whatever goes wrong around it. The trace of its
      states is a run of the scheduler, so that every theorem about runs holds of it. */
  method Drive(executor: ChangesetExecutor, messages: nat) returns (ghost b: seq<Exec>, ghost ls: seq<Label>)
    requires executor.Valid() && executor.phase == Idle && !executor.timer
    requires var m := executor.changeset.model; m == Fresh(m.ops, m.edges) && m.WellFormed()
    modifies executor, executor.changeset, executor.limiter
    ensures executor.Valid() && b != [] && b[|b| - 1] == executor.View()
    ensures IsLabelledRun(old(executor.changeset.model.ops), old(executor.changeset.model.edges), b, ls)
    ensures IsRun(old(executor.changeset.model.ops), old(executor.changeset.model.edges), b)
    ensures forall i | 0 <= i < |b| :: IsWell(old(executor.changeset.model.ops),
              old(executor.changeset.model.edges), b[i])
  {
    hide LabelledStep, StartStep, TimerStep, FinishStep, ChangesetExecutor.Valid, Sched.WellFormed, IsRun, IsWell;
    ghost var ops, edges := executor.changeset.model.ops, executor.changeset.model.edges;
    b, ls := [executor.View()], [];
    for i := 0 to messages
      invariant executor.Valid() && b != [] && b[|b| - 1] == executor.View()
      invariant IsLabelledRun(ops, edges, b, ls)
    {
      ghost var s := executor.View();
      if executor.phase == Idle {
        executor.Start();
        StartHasLabel(s, executor.View());
      } else if executor.phase == Processing {
        var timer := *;
        if timer && executor.timer {
          var rested := *;
          ghost var batch := executor.TimerFired(rested);
          TimerHasLabel(s, executor.View());
        } else {
          var uri: FormaeUri, state: UpdateState := *, *;
          if state !in {Success, Failed, Rejected} {
            state := InProgress;
          }
          executor.ResourceUpdateFinished(uri, state);
          FinishHasLabel(s, executor.View(), uri, state);
        }
      } else {
        break;
      }
      ghost var l: Label :| LabelledStep(s, executor.View(), l);
      LongerRun(ops, edges, b, ls, executor.View(), l);
      b, ls := b + [executor.View()], ls + [l];
    }
    LabelledRunIsRun(ops, edges, b, ls);
    RunIsWell(ops, edges, b);
  }

  lemma {:induction false} StartHasLabel(s: Exec, t: Exec)
    requires StartStep(s, t)
    ensures exists l :: LabelledStep(s, t, l)
  {
    assert LabelledStep(s, t, Starts);
  }

  lemma {:induction false} TimerHasLabel(s: Exec, t: Exec)
    requires TimerStep(s, t)
    ensures exists l :: LabelledStep(s, t, l)
  {
    assert LabelledStep(s, t, Timer);
  }

  lemma {:induction false} LongerRun(
    ops: map<OpUri, ResourceUpdate>, edges: set<(OpUri, OpUri)>, b: seq<Exec>, ls: seq<Label>, t: Exec, l: Label)
    requires IsLabelledRun(ops, edges, b, ls) && LabelledStep(b[|b| - 1], t, l)
    ensures IsLabelledRun(ops, edges, b + [t], ls + [l])
  {
    hide LabelledStep;
  }

  /** Ordering, complete cascades, progress and conservation. */
  ghost predicate IsWell(ops: map<OpUri, ResourceUpdate>, edges: set<(OpUri, OpUri)>, s: Exec) {
    && (forall e | e in edges && e.1 in s.sched.started :: e.0 in s.sched.succeeded)
    && (forall e | e in edges && e.0 in s.sched.failed :: e.1 in s.sched.failed && e.1 !in s.sched.started)
    && (s.phase == Processing ==> s.sched.Running() != {} || s.timer)
    && (s.phase == FinishedSuccessfully ==> s.sched.Live() == {})
    && s.sched.Live() !! s.sched.succeeded !! s.sched.failed
    && s.sched.Live() + s.sched.succeeded + s.sched.failed == ops.Keys
  }

  lemma {:induction false} RunIsWell(ops: map<OpUri, ResourceUpdate>, edges: set<(OpUri, OpUri)>, b: seq<Exec>)
    requires Fresh(ops, edges).WellFormed() && IsRun(ops, edges, b)
    ensures forall i | 0 <= i < |b| :: IsWell(ops, edges, b[i])
  {
    forall i | 0 <= i < |b| ensures IsWell(ops, edges, b[i]) {
      RunInvariant(ops, edges, b, 0, i);
      RunConservation(ops, edges, b, i);
    }
  }

  // ----- Every changeset comes to an end -----

  ghost predicate Unfinished(e: Exec) { e.phase == Processing && ExecInv(e) }

  lemma {:induction false} FinishShrinks(s: Exec, t: Exec, n: OpUri, state: UpdateState)
    requires s.sched.Inv() && n in s.sched.Running() && FinishOf(s, t, n, state)
    requires state in {Success, Failed, Rejected}
    ensures |t.sched.Live()| < |s.sched.Live()|
  {
    FinishKeepsInv(s.sched, n, state);
    hide Sched.Inv, Sched.AllReady, Sched.Finish, Sched.Running;
    assert t.sched.Live() == s.sched.Finish(n, state).Live();
  }

  lemma {:induction false} FinishMakesProgress(s: Exec, t: Exec, uri: FormaeUri, state: UpdateState)
    requires Unfinished(s) && FinishStep(s, t, uri, state) && state in {Success, Failed, Rejected}
    requires exists n :: n in s.sched.Running() && n.uri == uri
    ensures ExecInv(t) && Grows(s.sched, t.sched) && |t.sched.Live()| < |s.sched.Live()|
  {
    hide Sched.Inv, Sched.Running, Sched.Live, FinishOf, Grows;
    FinishStepKeepsInv(s, t, uri, state);
    var n :| n in s.sched.Running() && n.uri == uri && FinishOf(s, t, n, state);
    FinishShrinks(s, t, n, state);
  }

  /** A timer pass starts something or, if it started all that was ready, leaves no timer pending. */
  lemma {:induction false} TimerMakesProgress(s: Exec, t: Exec, batch: set<OpUri>)
    requires Unfinished(s) && ResumeTo(s.(timer := false), t, batch) && t.phase == Processing
    ensures ExecInv(t) && Grows(s.sched, t.sched) && t.sched.Live() == s.sched.Live()
    ensures batch != {} ==> |t.sched.Live() - t.sched.started| < |s.sched.Live() - s.sched.started|
    ensures batch == {} ==> t.sched == s.sched
    ensures batch == {} && s.sched.AllReady() == {} ==> !t.timer
  {
    ResumeKeepsInv(s.(timer := false), t, batch);
    if n :| n in batch {
      assert s.sched.IsReady(n);
      SmallerSet(t.sched.Live() - t.sched.started, s.sched.Live() - s.sched.started, n);
    } else {
      assert s.sched.Start({}) == s.sched;
    }
  }

  lemma {:induction false} GrowsAlong(a: Sched, b: Sched, c: Sched)
    ensures Grows(a, a)
    ensures Grows(a, b) && Grows(b, c) ==> Grows(a, c)
  {
  }

  lemma {:induction false} NothingLeft(e: Exec)
    requires ExecInv(e) && e.phase == FinishedSuccessfully
    ensures e.sched.Live() == {} && e.sched.succeeded + e.sched.failed == e.sched.ops.Keys
  {
    forall n | n in e.sched.ops ensures n in e.sched.succeeded + e.sched.failed {
      assert n !in e.sched.Live();
    }
  }

  /** An executor with nothing running waits for its timer and has something to start. */
  lemma {:induction false} NothingRuns(executor: ChangesetExecutor)
    requires executor.Valid() && Unfinished(executor.View())
    requires forall n | n in executor.changeset.live :: n !in executor.changeset.model.Running()
    ensures executor.timer && executor.changeset.model.AllReady() != {}
  {
    var m := executor.changeset.model;
    assert m.Running() <= m.Live();
    ReadyOrRunning(m);
  }

  /** Runs the executor to its end on any schedule: running updates report final states in any order, and the timer
      fires whenever it is pending, also while updates run. A limited number of messages may be of no use: reports that
      find no running update, and timers that fire before the buckets have filled again. With calls that succeed and
      buckets that fill, this ends, and with every operation succeeded or failed. */
  method RunToEnd(executor: ChangesetExecutor, useless: nat)
    requires executor.Valid() && Unfinished(executor.View()) && executor.Supplied()
    modifies executor, executor.changeset, executor.limiter
    ensures executor.Valid() && executor.phase == FinishedSuccessfully && ExecInv(executor.View())
    ensures Grows(old(executor.changeset.model), executor.changeset.model)
    ensures var m := executor.changeset.model; m.Live() == {} && m.succeeded + m.failed == m.ops.Keys
  {
    hide Sched.Inv, ExecInv, FinishStep, ResumeTo, TimerStep, Grows, Sched.Live, Sched.Running, Sched.AllReady;
    hide ChangesetExecutor.Valid, ChangesetExecutor.Supplied;
    var changeset, left := executor.changeset, useless;
    GrowsAlong(changeset.model, changeset.model, changeset.model);
    while executor.phase == Processing
      invariant executor.Valid() && executor.Supplied() && ExecInv(executor.View())
      invariant executor.phase == Processing || executor.phase == FinishedSuccessfully
      invariant Grows(old(changeset.model), changeset.model)
      decreases |changeset.model.Live()|, |changeset.model.Live() - changeset.model.started|, left,
        if executor.timer then 1 else 0
    {
      ghost var s := executor.View();
      var stray, timer := *, *;
      if stray && left > 0 {
        left := left - 1;
        StrayReport(executor);
      } else if timer && executor.timer {
        var rested := *;
        if left == 0 {
          rested := true;
        } else if !rested {
          left := left - 1;
        }
        ghost var batch := executor.TimerFired(rested);
        TimerMakesProgress(s, executor.View(), batch);
      } else if n :| n in changeset.live && executor.IsRunning(n) {
        var state: UpdateState := *;
        if state !in {Success, Failed, Rejected} {
          state := Success;
        }
        executor.ResourceUpdateFinished(n.uri, state);
        FinishMakesProgress(s, executor.View(), n.uri, state);
      } else {
        NothingRuns(executor);
        ghost var batch := executor.TimerFired(true);
        TimerMakesProgress(s, executor.View(), batch);
      }
      GrowsAlong(old(changeset.model), s.sched, changeset.model);
    }
    NothingLeft(executor.View());
  }

  /** A late or mistaken report, for a resource without a running update, changes nothing. */
  method StrayReport(executor: ChangesetExecutor)
    requires executor.Valid() && executor.phase == Processing && executor.Supplied()
    modifies executor, executor.changeset, executor.limiter
    ensures executor.Valid() && executor.Supplied() && executor.View() == old(executor.View())
    ensures Grows(executor.changeset.model, executor.changeset.model)
  {
    var uri: FormaeUri, state: UpdateState := *, *;
    var found := executor.FindRunning(uri);
    if found.None? && state in {Success, Failed, Rejected, InProgress} {
      executor.ResourceUpdateFinished(uri, state);
    }
  }

  lemma {:induction false} SplitKinds(updates: seq<ResourceUpdate>)
    ensures updates != [] ==> SplitReplaces(updates) != []
    ensures forall o | o in SplitReplaces(updates) :: exists u | u in updates :: o.resourceType == u.resourceType
  {
    if updates != [] {
      var n := |updates| - 1;
      SplitKinds(updates[..n]);
      assert updates == updates[..n] + [updates[n]];
      assert updates[n] in updates;
    }
  }

  /** The operations of a command are as many and of such namespaces as its updates say. */
  lemma {:induction false} CommandOperations(updates: seq<ResourceUpdate>)
    ensures var m := GroupOps(SplitReplaces(updates));
            && (updates != [] ==> m.Keys != {})
            && forall n | n in m :: exists u | u in updates :: m[n].Namespace() == u.Namespace()
  {
    var ops := SplitReplaces(updates);
    SplitKinds(updates);
    TablesConsistent(ops);
    if updates != [] {
      assert ops[0] in ops;
    }
  }

  lemma {:induction false} FreshIsReady(ops: map<OpUri, ResourceUpdate>, edges: set<(OpUri, OpUri)>)
    requires Fresh(ops, edges).WellFormed() && ops.Keys != {}
    ensures ExecInv(Exec(Idle, Fresh(ops, edges), false)) && Fresh(ops, edges).Live() != {}
  {
    assert Fresh(ops, edges).Live() == ops.Keys;
  }

  lemma {:induction false} StartedRuns(s: Exec, t: Exec)
    requires ExecInv(s) && StartStep(s, t)
    ensures ExecInv(t) && Grows(s.sched, t.sched)
  {
    hide ExecInv, Grows;
    NextKeepsInv(s, t);
  }

  lemma {:induction false} EndedInv(e: Exec)
    requires ExecInv(e)
    ensures e.sched.Inv()
  {
  }

  lemma {:induction false} GrowsKeepsGraph(s: Sched, t: Sched)
    requires Grows(s, t)
    ensures t.ops == s.ops && t.edges == s.edges
  {
  }

  lemma {:induction false} CommandSupplied(updates: seq<ResourceUpdate>, buckets: map<string, Bucket>)
    requires forall u | u in updates :: SuppliesNamespace(buckets, u.Namespace())
    ensures var m := GroupOps(SplitReplaces(updates)); forall n | n in m :: SuppliesNamespace(buckets, m[n].Namespace())
  {
    hide GroupOps, SplitReplaces, SuppliesNamespace, FirstFragment;
    CommandOperations(updates);
  }

  /** From a command to its end: a command whose references form a cycle is turned away; any other, once started, comes
      to an end on every schedule, and each of its operations has then succeeded or failed. */
  method Execute(updates: seq<ResourceUpdate>, limiter: RateLimiter, useless: nat)
    returns (cycles: bool, ghost final: Sched)
    requires limiter.Valid() && updates != []
    requires forall u | u in updates :: u.state == NotStarted && SuppliesNamespace(limiter.buckets, u.Namespace())
    modifies limiter
    ensures cycles <==> Cyclic(Edges(SplitReplaces(updates)))
    ensures !cycles ==>
              && final.Inv() && final.ops == GroupOps(SplitReplaces(updates)) &&
                  final.edges == Edges(SplitReplaces(updates))
              && final.succeeded + final.failed == final.ops.Keys
  {
    hide ExecInv, Grows, GroupOps, Edges, SplitReplaces, Changeset.Valid, Sched.Live, StartStep, SuppliesNamespace;
    CommandSupplied(updates, limiter.buckets);
    var changeset := new Changeset();
    cycles := changeset.Init(updates);
    final := changeset.model;
    if !cycles {
      var executor := new ChangesetExecutor(changeset, limiter, true);
      EdgesWellFormed(SplitReplaces(updates));
      CommandOperations(updates);
      FreshIsReady(GroupOps(SplitReplaces(updates)), Edges(SplitReplaces(updates)));
      ghost var idle := executor.View();
      executor.Start();
      StartedRuns(idle, executor.View());
      GrowsKeepsGraph(idle.sched, changeset.model);
      ghost var begun := changeset.model;
      RunToEnd(executor, useless);
      final := changeset.model;
      GrowsKeepsGraph(begun, final);
      EndedInv(executor.View());
    }
  }
}
