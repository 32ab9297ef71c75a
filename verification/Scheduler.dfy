/** The scheduler without its data structures: which operations have been started, have succeeded and have
    failed. The changeset (Changeset.dfy) refines this with its linked groups, and the executor
    (ChangesetExecutor.dfy) refines the run relation at the end of this file. */
module Scheduler {
  import opened Common
  import opened Digraph
  import opened Operations

  datatype Sched = Sched(
    ops: map<OpUri, ResourceUpdate>,
    edges: set<(OpUri, OpUri)>,
    started: set<OpUri>,
    succeeded: set<OpUri>,
    failed: set<OpUri>)
  {
    function Live(): set<OpUri> { ops.Keys - succeeded - failed }

    function Running(): set<OpUri> { started - succeeded - failed }

    ghost predicate IsReady(n: OpUri) {
      n in Live() && n !in started && Preds(edges, n) <= succeeded
    }

    ghost function AllReady(): set<OpUri> { set n | n in Live() && IsReady(n) }

    ghost function Ready(namespace: string): set<OpUri> {
      set n | n in Live() && IsReady(n) && ops[n].Namespace() == namespace
    }

    /** Live operations that wait for n, directly or through others. */
    ghost function Dependents(n: OpUri): set<OpUri> {
      set d | d in Live() && d != n && Reaches(edges, n, d)
    }

    ghost function Start(batch: set<OpUri>): Sched { this.(started := started + batch) }

    ghost function Succeed(n: OpUri): Sched { this.(succeeded := succeeded + {n}) }

    ghost function Fail(n: OpUri): Sched { this.(failed := failed + {n} + Dependents(n)) }

    ghost function Finish(n: OpUri, state: UpdateState): Sched {
      if state == Success then Succeed(n)
      else if state == Failed || state == Rejected then Fail(n)
      else this
    }

    ghost predicate WellFormed() {
      && (forall e | e in edges :: e.0 in ops && e.1 in ops)
      && !Cyclic(edges)
    }

    /** What every reachable state satisfies. The third line is the ordering guarantee, the fourth says that
        failures have cascaded completely. */
    ghost predicate Inv() {
      && WellFormed()
      && succeeded !! failed && succeeded <= started <= ops.Keys && failed <= ops.Keys
      && (forall e | e in edges && e.1 in started :: e.0 in succeeded)
      && (forall e | e in edges && e.0 in failed :: e.1 in failed)
    }
  }

  ghost function Fresh(ops: map<OpUri, ResourceUpdate>, edges: set<(OpUri, OpUri)>): Sched {
    Sched(ops, edges, {}, {}, {})
  }

  // ----- Single steps -----

  lemma {:induction false} StartKeepsInv(s: Sched, batch: set<OpUri>)
    requires s.Inv() && batch <= s.AllReady()
    ensures s.Start(batch).Inv()
    ensures batch !! s.started
    ensures s.Start(batch).Running() == s.Running() + batch
  {
    forall e | e in s.edges && e.1 in batch ensures e.0 in s.succeeded {
      assert e.0 in Preds(s.edges, e.1);
    }
  }

  lemma {:induction false} SucceedKeepsInv(s: Sched, n: OpUri)
    requires s.Inv() && n in s.Running()
    ensures s.Succeed(n).Inv()
    ensures s.Succeed(n).Live() == s.Live() - {n}
  {
  }

  /** Everything that waits for a live operation is itself live and not started. */
  lemma {:induction false} DependentsNotStarted(s: Sched, n: OpUri, w: seq<OpUri>)
    requires s.Inv() && n in s.Live() && IsWalk(s.edges, w) && w[0] == n && |w| >= 2
    ensures w[|w| - 1] !in s.started && w[|w| - 1] != n
    decreases |w|
  {
    var v, last := w[..|w| - 1], w[|w| - 1];
    assert (v[|v| - 1], last) in s.edges;
    assert v[|v| - 1] !in s.succeeded by {
      if |v| >= 2 {
        assert IsWalk(s.edges, v);
        DependentsNotStarted(s, n, v);
      }
    }
    if last == n {
      assert IsClosedWalk(s.edges, w);
    }
  }

  lemma {:induction false} DependentsUntouched(s: Sched, n: OpUri)
    requires s.Inv() && n in s.Live()
    ensures s.Dependents(n) !! s.started
  {
    forall d | d in s.Dependents(n) ensures d !in s.started {
      var w :| WalkFromTo(s.edges, n, d, w);
      DependentsNotStarted(s, n, w);
    }
  }

  lemma {:induction false} FailKeepsInv(s: Sched, n: OpUri)
    requires s.Inv() && n in s.Running()
    ensures s.Fail(n).Inv()
    ensures s.Fail(n).Live() == s.Live() - {n} - s.Dependents(n)
  {
    DependentsUntouched(s, n);
    var t := s.Fail(n);
    forall e | e in s.edges && e.0 in t.failed ensures e.1 in t.failed {
      if e.0 !in s.failed {
        FailedSuccessor(s, n, e);
      }
    }
  }

  lemma {:induction false} FailedSuccessor(s: Sched, n: OpUri, e: (OpUri, OpUri))
    requires s.Inv() && n in s.Running() && e in s.edges && e.0 in {n} + s.Dependents(n)
    ensures e.1 in s.failed + s.Dependents(n)
  {
    if e.0 == n {
      ReachesSelf(s.edges, n);
    }
    ReachesStep(s.edges, n, e.0, e.1);
    assert e.1 !in s.succeeded;
    if e.1 == n {
      NoWayBack(s.edges, e.0, e.1);
    }
  }

  /** A finish report with a final state keeps the invariant and strictly shrinks the live set. */
  lemma {:induction false} FinishKeepsInv(s: Sched, n: OpUri, state: UpdateState)
    requires s.Inv() && n in s.Running()
    ensures s.Finish(n, state).Inv()
    ensures state in {Success, Failed, Rejected} ==> |s.Finish(n, state).Live()| < |s.Live()|
    ensures s.Finish(n, state).started == s.started
  {
    if state == Success {
      SucceedKeepsInv(s, n);
      SmallerSet(s.Finish(n, state).Live(), s.Live(), n);
    } else if state == Failed || state == Rejected {
      FailKeepsInv(s, n);
      SmallerSet(s.Finish(n, state).Live(), s.Live(), n);
    }
  }

  /** The scheduler is never out of work: with operations left, something is running or can be started. */
  lemma {:induction false} ReadyOrRunning(s: Sched)
    requires s.Inv() && s.Live() != {}
    ensures s.Running() != {} || s.AllReady() != {}
  {
    SourceExists(s.edges, s.Live());
    var n :| n in s.Live() && Preds(s.edges, n) !! s.Live();
    if s.Running() == {} {
      forall p | p in Preds(s.edges, n) ensures p in s.succeeded {
        var e := (p, n);
        assert e in s.edges && e.0 in s.ops && e.0 !in s.failed;
      }
      assert n !in s.Running();
      assert s.IsReady(n);
      assert n in s.AllReady();
    }
  }

  // ----- At most one operation per resource -----

  /** Whatever a started operation waits for, however indirectly, has succeeded. */
  lemma {:induction false} AncestorsSucceeded(s: Sched, w: seq<OpUri>)
    requires s.Inv() && IsWalk(s.edges, w) && |w| >= 2 && w[|w| - 1] in s.started
    ensures w[0] in s.succeeded
    decreases |w|
  {
    var v, last := w[..|w| - 1], w[|w| - 1];
    assert (v[|v| - 1], last) in s.edges;
    if |v| >= 2 {
      assert IsWalk(s.edges, v);
      AncestorsSucceeded(s, v);
    }
  }

  /** Any two operations on the same resource are ordered by the graph. */
  ghost predicate SameUriOrdered(s: Sched) {
    forall a, b | a in s.ops && b in s.ops && a != b && a.uri == b.uri ::
      Reaches(s.edges, a, b) || Reaches(s.edges, b, a)
  }

  lemma {:induction false} AtMostOneRunningPerUri(s: Sched, a: OpUri, b: OpUri)
    requires s.Inv() && SameUriOrdered(s)
    requires a in s.Running() && b in s.Running() && a.uri == b.uri
    ensures a == b
  {
    if a != b {
      if Reaches(s.edges, a, b) {
        var w :| WalkFromTo(s.edges, a, b, w);
        AncestorsSucceeded(s, w);
      } else {
        var w :| WalkFromTo(s.edges, b, a, w);
        AncestorsSucceeded(s, w);
      }
    }
  }

  // ----- Runs of the executor -----

  datatype Phase = Idle | Processing | FinishedSuccessfully | FinishedWithError

  /** The executor's state: its phase, the scheduler and whether a Resume timer is pending. */
  datatype Exec = Exec(phase: Phase, sched: Sched, timer: bool)

  /** One pass of `resume`: some ready operations are started. The pass either breaks off with an error or
      goes on processing, asking for another pass when the rate limit held something back. */
  ghost predicate ResumeTo(s: Exec, t: Exec, batch: set<OpUri>) {
    && batch <= s.sched.AllReady()
    && t.sched == s.sched.Start(batch)
    && (|| (t.phase == FinishedWithError && t.timer == s.timer)
        || (t.phase == Processing && t.timer == (s.timer || batch != s.sched.AllReady())))
  }

  /** A changeset with nothing in it is an error, and so is a failure to set up the run. */
  ghost predicate StartStep(s: Exec, t: Exec) {
    && s.phase == Idle
    && (|| t == s.(phase := FinishedWithError)
        || (s.sched.Live() != {} && exists batch: set<OpUri> :: ResumeTo(s, t, batch)))
  }

  ghost predicate TimerStep(s: Exec, t: Exec) {
    && s.phase == Processing && s.timer
    && exists batch: set<OpUri> :: ResumeTo(s.(timer := false), t, batch)
  }

  /** A finish report for a URI with no running operation changes nothing. Otherwise a running operation
      with that URI takes the reported state and the executor ends or resumes. */
  ghost predicate FinishStep(s: Exec, t: Exec, uri: FormaeUri, state: UpdateState) {
    && s.phase == Processing && state in {Success, Failed, Rejected, InProgress}
    && if forall n | n in s.sched.Running() :: n.uri != uri then t == s
       else exists n | n in s.sched.Running() && n.uri == uri :: FinishOf(s, t, n, state)
  }

  ghost predicate FinishOf(s: Exec, t: Exec, n: OpUri, state: UpdateState) {
    var u := s.(sched := s.sched.Finish(n, state));
    if u.sched.Live() == {} then t == u.(phase := FinishedSuccessfully)
    else exists batch: set<OpUri> :: ResumeTo(u, t, batch)
  }

  ghost predicate Next(s: Exec, t: Exec) {
    || StartStep(s, t)
    || TimerStep(s, t)
    || exists uri: FormaeUri, state: UpdateState :: FinishStep(s, t, uri, state)
  }

  ghost predicate IsRun(ops: map<OpUri, ResourceUpdate>, edges: set<(OpUri, OpUri)>, b: seq<Exec>) {
    && |b| > 0 && b[0] == Exec(Idle, Fresh(ops, edges), false)
    && forall i | 0 <= i < |b| - 1 :: Next(b[i], b[i + 1])
  }

  /** The invariant of the run relation. In Processing there is work left, and something is running or the
      timer will wake the executor. */
  ghost predicate ExecInv(s: Exec) {
    && s.sched.Inv()
    && (s.phase == Idle ==> s.sched.started == {})
    && (s.phase == Processing ==> s.sched.Live() != {} && (s.sched.Running() != {} || s.timer))
    && (s.phase == FinishedSuccessfully ==> s.sched.Live() == {})
  }

  /** Progress between two states: nothing is undone, and an operation that fails or succeeds was live. */
  ghost predicate Grows(s: Sched, t: Sched) {
    && t.ops == s.ops && t.edges == s.edges
    && s.started <= t.started && s.succeeded <= t.succeeded && s.failed <= t.failed
  }

  lemma {:induction false} ResumeKeepsInv(s: Exec, t: Exec, batch: set<OpUri>)
    requires s.sched.Inv() && s.sched.Live() != {} && ResumeTo(s, t, batch)
    ensures ExecInv(t) && Grows(s.sched, t.sched)
  {
    StartKeepsInv(s.sched, batch);
    ReadyOrRunning(s.sched);
  }

  lemma {:induction false} FinishOfKeepsInv(s: Exec, t: Exec, n: OpUri, state: UpdateState)
    requires ExecInv(s) && s.phase == Processing && n in s.sched.Running() && FinishOf(s, t, n, state)
    ensures ExecInv(t) && Grows(s.sched, t.sched)
  {
    FinishKeepsInv(s.sched, n, state);
    var u := s.(sched := s.sched.Finish(n, state));
    assert Grows(s.sched, u.sched);
    if u.sched.Live() != {} {
      var batch: set<OpUri> :| ResumeTo(u, t, batch);
      ResumeKeepsInv(u, t, batch);
    }
  }

  lemma {:induction false} FinishStepKeepsInv(s: Exec, t: Exec, uri: FormaeUri, state: UpdateState)
    requires ExecInv(s) && FinishStep(s, t, uri, state)
    ensures ExecInv(t) && Grows(s.sched, t.sched)
  {
    if t != s {
      var n :| n in s.sched.Running() && n.uri == uri && FinishOf(s, t, n, state);
      FinishOfKeepsInv(s, t, n, state);
    }
  }

  lemma {:induction false} NextKeepsInv(s: Exec, t: Exec)
    requires ExecInv(s) && Next(s, t)
    ensures ExecInv(t) && Grows(s.sched, t.sched)
  {
    if StartStep(s, t) {
      if t != s.(phase := FinishedWithError) {
        var batch: set<OpUri> :| ResumeTo(s, t, batch);
        ResumeKeepsInv(s, t, batch);
      }
    } else if TimerStep(s, t) {
      var batch: set<OpUri> :| ResumeTo(s.(timer := false), t, batch);
      ResumeKeepsInv(s.(timer := false), t, batch);
    } else {
      var uri: FormaeUri, state: UpdateState :| FinishStep(s, t, uri, state);
      FinishStepKeepsInv(s, t, uri, state);
    }
  }

  /** Every state of every run satisfies the invariant, and runs only move forward. */
  lemma {:induction false} RunInvariant(
    ops: map<OpUri, ResourceUpdate>, edges: set<(OpUri, OpUri)>, b: seq<Exec>, i: nat, j: nat)
    requires Fresh(ops, edges).WellFormed() && IsRun(ops, edges, b) && i <= j < |b|
    ensures ExecInv(b[j]) && Grows(b[i].sched, b[j].sched) && b[j].sched.ops == ops && b[j].sched.edges == edges
    decreases j
  {
    if j > 0 {
      var k := j - 1;
      RunInvariant(ops, edges, b, if i < j then i else 0, k);
      assert Next(b[k], b[k + 1]);
      NextKeepsInv(b[k], b[j]);
    }
  }

  /** Ordering over whole runs: an operation is started only after everything it was linked behind has
      succeeded, and it is not started again once it has been. */
  lemma {:induction false} RunOrdering(
    ops: map<OpUri, ResourceUpdate>, edges: set<(OpUri, OpUri)>, b: seq<Exec>, i: nat, a: OpUri, d: OpUri)
    requires Fresh(ops, edges).WellFormed() && IsRun(ops, edges, b) && i < |b|
    requires (a, d) in edges && d in b[i].sched.started
    ensures a in b[i].sched.started && a in b[i].sched.succeeded
    ensures forall j | i <= j < |b| :: a in b[j].sched.succeeded && a !in b[j].sched.Running()
  {
    RunInvariant(ops, edges, b, 0, i);
    forall j | i <= j < |b| ensures a in b[j].sched.succeeded {
      RunInvariant(ops, edges, b, i, j);
    }
  }

  /** Never wedged: while the executor is processing, an operation is in progress or a timer is pending; and it
      reports success only when no operation is left. */
  lemma {:induction false} RunNeverWedged(
    ops: map<OpUri, ResourceUpdate>, edges: set<(OpUri, OpUri)>, b: seq<Exec>, i: nat)
    requires Fresh(ops, edges).WellFormed() && IsRun(ops, edges, b) && i < |b|
    ensures b[i].phase == Processing ==> b[i].sched.Running() != {} || b[i].timer
    ensures b[i].phase == FinishedSuccessfully ==> b[i].sched.succeeded + b[i].sched.failed == ops.Keys
  {
    RunInvariant(ops, edges, b, 0, i);
  }

  /** Conservation over whole runs: live, succeeded and failed partition the initial operations, and what waits
      for a failed operation has failed without ever being started. */
  lemma {:induction false} RunConservation(
    ops: map<OpUri, ResourceUpdate>, edges: set<(OpUri, OpUri)>, b: seq<Exec>, i: nat)
    requires Fresh(ops, edges).WellFormed() && IsRun(ops, edges, b) && i < |b|
    ensures b[i].sched.Live() !! b[i].sched.succeeded !! b[i].sched.failed
    ensures b[i].sched.Live() + b[i].sched.succeeded + b[i].sched.failed == ops.Keys
    ensures forall a, d | a in b[i].sched.failed && (a, d) in edges ::
              d in b[i].sched.failed && d !in b[i].sched.started
  {
    RunInvariant(ops, edges, b, 0, i);
  }

  /** How many steps of a run shrank the live set, as every finish report with a final state that finds its
      operation does, and how many started something. */
  ghost function ShrinkingSteps(b: seq<Exec>): nat {
    if |b| < 2 then 0
    else
      ShrinkingSteps(b[..|b| - 1]) +
      (if |b[|b| - 1].sched.Live()| < |b[|b| - 2].sched.Live()| then 1 else 0)
  }

  ghost function StartingSteps(b: seq<Exec>): nat {
    if |b| < 2 then 0
    else StartingSteps(b[..|b| - 1]) + (if b[|b| - 1].sched.started != b[|b| - 2].sched.started then 1 else 0)
  }

  /** Termination: of either kind there are at most as many steps as there were operations to begin with. */
  lemma {:induction false} RunTermination(
    ops: map<OpUri, ResourceUpdate>, edges: set<(OpUri, OpUri)>, b: seq<Exec>)
    requires Fresh(ops, edges).WellFormed() && IsRun(ops, edges, b)
    ensures ShrinkingSteps(b) + |b[|b| - 1].sched.Live()| <= |ops|
    ensures StartingSteps(b) <= |b[|b| - 1].sched.started| <= |ops|
    decreases |b|
  {
    hide Sched.Live, Sched.Inv, Sched.WellFormed, Grows, Next;
    var last := |b| - 1;
    if last == 0 {
      FreshSizes(ops, edges);
    } else {
      ShorterRun(ops, edges, b);
      RunTermination(ops, edges, b[..last]);
      RunInvariant(ops, edges, b, last - 1, last);
      RunInvariant(ops, edges, b, last - 1, last - 1);
      StepSizes(b[last - 1].sched, b[last].sched);
    }
  }

  lemma {:induction false} ShorterRun(ops: map<OpUri, ResourceUpdate>, edges: set<(OpUri, OpUri)>, b: seq<Exec>)
    requires IsRun(ops, edges, b) && |b| > 1
    ensures IsRun(ops, edges, b[..|b| - 1])
  {
    hide Next;
  }

  lemma {:induction false} FreshSizes(ops: map<OpUri, ResourceUpdate>, edges: set<(OpUri, OpUri)>)
    ensures |Fresh(ops, edges).Live()| == |ops| && Fresh(ops, edges).started == {}
  {
    assert Fresh(ops, edges).Live() == ops.Keys;
    assert |ops.Keys| == |ops|;
  }

  /** A step of neither kind leaves the scheduler as it was: it moves at most the phase or the timer. */
  lemma {:induction false} RunIdleSteps(
    ops: map<OpUri, ResourceUpdate>, edges: set<(OpUri, OpUri)>, b: seq<Exec>, i: nat)
    requires Fresh(ops, edges).WellFormed() && IsRun(ops, edges, b) && i + 1 < |b|
    requires |b[i + 1].sched.Live()| == |b[i].sched.Live()| && b[i + 1].sched.started == b[i].sched.started
    ensures b[i + 1].sched == b[i].sched
  {
    hide Sched.Live, Sched.Inv, Sched.WellFormed, Grows, Next;
    RunInvariant(ops, edges, b, i, i);
    RunInvariant(ops, edges, b, i, i + 1);
    StepSizes(b[i].sched, b[i + 1].sched);
  }

  lemma {:induction false} StepSizes(s: Sched, t: Sched)
    requires s.Inv() && t.Inv() && Grows(s, t)
    ensures |t.Live()| <= |s.Live()| && |s.started| <= |t.started| <= |t.ops|
    ensures t.started != s.started ==> |s.started| < |t.started|
    ensures |t.Live()| == |s.Live()| && t.started == s.started ==> t == s
  {
    SubsetSize(t.Live(), s.Live());
    SubsetSize(s.started, t.started);
    SubsetSize(t.started, t.ops.Keys);
    assert |t.ops.Keys| == |t.ops|;
    if n :| n in t.started && n !in s.started {
      SmallerSet(s.started, t.started, n);
    }
    if |t.Live()| == |s.Live()| {
      SameLive(s, t);
    }
  }

  lemma {:induction false} SameLive(s: Sched, t: Sched)
    requires s.Inv() && t.Inv() && Grows(s, t) && |t.Live()| == |s.Live()|
    ensures t.succeeded == s.succeeded && t.failed == s.failed
  {
    assert t.Live() <= s.Live();
    if n :| n in s.Live() && n !in t.Live() {
      SmallerSet(t.Live(), s.Live(), n);
    }
    forall n | n in t.ops ensures (n in t.succeeded <==> n in s.succeeded) && (n in t.failed <==> n in s.failed) {
      assert n in t.Live() <==> n in s.Live();
    }
  }
}
