/** Runs of the executor with the reports that move them, and what a report without a final state does to them
    (internal/metastructure/changeset/changeset_executor.go). */
module RunReports {
  import opened Digraph
  import opened Operations
  import opened Scheduler

  /** What moved the executor: its start, its timer, the report of a running operation, or a report that found none. */
  datatype Label = Starts | Timer | Reports(n: OpUri, state: UpdateState) | Stray(uri: FormaeUri)

  ghost predicate LabelledStep(s: Exec, t: Exec, l: Label) {
    match l
    case Starts => StartStep(s, t)
    case Timer => TimerStep(s, t)
    case Reports(n, state) =>
      s.phase == Processing && state in {Success, Failed, Rejected, InProgress} && n in s.sched.Running() &&
      FinishOf(s, t, n, state)
    case Stray(uri) => s.phase == Processing && (forall n | n in s.sched.Running() :: n.uri != uri) && t == s
  }

  ghost predicate IsLabelledRun(
    ops: map<OpUri, ResourceUpdate>, edges: set<(OpUri, OpUri)>, b: seq<Exec>, ls: seq<Label>)
  {
    && |b| == |ls| + 1 && b[0] == Exec(Idle, Fresh(ops, edges), false)
    && forall i | 0 <= i < |ls| :: LabelledStep(b[i], b[i + 1], ls[i])
  }

  /** Every step of the run relation has a label, and a labelled step is one. */
  lemma {:induction false} StepHasLabel(s: Exec, t: Exec)
    ensures Next(s, t) <==> exists l :: LabelledStep(s, t, l)
  {
    if StartStep(s, t) {
      assert LabelledStep(s, t, Starts);
    } else if TimerStep(s, t) {
      assert LabelledStep(s, t, Timer);
    } else if Next(s, t) {
      var uri: FormaeUri, state: UpdateState :| FinishStep(s, t, uri, state);
      FinishHasLabel(s, t, uri, state);
    }
    if l :| LabelledStep(s, t, l) {
      LabelIsStep(s, t, l);
    }
  }

  lemma {:induction false} FinishHasLabel(s: Exec, t: Exec, uri: FormaeUri, state: UpdateState)
    requires FinishStep(s, t, uri, state)
    ensures exists l :: LabelledStep(s, t, l)
  {
    if forall n | n in s.sched.Running() :: n.uri != uri {
      assert LabelledStep(s, t, Stray(uri));
    } else {
      var n :| n in s.sched.Running() && n.uri == uri && FinishOf(s, t, n, state);
      assert LabelledStep(s, t, Reports(n, state));
    }
  }

  lemma {:induction false} LabelIsStep(s: Exec, t: Exec, l: Label)
    requires LabelledStep(s, t, l)
    ensures Next(s, t)
  {
    match l
    case Starts =>
    case Timer =>
    case Reports(n, state) => assert FinishStep(s, t, n.uri, state);
    case Stray(uri) => assert FinishStep(s, t, uri, Success);
  }

  lemma {:induction false} LabelledRunIsRun(
    ops: map<OpUri, ResourceUpdate>, edges: set<(OpUri, OpUri)>, b: seq<Exec>, ls: seq<Label>)
    requires IsLabelledRun(ops, edges, b, ls)
    ensures IsRun(ops, edges, b)
  {
    forall i | 0 <= i < |b| - 1 ensures Next(b[i], b[i + 1]) {
      LabelIsStep(b[i], b[i + 1], ls[i]);
    }
  }

  // ----- What becomes of each operation -----

  /** A report that finds its operation decides it and what waits for it, and nothing else. */
  lemma {:induction false} ReportDecides(s: Exec, t: Exec, l: Label)
    requires ExecInv(s) && LabelledStep(s, t, l)
    ensures t.sched.succeeded == s.sched.succeeded + if l.Reports? && l.state == Success then {l.n} else {}
    ensures l.Reports? && (l.state == Failed || l.state == Rejected) ==>
              forall d :: d in t.sched.failed <==> d in s.sched.failed || Reaches(s.sched.edges, l.n, d)
    ensures !(l.Reports? && (l.state == Failed || l.state == Rejected)) ==> t.sched.failed == s.sched.failed
  {
    match l
    case Starts =>
    case Timer =>
    case Stray(_) =>
    case Reports(n, state) =>
      var u := s.sched.Finish(n, state);
      assert t.sched.succeeded == u.succeeded && t.sched.failed == u.failed;
      if state == Failed || state == Rejected {
        forall d ensures d in u.failed <==> d in s.sched.failed || Reaches(s.sched.edges, n, d) {
          FailedExactly(s.sched, n, d);
        }
      }
  }

  lemma {:induction false} FailedExactly(s: Sched, n: OpUri, d: OpUri)
    requires s.Inv() && n in s.Running()
    ensures d in s.Fail(n).failed <==> d in s.failed || Reaches(s.edges, n, d)
  {
    ReachesSelf(s.edges, n);
    if Reaches(s.edges, n, d) && d != n {
      var w :| WalkFromTo(s.edges, n, d, w);
      DependentsNotStarted(s, n, w);
      assert (w[|w| - 2], w[|w| - 1]) in s.edges;
    }
  }

  /** What every run makes of the reports: the operations that have succeeded are those that reported success, and
      those that have failed are the ones that reported failure or rejection with everything that waits for them,
      directly or through others. */
  lemma {:induction false} ReportsDecide(
    ops: map<OpUri, ResourceUpdate>, edges: set<(OpUri, OpUri)>, b: seq<Exec>, ls: seq<Label>, i: nat)
    requires Fresh(ops, edges).WellFormed() && IsLabelledRun(ops, edges, b, ls) && i < |b|
    ensures forall n :: n in b[i].sched.succeeded <==>
              exists k | 0 <= k < i :: ls[k].Reports? && ls[k].state == Success && ls[k].n == n
    ensures forall d :: d in b[i].sched.failed <==>
              exists k | 0 <= k < i ::
                ls[k].Reports? && (ls[k].state == Failed || ls[k].state == Rejected) && Reaches(edges, ls[k].n, d)
  {
    if i > 0 {
      hide LabelledStep, ExecInv, Reaches;
      var j := i - 1;
      ReportsDecide(ops, edges, b, ls, j);
      LabelledRunIsRun(ops, edges, b, ls);
      RunInvariant(ops, edges, b, 0, j);
      ReportDecides(b[j], b[i], ls[j]);
    }
  }

  // ----- Operations whose updater ended without a final state -----

  /** The operations reported as still in progress. No more is heard of them: their updaters have ended. */
  ghost function Abandoned(ls: seq<Label>): set<OpUri> {
    set i | 0 <= i < |ls| && ls[i].Reports? && ls[i].state == InProgress :: ls[i].n
  }

  /** Each operation is reported once, when its updater ends. */
  ghost predicate ReportsOnce(ls: seq<Label>) {
    forall i, j | 0 <= i < j < |ls| && ls[i].Reports? && ls[j].Reports? :: ls[i].n != ls[j].n
  }

  /** The operations in this set are never reported: their updaters have crashed or wait for nothing. */
  ghost predicate Quiet(ls: seq<Label>, mute: set<OpUri>) {
    forall i | 0 <= i < |ls| && ls[i].Reports? :: ls[i].n !in mute
  }

  /** The operations the executor can still hear of. */
  ghost function Awaited(s: Exec, ls: seq<Label>, mute: set<OpUri>): set<OpUri> {
    s.sched.Running() - Abandoned(ls) - mute
  }

  lemma {:induction false} AbandonedSnoc(ls: seq<Label>, l: Label)
    ensures Abandoned(ls + [l]) == Abandoned(ls) + if l.Reports? && l.state == InProgress then {l.n} else {}
  {
    var all := ls + [l];
    forall n ensures n in Abandoned(all) <==> n in Abandoned(ls) + if l.Reports? &&
        l.state == InProgress then {l.n} else {} {
      if n in Abandoned(ls) {
        var i :| 0 <= i < |ls| && ls[i].Reports? && ls[i].state == InProgress && ls[i].n == n;
        assert all[i] == ls[i];
      }
      if l.Reports? && l.state == InProgress && l.n == n {
        assert all[|ls|] == l;
      }
    }
  }

  /** A step that is not the operation's own report leaves a running operation running. */
  lemma {:induction false} StaysRunning(s: Exec, t: Exec, l: Label, n: OpUri)
    requires ExecInv(s) && LabelledStep(s, t, l) && n in s.sched.Running()
    requires l.Reports? ==> l.n != n || l.state == InProgress
    ensures n in t.sched.Running()
  {
    match l
    case Starts =>
    case Timer =>
    case Stray(_) =>
    case Reports(m, state) =>
      DependentsUntouched(s.sched, m);
      assert n in s.sched.Finish(m, state).Running();
  }

  /** In a run where operations are reported once, those reported as in progress stay so: they are never finished. */
  lemma {:induction false} AbandonedStayRunning(
    ops: map<OpUri, ResourceUpdate>, edges: set<(OpUri, OpUri)>, b: seq<Exec>, ls: seq<Label>, i: nat)
    requires Fresh(ops, edges).WellFormed() && IsLabelledRun(ops, edges, b, ls) && ReportsOnce(ls) && i < |b|
    ensures Abandoned(ls[..i]) <= b[i].sched.Running()
  {
    if i > 0 {
      var k := i - 1;
      AbandonedStayRunning(ops, edges, b, ls, k);
      LabelledRunIsRun(ops, edges, b, ls);
      RunInvariant(ops, edges, b, 0, k);
      assert ls[..i] == ls[..k] + [ls[k]];
      AbandonedSnoc(ls[..k], ls[k]);
      forall n | n in Abandoned(ls[..i]) ensures n in b[i].sched.Running() {
        if n in Abandoned(ls[..k]) {
          var j :| 0 <= j < k && ls[..k][j].Reports? && ls[..k][j].n == n;
          assert ls[j].n == n;
        }
        StaysRunning(b[k], b[i], ls[k], n);
      }
    }
  }

  /** What a step starts is running after it. */
  lemma {:induction false} StartedNow(s: Exec, t: Exec, l: Label, n: OpUri)
    requires ExecInv(s) && LabelledStep(s, t, l) && n in t.sched.started && n !in s.sched.started
    ensures n in t.sched.Running()
  {
    match l
    case Starts =>
    case Timer =>
    case Stray(_) =>
    case Reports(m, state) =>
      assert s.sched.Finish(m, state).started == s.sched.started;
  }

  /** Operations that are never reported stay in progress once they are started. */
  lemma {:induction false} MuteStayRunning(
    ops: map<OpUri, ResourceUpdate>, edges: set<(OpUri, OpUri)>, b: seq<Exec>, ls: seq<Label>, mute: set<OpUri>, i: nat)
    requires Fresh(ops, edges).WellFormed() && IsLabelledRun(ops, edges, b, ls) && Quiet(ls, mute) && i < |b|
    ensures mute * b[i].sched.started <= b[i].sched.Running()
  {
    if i > 0 {
      var k := i - 1;
      MuteStayRunning(ops, edges, b, ls, mute, k);
      LabelledRunIsRun(ops, edges, b, ls);
      RunInvariant(ops, edges, b, 0, k);
      forall n | n in mute && n in b[i].sched.started ensures n in b[i].sched.Running() {
        if n in b[k].sched.started {
          StaysRunning(b[k], b[i], ls[k], n);
        } else {
          StartedNow(b[k], b[i], ls[k], n);
        }
      }
    }
  }

  /** What a processing executor waits for. Unless an operation was reported as still in progress, or one was
      started that is never reported, it waits for an operation that can be reported or for its timer. Otherwise it
      may wait for nothing, and then all that runs is of these two kinds; and it never ends successfully. */
  lemma {:induction false} WaitsForReports(
    ops: map<OpUri, ResourceUpdate>, edges: set<(OpUri, OpUri)>, b: seq<Exec>, ls: seq<Label>, mute: set<OpUri>, i: nat)
    requires Fresh(ops, edges).WellFormed() && IsLabelledRun(ops, edges, b, ls) && i < |b|
    requires ReportsOnce(ls) && Quiet(ls, mute)
    ensures b[i].phase == Processing && Abandoned(ls[..i]) == {} && mute !! b[i].sched.started ==>
              Awaited(b[i], ls[..i], mute) != {} || b[i].timer
    ensures b[i].phase == Processing && !b[i].timer && Awaited(b[i], ls[..i], mute) == {} ==>
              b[i].sched.Running() == Abandoned(ls[..i]) + mute * b[i].sched.started != {}
    ensures b[i].phase == FinishedSuccessfully ==> Abandoned(ls[..i]) == {} && mute !! b[i].sched.started
  {
    LabelledRunIsRun(ops, edges, b, ls);
    RunNeverWedged(ops, edges, b, i);
    RunInvariant(ops, edges, b, 0, i);
    AbandonedStayRunning(ops, edges, b, ls, i);
    MuteStayRunning(ops, edges, b, ls, mute, i);
    assert b[i].sched.Running() <= b[i].sched.started && b[i].sched.Running() <= b[i].sched.Live();
  }

  lemma {:induction false} NotAbandonedYet(ls: seq<Label>, i: nat, k: nat)
    requires ReportsOnce(ls) && i <= k < |ls| && ls[k].Reports?
    ensures ls[k].n !in Abandoned(ls[..i])
  {
    forall m | 0 <= m < i && ls[..i][m].Reports? ensures ls[..i][m].n != ls[k].n {
      assert ls[m] == ls[..i][m];
    }
  }

  /** An executor that waits for nothing is stuck for good. */
  lemma {:induction false} StuckForGood(
    ops: map<OpUri, ResourceUpdate>, edges: set<(OpUri, OpUri)>, b: seq<Exec>, ls: seq<Label>, mute: set<OpUri>,
    i: nat, j: nat)
    requires Fresh(ops, edges).WellFormed() && IsLabelledRun(ops, edges, b, ls) && i <= j < |b|
    requires ReportsOnce(ls) && Quiet(ls, mute)
    requires b[i].phase == Processing && !b[i].timer && Awaited(b[i], ls[..i], mute) == {}
    ensures b[j] == b[i]
    decreases j - i
  {
    if i < j {
      var k := j - 1;
      StuckForGood(ops, edges, b, ls, mute, i, k);
      assert LabelledStep(b[k], b[j], ls[k]);
      if ls[k].Reports? {
        assert ls[k].n in b[i].sched.Running() && ls[k].n !in Awaited(b[i], ls[..i], mute);
        NotAbandonedYet(ls, i, k);
      }
    }
  }

  /** A run that gets stuck: one operation, started and reported as still in progress. If it is never reported, the run
      is stuck a step before. */
  lemma {:induction false} StuckRun(u: ResourceUpdate) returns (b: seq<Exec>, ls: seq<Label>)
    ensures var n := u.Node();
            && IsLabelledRun(map[n := u], {}, b, ls) && ReportsOnce(ls) && Fresh(map[n := u], {}).WellFormed()
            && ls == [Starts, Reports(n, InProgress)]
            && b[2].phase == Processing && !b[2].timer && Awaited(b[2], ls, {}) == {}
            && b[1].phase == Processing && !b[1].timer && Quiet(ls[..1], {n}) && Awaited(b[1], ls[..1], {n}) == {}
  {
    var n := u.Node();
    var begin := Fresh(map[n := u], {});
    var idle := Exec(Idle, begin, false);
    var running := Exec(Processing, begin.Start({n}), false);
    b, ls := [idle, running, running], [Starts, Reports(n, InProgress)];
    NoEdgesNoCycle<OpUri>();
    assert begin.Live() == {n};
    assert Preds<OpUri>({}, n) == {};
    assert begin.AllReady() == {n};
    assert ResumeTo(idle, running, {n});
    assert running.sched.Running() == {n} && running.sched.Live() == {n} && running.sched.AllReady() == {};
    assert running.sched.Start({}) == running.sched;
    assert ResumeTo(running, running, {});
    assert FinishOf(running, running, n, InProgress);
    assert LabelledStep(running, running, Reports(n, InProgress));
    assert ls[1].n in Abandoned(ls);
  }

  lemma {:induction false} NoEdgesNoCycle<T(!new)>()
    ensures !Cyclic<T>({})
  {
    var none: set<(T, T)> := {};
    forall w: seq<T> ensures !IsClosedWalk(none, w) {
      if |w| >= 2 {
        assert (w[0], w[0 + 1]) !in none;
      }
    }
  }
}
