/** The state machine that drives one resource update through its plugin operations
    (internal/metastructure/resource_update/resource_updater.go and resource_update.go). What the plugin, the
    persisters and the resolve cache answer is the environment's choice. */
module ResourceUpdating {
  import opened Common
  import opened Progress
  import Ops = Operations

  type Operation = Ops.OperationType
  type State = Ops.UpdateState

  /** The plugin operations an update consists of, in order. */
  function Required(op: Operation): seq<PluginOp> {
    match op
    case Read => [ReadOp]
    case Create => [CreateOp]
    case Delete => [ReadOp, DeleteOp]
    case Update => [ReadOp, UpdateOp]
    case Replace => [ReadOp, DeleteOp, CreateOp]
  }

  // ----- Recording progress -----

  /** The list with the entry for this operation replaced, or the new entry at the end. */
  function Recorded(progress: seq<ProgressResult>, p: ProgressResult): seq<ProgressResult> {
    if exists i | 0 <= i < |progress| :: progress[i].operation == p.operation
    then seq(|progress|, i requires 0 <= i < |progress| =>
               if progress[i].operation == p.operation then p else progress[i])
    else progress + [p]
  }

  /** The state that the recorded progress amounts to. */
  function StateOf(op: Operation, progress: seq<ProgressResult>): State {
    if progress == [] then Ops.NotStarted
    else if |progress| < |Required(op)| then Ops.InProgress
    else if exists i | 0 <= i < |progress| :: progress[i].Failed() then Ops.Failed
    else if exists i | 0 <= i < |progress| :: progress[i].status != Succeeded then Ops.InProgress
    else Ops.Success
  }

  ghost predicate HasSuccess(progress: seq<ProgressResult>, r: PluginOp) {
    exists i | 0 <= i < |progress| :: progress[i].operation == r && progress[i].status == Succeeded
  }

  /** The entries name operations of the update, in the order they are due. */
  ghost predicate InOrder(op: Operation, progress: seq<ProgressResult>) {
    |progress| <= |Required(op)| && forall i | 0 <= i < |progress| :: progress[i].operation == Required(op)[i]
  }

  /** What a run records: entries in order, of which only the last may lack success, followed by at most one failure
      that names no operation, for the operation that was due or under way. */
  ghost predicate Recordable(op: Operation, progress: seq<ProgressResult>) {
    InOrder(op, progress) ||
    (progress != [] && InOrder(op, progress[..|progress| - 1]) && progress[|progress| - 1].operation == Unnamed &&
     progress[|progress| - 1].Failed() &&
     (|progress| - 1 < |Required(op)| || progress[|progress| - 2].status != Succeeded))
  }

  lemma {:induction false} RequiredDistinct(op: Operation)
    ensures Required(op) != [] && Unnamed !in Required(op)
    ensures forall i, j | 0 <= i < |Required(op)| && 0 <= j < |Required(op)| && Required(op)[i] ==
              Required(op)[j] :: i == j
  {
  }

  /** For what a run records, the state is Success exactly when every required operation has a recorded success. */
  lemma {:induction false} SuccessMeansAllSucceeded(op: Operation, progress: seq<ProgressResult>)
    requires Recordable(op, progress)
    ensures StateOf(op, progress) == Ops.Success <==> forall r | r in Required(op) :: HasSuccess(progress, r)
  {
    var ops := Required(op);
    RequiredDistinct(op);
    if StateOf(op, progress) == Ops.Success {
      assert InOrder(op, progress);
      forall r | r in ops ensures HasSuccess(progress, r) {
        var i :| 0 <= i < |ops| && ops[i] == r;
        assert progress[i].operation == r && progress[i].status == Succeeded;
      }
    }
    if forall r | r in ops :: HasSuccess(progress, r) {
      forall i | 0 <= i < |ops| ensures i < |progress| && progress[i].operation == ops[i] &&
          progress[i].status == Succeeded {
        assert ops[i] in ops;
        var j :| 0 <= j < |progress| && progress[j].operation == ops[i] && progress[j].status == Succeeded;
        assert ops[j] == ops[i];
      }
      var last := ops[|ops| - 1];
      assert progress[|ops| - 1].operation == last;
      assert |progress| == |ops|;
    }
  }

  // ----- The state machine -----

  datatype Phase =
    | Initializing | Synchronizing | Deleting | Resolving | Creating | Updating
    | FinishedSuccessfully | FinishedWithError | Rejected
    | Crashed  // a handler returned an error, or no handler took the message: nothing more is sent

  /** What can reach the updater while it runs. */
  datatype Message =
    | Report(result: ProgressResult)
    | OperatorMissing
    | ValueResolved
    | FailedToResolve
    | CacheMissing

  /** The result of an operation: it names the operation, or is a failure that names none. */
  predicate Answers(p: ProgressResult, current: PluginOp) {
    p.operation == current || (p.operation == Unnamed && p.Failed())
  }

  /** What a plugin operator answers at once when it is asked for an operation. */
  type Plugin = f: PluginOp -> ProgressResult | forall r: PluginOp :: Answers(f(r), r)
    witness (r: PluginOp) => ProgressResult(r, Pending, NotSet, 0, 0, "")

  /** The first k required operations are recorded as successes, and nothing else is recorded. */
  ghost predicate Done(op: Operation, k: nat, progress: seq<ProgressResult>) {
    |progress| == k <= |Required(op)| &&
    forall i | 0 <= i < k :: progress[i].operation == Required(op)[i] && progress[i].status == Succeeded
  }

  /** The first k required operations succeeded, and the next one has not finished as far as is known. */
  ghost predicate Waiting(op: Operation, k: nat, progress: seq<ProgressResult>) {
    k < |Required(op)| &&
    (Done(op, k, progress) ||
     (|progress| == k + 1 && Done(op, k, progress[..k]) && progress[k].operation == Required(op)[k] &&
      !progress[k].HasFinished()))
  }

  lemma {:induction false} RecordSuccess(op: Operation, k: nat, before: seq<ProgressResult>, p: ProgressResult)
    requires Waiting(op, k, before) && p.operation == Required(op)[k] && p.status == Succeeded
    ensures Done(op, k + 1, Recorded(before, p))
    ensures StateOf(op, Recorded(before, p)) == if k + 1 == |Required(op)| then Ops.Success else Ops.InProgress
  {
    RequiredDistinct(op);
    RecordInOrder(op, k, before, p);
  }

  lemma {:induction false} RecordInOrder(op: Operation, k: nat, before: seq<ProgressResult>, p: ProgressResult)
    requires Waiting(op, k, before) && p.operation == Required(op)[k]
    ensures |Recorded(before, p)| == k + 1 && Recorded(before, p)[k] == p
    ensures Done(op, k, Recorded(before, p)[..k])
    ensures InOrder(op, Recorded(before, p))
  {
    RequiredDistinct(op);
    var r := Recorded(before, p);
    if |before| == k + 1 {
      assert before[k].operation == p.operation;
      assert forall i | 0 <= i < k :: before[i] == before[..k][i];
    }
    assert forall i | 0 <= i < k :: r[i] == before[i];
  }

  /** With a failure recorded, the state depends on how much is recorded. */
  lemma {:induction false} FailedState(op: Operation, progress: seq<ProgressResult>, i: nat)
    requires i < |progress| && progress[i].Failed()
    ensures StateOf(op, progress) == if |progress| < |Required(op)| then Ops.InProgress else Ops.Failed
  {
    hide Required, ProgressResult.Failed;
  }

  lemma {:induction false} UnnamedRecordable(op: Operation, k: nat, before: seq<ProgressResult>, p: ProgressResult)
    requires Waiting(op, k, before) && InOrder(op, before) && p.operation == Unnamed && p.Failed()
    ensures Recordable(op, before + [p])
  {
    UnfinishedLast(op, k, before);
    hide Required, InOrder, Waiting, IsRecoverable;
    var r := before + [p];
    assert r[..|r| - 1] == before && r[|r| - 1] == p;
    assert |before| == |Required(op)| ==> r[|r| - 2] == before[|before| - 1];
  }

  lemma {:induction false} UnfinishedLast(op: Operation, k: nat, before: seq<ProgressResult>)
    requires Waiting(op, k, before)
    ensures |before| <= |Required(op)|
    ensures |before| == |Required(op)| ==> before != [] && before[|before| - 1].status != Succeeded
  {
    hide Required, Done, IsRecoverable;
    assert Done(op, k, before) ==> |before| == k by { DoneSize(op, k, before); }
  }

  lemma {:induction false} DoneSize(op: Operation, k: nat, progress: seq<ProgressResult>)
    ensures Done(op, k, progress) ==> |progress| == k
  {
  }

  lemma {:induction false} UnnamedIsNew(op: Operation, k: nat, before: seq<ProgressResult>, p: ProgressResult)
    requires Waiting(op, k, before) && p.operation == Unnamed
    ensures InOrder(op, before) && Recorded(before, p) == before + [p]
  {
    RequiredDistinct(op);
    if |before| == k + 1 {
      assert forall i | 0 <= i < k :: before[i] == before[..k][i];
    }
    assert forall i | 0 <= i < |before| :: before[i].operation == Required(op)[i];
  }

  lemma {:induction false} AnyAnswerIsRecordable(op: Operation, k: nat, before: seq<ProgressResult>, p: ProgressResult)
    requires Waiting(op, k, before) && Answers(p, Required(op)[k])
    ensures Recordable(op, Recorded(before, p))
    ensures p.operation == Required(op)[k] && !p.HasFinished() ==> Waiting(op, k, Recorded(before, p))
  {
    if p.operation == Required(op)[k] {
      RecordInOrder(op, k, before, p);
    } else {
      UnnamedIsNew(op, k, before, p);
      UnnamedRecordable(op, k, before, p);
    }
  }

  lemma {:induction false} RecordedFirst(p: ProgressResult)
    ensures Recorded([], p) == [p]
  {
  }

  lemma {:induction false} SyncIsOneRead(op: Operation)
    ensures op == Ops.Read ==> |Required(op)| == 1 && Required(op)[..1] == Required(op)
  {
  }

  lemma {:induction false} OrderedIsRecordable(op: Operation, progress: seq<ProgressResult>)
    requires InOrder(op, progress)
    ensures Recordable(op, progress)
  {
  }

  lemma {:induction false} BeforeLast(op: Operation, progress: seq<ProgressResult>)
    requires Done(op, |Required(op)| - 1, progress)
    ensures Recordable(op, progress) && Required(op) != []
    ensures CreateOp !in Required(op)[..|Required(op)| - 1] && UpdateOp !in Required(op)[..|Required(op)| - 1]
  {
    RequiredDistinct(op);
    OnlyLastMutates(op, |Required(op)| - 1);
  }

  lemma {:induction false} WaitingIsRecordable(op: Operation, k: nat, progress: seq<ProgressResult>)
    requires Waiting(op, k, progress)
    ensures Recordable(op, progress)
  {
    if |progress| == k + 1 {
      assert forall i | 0 <= i < k :: progress[i] == progress[..k][i];
    }
  }

  lemma {:induction false} AllDone(op: Operation, progress: seq<ProgressResult>)
    requires Done(op, |Required(op)|, progress)
    ensures StateOf(op, progress) == Ops.Success
  {
    RequiredDistinct(op);
  }

  /** Which required operation a phase is about. */
  function Position(op: Operation, phase: Phase): nat {
    match phase
    case Initializing => 0
    case Synchronizing => 0
    case Deleting => 1
    case _ => |Required(op)| - 1
  }

  /** Whether an update of this kind passes through the phase. */
  predicate Possible(op: Operation, phase: Phase) {
    match phase
    case Synchronizing => op != Ops.Create
    case Deleting => op == Ops.Delete || op == Ops.Replace
    case Resolving => op == Ops.Create || op == Ops.Update || op == Ops.Replace
    case Creating => op == Ops.Create || op == Ops.Replace
    case Updating => op == Ops.Update
    case _ => true
  }

  predicate Working(phase: Phase) {
    phase == Synchronizing || phase == Deleting || phase == Creating || phase == Updating
  }

  function CurrentOperation(phase: Phase): PluginOp
    requires Working(phase)
  {
    match phase
    case Synchronizing => ReadOp
    case Deleting => DeleteOp
    case Creating => CreateOp
    case Updating => UpdateOp
  }

  /** A working phase runs the required operation at its position. */
  lemma {:induction false} PhaseRunsRequired(op: Operation, phase: Phase)
    requires Working(phase) && Possible(op, phase)
    ensures Position(op, phase) < |Required(op)| && Required(op)[Position(op, phase)] == CurrentOperation(phase)
    ensures phase == Synchronizing ==> Required(op)[0] == ReadOp && op != Ops.Create
    ensures phase == Deleting ==> Required(op)[1] == DeleteOp && (op == Ops.Delete || op == Ops.Replace)
    ensures phase == Creating ==>
              Required(op)[|Required(op)| - 1] == CreateOp && (op == Ops.Create || op == Ops.Replace)
    ensures phase == Updating ==> Required(op) == [ReadOp, UpdateOp] && op == Ops.Update
  {
  }

  /** The required operations that come before the last one only read or delete. */
  lemma {:induction false} OnlyLastMutates(op: Operation, k: nat)
    requires k < |Required(op)|
    ensures CreateOp !in Required(op)[..k] && UpdateOp !in Required(op)[..k]
  {
  }

  function Rank(phase: Phase): nat {
    match phase
    case Initializing => 5
    case Synchronizing => 4
    case Deleting => 3
    case Resolving => 2
    case Creating => 1
    case Updating => 1
    case _ => 0
  }

  class ResourceUpdater {
    const op: Operation
    const discovery: bool
    const plugin: Plugin
    /** Whether everything but the plugin works: no errors and no drift. */
    const smooth: bool
    var phase: Phase
    var resolvables: seq<Ops.FormaeUri>
    var progress: seq<ProgressResult>
    var state: State

    /** The plugin operations asked for so far. */
    var calls: seq<PluginOp>
    /** The values the update needs, those asked for so far, and how many were delivered. */
    const wanted: seq<Ops.FormaeUri>
    var requested: seq<Ops.FormaeUri>
    var delivered: nat
    /** Whether persisting the initial read found a change. */
    var changed: bool
    /** Whether the state was set to Failed by hand instead of computed. */
    var marked: bool
    /** Whether a timeout is pending in this phase. */
    var timeout: bool
    /** Whether the resolve cache could not be reached, and whether a message came that no handler takes. */
    var sendFailed: bool
    var strayed: bool

    ghost predicate Valid()
      reads this
    {
      (discovery ==> op == Ops.Read) &&
      Possible(op, phase) &&
      calls <= Required(op) &&
      Recordable(op, progress) &&
      (phase == Rejected <==> Drifted()) &&
      (phase == Crashed <==> sendFailed || strayed) &&
      (marked ==> phase == FinishedWithError) && (smooth ==> !sendFailed) &&
      (CreateOp in calls || UpdateOp in calls ==> AllResolved()) &&
      match phase
      case Initializing => calls == [] && progress == [] && state == Ops.NotStarted && Balanced()
      case Resolving => Ready() && requested + resolvables == wanted && |requested| == delivered + 1 && timeout
      case FinishedSuccessfully => calls == Required(op) && Done(op, |Required(op)|, progress) && state == Ops.Success
      case Rejected => op == Ops.Update && calls == [ReadOp] && state == Ops.Rejected && Done(op, 1, progress)
      case FinishedWithError =>
        (!marked ==> progress != [] && progress[|progress| - 1].Failed()) &&
        state == if !marked && |progress| < |Required(op)| then Ops.InProgress else Ops.Failed
      case Crashed => true
      case _ => Running() && Balanced() && AtRest()
    }

    /** Between messages, a timeout is pending for an operation that has reported something; only a delete that
        could not be started has none. */
    ghost predicate AtRest()
      reads this
    {
      (timeout <==> |progress| == Position(op, phase) + 1) && (phase != Deleting || smooth ==> timeout)
    }

    /** Nothing has gone wrong so far. */
    ghost predicate Sound()
      reads this
    {
      !Drifted() && !marked && !sendFailed && !strayed
    }

    /** The resource to update is no longer what the update was planned for. */
    ghost predicate Drifted()
      reads this
    {
      changed && op == Ops.Update
    }

    /** Every value asked for was delivered, and the others are still due. */
    ghost predicate Balanced()
      reads this
    {
      requested + resolvables == wanted && delivered == |requested|
    }

    ghost predicate AllResolved()
      reads this
    {
      requested == wanted && delivered == |wanted|
    }

    /** Everything before this phase's operation succeeded and the operation is not asked for yet. */
    ghost predicate Ready()
      reads this
    {
      Sound() && calls == Required(op)[..Position(op, phase)] && Done(op, Position(op, phase), progress)
    }

    /** This phase's operation was asked for. */
    ghost predicate Running()
      reads this
    {
      Sound() && Position(op, phase) < |Required(op)| &&
      calls == Required(op)[..Position(op, phase) + 1] && Waiting(op, Position(op, phase), progress)
    }

    /** This phase's operation, if it has one, succeeded. */
    ghost predicate CanAdvance()
      reads this
    {
      (discovery ==> op == Ops.Read) && Possible(op, phase) && Balanced() && Sound() &&
      (CreateOp in calls || UpdateOp in calls ==> AllResolved()) &&
      match phase
      case Initializing => calls == [] && progress == []
      case Resolving => Ready() && resolvables == []
      case FinishedSuccessfully => false
      case Rejected => false
      case FinishedWithError => false
      case Crashed => false
      case _ =>
        Position(op, phase) < |Required(op)| &&
        calls == Required(op)[..Position(op, phase) + 1] && Done(op, Position(op, phase) + 1, progress) &&
        state == StateOf(op, progress)
    }

    constructor (op: Operation, discovery: bool, plugin: Plugin, smooth: bool, resolvables: seq<Ops.FormaeUri>)
      requires discovery ==> op == Ops.Read
      ensures Valid() && phase == Initializing
      ensures this.op == op && this.discovery == discovery && this.plugin == plugin && this.smooth == smooth
      ensures delivered == 0 && wanted == this.resolvables == resolvables
    {
      wanted, requested, delivered, changed := resolvables, [], 0, false;
      this.op, this.discovery, this.plugin, this.smooth := op, discovery, plugin, smooth;
      this.resolvables := resolvables;
      phase, progress, state, calls, marked := Initializing, [], Ops.NotStarted, [], false;
      timeout, sendFailed, strayed := false, false, false;
    }

    /** Whether the plugin too does everything at once. */
    ghost predicate Fortunate()
    {
      smooth && forall r | r in Required(op) :: plugin(r).status == Succeeded
    }

    /** The update stopped at a failed read, which is all that is recorded. */
    ghost predicate StoppedAtRead()
      reads this
    {
      phase == FinishedWithError && !marked && calls == [ReadOp] && progress == [plugin(ReadOp)]
    }

    ghost predicate ReadFails()
    {
      smooth && op != Ops.Create && plugin(ReadOp).Failed()
    }

    /** The read is still under way when the plugin first answers. */
    ghost predicate ReadLingers()
    {
      smooth && op != Ops.Create && !plugin(ReadOp).HasFinished()
    }

    /** No handler takes what comes next. */
    ghost predicate StuckAtRead()
      reads this
    {
      (phase == Synchronizing || phase == Crashed) && calls == [ReadOp] && progress == [plugin(ReadOp)]
    }

    ghost predicate Proceeding()
      reads this
    {
      phase == Resolving || phase == FinishedSuccessfully
    }

    // ----- Recording -----

    /** The entries are overwritten in place while they are being ranged over. */
    method RecordProgress(p: ProgressResult) returns (error: bool)
      modifies this`progress, this`state
      ensures smooth ==> !error
      ensures progress == Recorded(old(progress), p)
      ensures state == StateOf(op, progress)
    {
      var found := false;
      for i := 0 to |progress|
        invariant |progress| == |old(progress)|
        invariant forall k | 0 <= k < |progress| ::
            progress[k] == if k < i && old(progress)[k].operation == p.operation then p else old(progress)[k]
        invariant found <==> exists k | 0 <= k < i :: old(progress)[k].operation == p.operation
      {
        if progress[i].operation == p.operation {
          progress := progress[i := p];
          found := true;
        }
      }
      if !found {
        progress := progress + [p];
      }
      assert progress == Recorded(old(progress), p);
      UpdateState();
      error := Trouble(smooth);
    }

    method UpdateState()
      modifies this`state
      ensures state == StateOf(op, progress)
    {
      if |progress| == 0 {
        state := Ops.NotStarted;
        return;
      }
      if |progress| < |Required(op)| {
        state := Ops.InProgress;
        return;
      }
      var finalState := Ops.Success;
      for i := 0 to |progress|
        invariant forall k | 0 <= k < i :: !progress[k].Failed()
        invariant finalState == if exists k | 0 <= k < i ::
                  progress[k].status != Succeeded then Ops.InProgress else Ops.Success
      {
        if progress[i].Failed() {
          state := Ops.Failed;
          return;
        } else if progress[i].status != Succeeded {
          finalState := Ops.InProgress;
        }
      }
      state := finalState;
    }

    method MarkAsFailed()
      requires Sound() && calls <= Required(op) && Recordable(op, progress) && (discovery ==> op == Ops.Read)
      requires CreateOp in calls || UpdateOp in calls ==> AllResolved()
      modifies this`phase, this`state, this`marked
      ensures Valid() && phase == FinishedWithError && state == Ops.Failed && marked
    {
      state, marked, phase := Ops.Failed, true, FinishedWithError;
    }

    method MarkAsSuccess()
      modifies this`state
      ensures state == Ops.Success
    {
      state := Ops.Success;
    }

    method Finish()
      requires calls == Required(op) && Done(op, |Required(op)|, progress) && state == Ops.Success
      requires Sound() && (discovery ==> op == Ops.Read) && Balanced()
      requires CreateOp in calls || UpdateOp in calls ==> AllResolved()
      modifies this`phase
      ensures Valid() && phase == FinishedSuccessfully
    {
      phase := FinishedSuccessfully;
    }

    // ----- Steps -----

    method Start()
      requires Valid() && phase == Initializing
      modifies this
      ensures Valid() && phase != Initializing && delivered == old(delivered) && (Fortunate() ==> Proceeding())
      ensures old(calls) <= calls && Rank(phase) <= Rank(old(phase))
      ensures ReadFails() ==> StoppedAtRead()
      ensures ReadLingers() ==> phase == Synchronizing && StuckAtRead()
    {
      NextState();
    }

    /** Moves on from a phase whose work is done. */
    method NextState()
      requires CanAdvance()
      modifies this
      ensures Valid() && phase != Initializing && delivered == old(delivered) && (Fortunate() ==> Proceeding())
      ensures old(calls) <= calls && Rank(phase) < Rank(old(phase))
      ensures calls == old(calls) ==> phase == Resolving || phase == Crashed || phase == FinishedSuccessfully
      ensures ReadFails() && old(phase) == Initializing ==> StoppedAtRead()
      ensures ReadLingers() && old(phase) == Initializing ==> phase == Synchronizing && StuckAtRead()
      decreases Rank(phase), 0, 1
    {
      hide StateOf, Recorded, Recordable, Waiting, Done, Required, IsRecoverable, Possible;
      timeout := false;
      match phase {
        case Initializing => Begin();
        case Synchronizing => AfterSynchronizing();
        case Deleting => AfterDeleting();
        case Resolving => AfterResolving();
        case Creating => Complete();
        case Updating => Complete();
      }
    }

    method Begin()
      requires phase == Initializing && CanAdvance()
      modifies this
      ensures Valid() && phase != Initializing && delivered == old(delivered) && (Fortunate() ==> Proceeding())
      ensures old(calls) <= calls && Rank(phase) < Rank(old(phase))
      ensures calls == old(calls) ==> phase == Resolving || phase == Crashed || phase == FinishedSuccessfully
      ensures ReadFails() ==> StoppedAtRead()
      ensures ReadLingers() ==> phase == Synchronizing && StuckAtRead()
      decreases Rank(phase), 0, 0
    {
      hide StateOf, Recorded, Recordable, Waiting, IsRecoverable;
      if op == Ops.Create {
        phase := Resolving;
        Resolve();
      } else {
        phase := Synchronizing;
        Synchronize();
      }
    }

    method AfterDeleting()
      requires phase == Deleting && CanAdvance()
      modifies this
      ensures Valid() && phase != Initializing && delivered == old(delivered) && (Fortunate() ==> Proceeding())
      ensures old(calls) <= calls && Rank(phase) < Rank(old(phase))
      ensures calls == old(calls) ==> phase == Resolving || phase == Crashed || phase == FinishedSuccessfully
      decreases Rank(phase), 0, 0
    {
      hide StateOf, Recorded, Recordable, Waiting, IsRecoverable;
      if op == Ops.Delete {
        MarkAsSuccess();
        Finish();
      } else {
        phase := Resolving;
        Resolve();
      }
    }

    method AfterResolving()
      requires phase == Resolving && CanAdvance()
      modifies this
      ensures Valid() && phase != Initializing && delivered == old(delivered) && (Fortunate() ==> Proceeding())
      ensures old(calls) < calls && Rank(phase) < Rank(old(phase))
      decreases Rank(phase), 0, 0
    {
      hide StateOf, Recorded, Recordable, Waiting, IsRecoverable;
      if op == Ops.Update {
        phase := Updating;
        Update();
      } else {
        phase := Creating;
        Create();
      }
    }

    method Complete()
      requires (phase == Creating || phase == Updating) && CanAdvance()
      modifies this`state, this`phase
      ensures Valid() && phase == FinishedSuccessfully
    {
      hide StateOf, Recorded, Waiting, IsRecoverable;
      MarkAsSuccess();
      Finish();
    }

    /** A read is all that a sync does; a delete or replacement goes on to delete; an update resolves its values. */
    method AfterSynchronizing()
      requires phase == Synchronizing && CanAdvance()
      modifies this
      ensures Valid() && phase != Initializing && delivered == old(delivered) && (Fortunate() ==> Proceeding())
      ensures old(calls) <= calls && Rank(phase) < Rank(old(phase))
      ensures calls == old(calls) ==> phase == Resolving || phase == Crashed || phase == FinishedSuccessfully
      decreases Rank(phase), 0, 0
    {
      if op == Ops.Read {
        AllDone(op, progress);
        Finish();
      } else if op == Ops.Delete || op == Ops.Replace {
        phase, timeout := Deleting, false;
        Delete();
      } else {
        phase := Resolving;
        Resolve();
      }
    }

    /** Asks the plugin for the current phase's operation; the answer is an error or a first progress result. */
    method DoPluginOperation() returns (error: bool, p: ProgressResult)
      requires Working(phase) && Possible(op, phase) && Ready()
      modifies this`calls
      ensures Running() && calls == old(calls) + [CurrentOperation(phase)]
      ensures p == plugin(CurrentOperation(phase)) && CurrentOperation(phase) in Required(op) && (smooth ==> !error)
    {
      PhaseRunsRequired(op, phase);
      calls := calls + [CurrentOperation(phase)];
      error := Trouble(smooth);
      p := plugin(CurrentOperation(phase));
    }

    method Synchronize()
      requires (discovery ==> op == Ops.Read) && phase == Synchronizing && Possible(op, phase) && Ready() && Balanced()
      modifies this
      ensures Valid() && phase != Initializing && delivered == old(delivered) && (Fortunate() ==> Proceeding())
      ensures old(calls) < calls && Rank(phase) <= Rank(old(phase))
      ensures ReadFails() ==> StoppedAtRead()
      ensures ReadLingers() ==> phase == Synchronizing && StuckAtRead()
      decreases Rank(phase), 2
    {
      hide StateOf, Recorded, Recordable, Waiting, Required, IsRecoverable;
      RecordedFirst(plugin(ReadOp));
      var error, p := DoPluginOperation();
      if error {
        WaitingIsRecordable(op, 0, progress);
        MarkAsFailed();
        return;
      }
      HandleProgressUpdate(p);
    }

    /** A delete that cannot be started leaves the updater where it is, without a timeout. */
    method Delete()
      requires !discovery && phase == Deleting && Possible(op, phase) && Ready() && Balanced() && !timeout
      modifies this
      ensures Valid() && phase != Initializing && delivered == old(delivered) && (Fortunate() ==> Proceeding())
      ensures old(calls) < calls && Rank(phase) <= Rank(old(phase))
      decreases Rank(phase), 2
    {
      hide StateOf, Recorded, Recordable, Waiting, IsRecoverable;
      var error, p := DoPluginOperation();
      OnlyLastMutates(op, 1);
      if error {
        WaitingIsRecordable(op, 1, progress);
        return;
      }
      HandleProgressUpdate(p);
    }

    method Create()
      requires !discovery && phase == Creating && Possible(op, phase) && Ready() && AllResolved() && Balanced()
      modifies this
      ensures Valid() && phase != Initializing && delivered == old(delivered) && (Fortunate() ==> Proceeding())
      ensures old(calls) < calls && Rank(phase) <= Rank(old(phase))
      decreases Rank(phase), 2
    {
      hide StateOf, Recorded, Recordable, Waiting, IsRecoverable;
      var error, p := DoPluginOperation();
      if error {
        WaitingIsRecordable(op, Position(op, phase), progress);
        MarkAsFailed();
        return;
      }
      HandleProgressUpdate(p);
    }

    method Update()
      requires !discovery && phase == Updating && Possible(op, phase) && Ready() && AllResolved() && Balanced()
      modifies this
      ensures Valid() && phase != Initializing && delivered == old(delivered) && (Fortunate() ==> Proceeding())
      ensures old(calls) < calls && Rank(phase) <= Rank(old(phase))
      decreases Rank(phase), 2
    {
      hide StateOf, Recorded, Recordable, Waiting, IsRecoverable;
      var error, p := DoPluginOperation();
      if error {
        WaitingIsRecordable(op, Position(op, phase), progress);
        MarkAsFailed();
        return;
      }
      HandleProgressUpdate(p);
    }

    /** Asks for the next outstanding value, or moves on when there is none. */
    method Resolve()
      requires !discovery && phase == Resolving && Possible(op, phase) && Ready() && Balanced()
      modifies this
      ensures Valid() && phase != Initializing && delivered == old(delivered) && (Fortunate() ==> Proceeding())
      ensures old(calls) <= calls && Rank(phase) <= Rank(old(phase))
      ensures calls == old(calls) ==> phase == Resolving || phase == Crashed
      decreases Rank(phase), 1
    {
      hide StateOf, Recorded, Recordable, Waiting, Done, IsRecoverable, Required;
      BeforeLast(op, progress);
      if resolvables == [] {
        NextState();
        return;
      }
      requested, resolvables := requested + [resolvables[0]], resolvables[1..];
      sendFailed := Trouble(smooth);
      if sendFailed {
        phase := Crashed;
      } else {
        timeout := true;
      }
    }

    method ResourceResolved()
      requires Valid() && phase == Resolving
      modifies this
      ensures Valid() && phase != Initializing && delivered == old(delivered) + 1 && (Fortunate() ==> Proceeding())
    {
      var error := Trouble(smooth);
      delivered := delivered + 1;
      if error {
        MarkAsFailed();
        return;
      }
      Resolve();
    }

    /** Persists a success, rejects an update whose read found a change, and moves on. */
    method OperationSucceeded()
      requires Working(phase) && CanAdvance() && InOrder(op, progress)
      modifies this
      ensures Valid() && phase != Initializing && delivered == old(delivered) && (Fortunate() ==> Proceeding())
      ensures old(calls) <= calls && Rank(phase) <= Rank(old(phase))
      decreases Rank(phase), 1, 0
    {
      hide StateOf, Recorded, Recordable, Waiting, IsRecoverable, Required, InOrder;
      SyncIsOneRead(op);
      OrderedIsRecordable(op, progress);
      if discovery {
        var filtered := *;
        if filtered {
          MarkAsSuccess();
          Finish();
          return;
        }
      }
      var storeError := Trouble(smooth);
      var newVersion := Trouble(smooth);
      if storeError {
        MarkAsFailed();
        return;
      }
      if phase == Synchronizing && op != Ops.Read && newVersion && !(op == Ops.Delete || op == Ops.Replace) {
        Reject();
        return;
      }
      if phase == Synchronizing {
        changed := newVersion;
      }
      NextState();
    }

    /** The read of an update found a change. */
    method Reject()
      requires phase == Synchronizing && op == Ops.Update && CanAdvance() && Recordable(op, progress)
      modifies this`changed, this`state, this`phase
      ensures Valid() && phase == Rejected
    {
      hide StateOf, Recorded, Recordable, Waiting, IsRecoverable;
      changed, state, phase := true, Ops.Rejected, Rejected;
    }

    /** Ends at the failure that was just recorded, with the state as computed. */
    method StopAtFailure()
      requires Sound() && calls <= Required(op) && Recordable(op, progress) && (discovery ==> op == Ops.Read)
      requires CreateOp in calls || UpdateOp in calls ==> AllResolved()
      requires progress != [] && progress[|progress| - 1].Failed()
      requires state == if |progress| < |Required(op)| then Ops.InProgress else Ops.Failed
      modifies this`phase, this`marked
      ensures Valid() && phase == FinishedWithError && !marked
    {
      phase, marked := FinishedWithError, false;
    }

    /** Records a result and moves on after a success, or ends the update. */
    method HandleProgressUpdate(p: ProgressResult)
      requires (discovery ==> op == Ops.Read) && Working(phase) && Possible(op, phase) && Running() && Balanced()
      requires CreateOp in calls || UpdateOp in calls ==> AllResolved()
      requires Answers(p, CurrentOperation(phase)) && (Fortunate() ==> p.status == Succeeded)
      modifies this
      ensures Valid() && phase != Initializing && delivered == old(delivered) && (Fortunate() ==> Proceeding())
      ensures old(calls) <= calls && Rank(phase) <= Rank(old(phase))
      ensures smooth && !p.HasFinished() ==>
                phase == old(phase) && calls == old(calls) && progress == Recorded(old(progress), p)
      ensures smooth && p.Failed() ==>
                phase == FinishedWithError && !marked && calls == old(calls) && progress == Recorded(old(progress), p)
      decreases Rank(phase), 1, 1
    {
      hide StateOf, Recorded, Recordable, Required, Waiting, Done, InOrder, IsRecoverable;
      var error := Record(p);
      var persistError := Trouble(smooth);
      if error || persistError {
        MarkAsFailed();
      } else if p.FinishedSuccessfully() {
        OperationSucceeded();
      } else if p.Failed() {
        StopAtFailure();
      } else {
        timeout := true;
      }
    }

    /** Records a result of the current operation: after a success the update can move on, a failure can end it, and
        otherwise the operation is still running. */
    method Record(p: ProgressResult) returns (error: bool)
      requires (discovery ==> op == Ops.Read) && Working(phase) && Possible(op, phase) && Running() && Balanced()
      requires CreateOp in calls || UpdateOp in calls ==> AllResolved()
      requires Answers(p, CurrentOperation(phase))
      modifies this`progress, this`state
      ensures smooth ==> !error
      ensures progress == Recorded(old(progress), p) && Recordable(op, progress) && Sound() && Balanced()
      ensures p.FinishedSuccessfully() ==> CanAdvance() && InOrder(op, progress)
      ensures p.Failed() ==>
                progress != [] && progress[|progress| - 1].Failed() &&
                state == if |progress| < |Required(op)| then Ops.InProgress else Ops.Failed
      ensures !p.HasFinished() ==> Running() && |progress| == Position(op, phase) + 1
    {
      hide StateOf, Recorded, Recordable, Required, Waiting, IsRecoverable;
      ghost var k, before := Position(op, phase), progress;
      PhaseRunsRequired(op, phase);
      AnyAnswerIsRecordable(op, k, before, p);
      error := RecordProgress(p);
      if p.operation == CurrentOperation(phase) {
        RecordInOrder(op, k, before, p);
        if p.FinishedSuccessfully() {
          RecordSuccess(op, k, before, p);
        } else if p.Failed() {
          FailedState(op, progress, k);
        }
      } else {
        UnnamedIsNew(op, k, before, p);
        FailedState(op, progress, |before|);
      }
    }

    /** Delivers a message; timeouts come only where one is pending. A read that is still in progress has no handler for
        what comes later. Everywhere else a pending timeout ends the update with a report. */
    method Receive(m: Message)
      requires Valid() && phase != Initializing
      requires m.Report? && Working(phase) ==> Answers(m.result, CurrentOperation(phase))
      requires m.OperatorMissing? || m.CacheMissing? ==> timeout || Rank(phase) == 0
      requires Fortunate() ==> Proceeding() && (phase == Resolving ==> m.ValueResolved?)
      modifies this
      ensures Valid() && phase != Initializing && (Fortunate() ==> Proceeding())
      ensures Rank(old(phase)) == 0 ==> unchanged(this)
      ensures Fortunate() && old(phase) == Resolving ==> delivered == old(delivered) + 1
      ensures old(phase) == Synchronizing ==> phase == Crashed && calls == old(calls) && progress == old(progress)
      ensures m.OperatorMissing? && old(phase) in {Deleting, Creating, Updating} ==>
                phase == FinishedWithError && state == Ops.Failed
      ensures m.CacheMissing? && old(phase) == Resolving ==> phase == FinishedWithError && state == Ops.Failed
    {
      hide StateOf, Recorded, Recordable, Waiting, Done, Required, IsRecoverable;
      if phase == Deleting || phase == Creating || phase == Updating {
        match m
        case Report(p) => HandleProgressUpdate(p);
        case OperatorMissing => MarkAsFailed();
        case _ => phase, strayed := Crashed, true;
      } else if phase == Resolving {
        match m
        case ValueResolved => ResourceResolved();
        case FailedToResolve => MarkAsFailed();
        case CacheMissing => MarkAsFailed();
        case _ => phase, strayed := Crashed, true;
      } else if phase == Synchronizing {
        phase, strayed := Crashed, true;
      }
    }
  }

  /** The phases on entering which an updater reports to the executor. */
  predicate HasReported(phase: Phase) {
    phase == FinishedSuccessfully || phase == FinishedWithError || phase == Rejected
  }

  /** The phases that no message leads out of to a report. */
  predicate IsMute(phase: Phase) { phase == Synchronizing || phase == Crashed }

  /** Any number of messages, of which plugin operators send only results of the operation they were asked for. An
      updater that is mute stays so, whatever comes. */
  method Deliver(updater: ResourceUpdater, messages: nat)
    requires updater.Valid() && updater.phase != Initializing
    requires updater.ReadFails() ==> updater.StoppedAtRead()
    requires updater.ReadLingers() ==> updater.StuckAtRead()
    requires updater.Fortunate() ==> updater.Proceeding()
    modifies updater
    ensures updater.Valid() && updater.phase != Initializing
    ensures old(IsMute(updater.phase)) ==> IsMute(updater.phase) && (messages > 0 ==> updater.phase == Crashed)
    ensures messages == 0 ==> updater.phase == old(updater.phase)
    ensures updater.ReadFails() ==> updater.StoppedAtRead()
    ensures updater.ReadLingers() ==> updater.StuckAtRead()
    ensures updater.Fortunate() ==> updater.Proceeding() && (updater.phase == Resolving ==>
              updater.delivered >= messages)
  {
    hide ResourceUpdater.Valid, ResourceUpdater.Fortunate, ResourceUpdater.ReadFails, ResourceUpdater.ReadLingers;
    hide Answers;
    for n := 0 to messages
      invariant updater.Valid() && updater.phase != Initializing
      invariant old(IsMute(updater.phase)) ==> IsMute(updater.phase) && (n > 0 ==> updater.phase == Crashed)
      invariant n == 0 ==> updater.phase == old(updater.phase)
      invariant updater.ReadFails() ==> updater.StoppedAtRead()
      invariant updater.ReadLingers() ==> updater.StuckAtRead()
      invariant updater.Fortunate() ==> updater.Proceeding() && (updater.phase == Resolving ==> updater.delivered >= n)
    {
      var m: Message := *;
      FortunateIsSmooth(updater);
      RunOutcome(updater);
      if updater.smooth && updater.phase == Resolving {
        m := ValueResolved;
      }
      if m.Report? && Working(updater.phase) && !Answers(m.result, CurrentOperation(updater.phase)) {
        m := OperatorMissing;
      }
      if (m.OperatorMissing? || m.CacheMissing?) && !updater.timeout && Rank(updater.phase) > 0 {
        continue;  // no timeout is pending that could send it
      }
      updater.Receive(m);
    }
  }

  lemma {:induction false} FortunateIsSmooth(updater: ResourceUpdater)
    ensures updater.Fortunate() ==> updater.smooth
  {
  }

  method StartAndDeliver(op: Operation, discovery: bool, plugin: Plugin, smooth: bool, wanted: seq<Ops.FormaeUri>,
      messages: nat)
    returns (updater: ResourceUpdater)
    requires discovery ==> op == Ops.Read
    ensures updater.Valid() && updater.phase != Initializing
    ensures updater.op == op && updater.plugin == plugin && updater.smooth == smooth && updater.wanted == wanted
    ensures updater.ReadFails() ==> updater.StoppedAtRead()
    ensures updater.ReadLingers() ==>
              updater.StuckAtRead() && updater.phase == if messages == 0 then Synchronizing else Crashed
    ensures updater.Fortunate() && messages >= |wanted| ==> updater.phase == FinishedSuccessfully
  {
    hide ResourceUpdater.Valid, ResourceUpdater.Fortunate, ResourceUpdater.ReadFails, ResourceUpdater.ReadLingers, Rank;
    updater := new ResourceUpdater(op, discovery, plugin, smooth, wanted);
    updater.Start();
    Deliver(updater, messages);
    RunOutcome(updater);
  }

  /** A fresh run over any number of messages and whatever the environment answers. The operations asked for are
      a prefix of the required ones; creates and updates are asked for only when every value was asked for and
      delivered; an update is rejected exactly when its read found a change, and has then only read; one that ends
      successfully did everything, with success recorded for each operation and reported; one that ends with an error
      reports InProgress exactly when it was not marked as failed and stopped at a recorded failure with operations
      still due, and Failed otherwise; so whatever else it has to do, an update whose read fails at once ends with
      InProgress. An update is mute, and will never report, exactly when its read was recorded as still under way,
      the resolve cache could not be reached, or a message came that no handler takes. One that is not mute and has
      not reported has a timeout pending that would make it report, unless it is a delete that could not be started.
      If nothing goes wrong, the update has ended successfully once every value it needs has been delivered. */
  method FreshRun(op: Operation, discovery: bool, plugin: Plugin, smooth: bool, wanted: seq<Ops.FormaeUri>,
      messages: nat)
    returns (asked: seq<PluginOp>, phase: Phase, resolved: seq<Ops.FormaeUri>, delivered: nat,
             changed: bool, progress: seq<ProgressResult>, marked: bool, state: State,
             timeout: bool, sendFailed: bool, strayed: bool)
    requires discovery ==> op == Ops.Read
    ensures asked <= Required(op)
    ensures op == Ops.Read ==> asked <= [ReadOp]
    ensures op == Ops.Create ==> asked <= [CreateOp]
    ensures op == Ops.Update ==> asked <= [ReadOp, UpdateOp]
    ensures op == Ops.Delete ==> asked <= [ReadOp, DeleteOp]
    ensures op == Ops.Replace ==> asked <= [ReadOp, DeleteOp, CreateOp]
    ensures CreateOp in asked || UpdateOp in asked ==> resolved == wanted && delivered == |wanted|
    ensures Recordable(op, progress)
    ensures phase == Rejected <==> changed && op == Ops.Update
    ensures phase == Rejected ==> asked == [ReadOp] && state == Ops.Rejected
    ensures phase == FinishedSuccessfully ==>
              && state == Ops.Success && asked == Required(op)
              && (op == Ops.Read ==> asked == [ReadOp])
              && (op == Ops.Create ==> asked == [CreateOp])
              && (op == Ops.Update ==> asked == [ReadOp, UpdateOp])
              && (op == Ops.Delete ==> asked == [ReadOp, DeleteOp])
              && (op == Ops.Replace ==> asked == [ReadOp, DeleteOp, CreateOp])
              && forall r | r in asked :: exists i | 0 <= i < |progress| ::
                   progress[i].operation == r && progress[i].status == Succeeded
    ensures phase == FinishedWithError ==> state == Ops.Failed || state == Ops.InProgress
    ensures phase == FinishedWithError && !marked ==> progress != [] && progress[|progress| - 1].Failed()
    ensures phase == FinishedWithError ==> (state == Ops.InProgress <==> !marked && |progress| < |Required(op)|)
    ensures smooth && op != Ops.Create && plugin(ReadOp).Failed() ==>
              phase == FinishedWithError && asked == [ReadOp] && progress == [plugin(ReadOp)] &&
              state == if op == Ops.Read then Ops.Failed else Ops.InProgress
    ensures IsMute(phase) <==> sendFailed || strayed || (!marked && IsUnfinishedRead(progress))
    ensures !IsMute(phase) && !HasReported(phase) ==>
              phase in {Deleting, Resolving, Creating, Updating} && (timeout <==> phase != Deleting || |progress| == 2)
    ensures smooth ==> !sendFailed && (phase == Deleting ==> timeout)
    ensures smooth && op != Ops.Create && !plugin(ReadOp).HasFinished() ==>
              asked == [ReadOp] && phase == if messages == 0 then Synchronizing else Crashed
    ensures smooth && (forall r | r in Required(op) :: plugin(r).status == Succeeded) && messages >= |wanted| ==>
              phase == FinishedSuccessfully
  {
    hide Recordable, Required, IsRecoverable, ResourceUpdater.Valid;
    var updater := StartAndDeliver(op, discovery, plugin, smooth, wanted, messages);
    asked, phase, resolved, delivered := updater.calls, updater.phase, updater.requested, updater.delivered;
    changed, progress, marked, state := updater.changed, updater.progress, updater.marked, updater.state;
    timeout, sendFailed, strayed := updater.timeout, updater.sendFailed, updater.strayed;
    RunOutcome(updater);
    RequiredExactly(op);
  }

  /** What the invariant says about how an update stands. */
  lemma {:induction false} RunOutcome(u: ResourceUpdater)
    requires u.Valid() && u.phase != Initializing
    ensures u.calls <= Required(u.op) && Recordable(u.op, u.progress)
    ensures CreateOp in u.calls || UpdateOp in u.calls ==> u.requested == u.wanted && u.delivered == |u.wanted|
    ensures u.phase == Rejected <==> u.changed && u.op == Ops.Update
    ensures u.phase == Rejected ==> u.calls == [ReadOp] && u.state == Ops.Rejected
    ensures u.phase == FinishedSuccessfully ==>
              u.calls == Required(u.op) && u.state == Ops.Success &&
              forall r | r in Required(u.op) :: HasSuccess(u.progress, r)
    ensures u.phase == FinishedWithError ==>
              u.state == if !u.marked && |u.progress| < |Required(u.op)| then Ops.InProgress else Ops.Failed
    ensures u.phase == FinishedWithError && !u.marked ==>
              u.progress != [] && u.progress[|u.progress| - 1].Failed()
    ensures u.phase == Resolving ==> u.delivered < |u.wanted|
    ensures IsMute(u.phase) <==> u.sendFailed || u.strayed || (!u.marked && IsUnfinishedRead(u.progress))
    ensures u.phase in {Synchronizing, Resolving, Creating, Updating} ==> u.timeout
    ensures u.phase == Deleting ==> (u.timeout <==> |u.progress| == 2) && (u.smooth ==> u.timeout)
    ensures u.smooth ==> !u.sendFailed
  {
    WhereReadsStand(u);
    hide Recordable, HasSuccess, Required, Waiting, StateOf, IsRecoverable;
    if u.phase == FinishedSuccessfully {
      DoneMeansSuccess(u.op, u.progress);
    }
  }

  /** All that is recorded is a read that has not finished. */
  predicate IsUnfinishedRead(progress: seq<ProgressResult>) {
    |progress| == 1 && progress[0].operation == ReadOp && !progress[0].HasFinished()
  }

  lemma {:induction false} WhereReadsStand(u: ResourceUpdater)
    requires u.Valid() && u.phase != Initializing
    ensures u.phase == Synchronizing ==> !u.marked && IsUnfinishedRead(u.progress)
    ensures u.phase != Crashed && !u.marked && IsUnfinishedRead(u.progress) ==> u.phase == Synchronizing
  {
    hide Recordable, StateOf, IsRecoverable;
  }

  lemma {:induction false} RequiredExactly(op: Operation)
    ensures op == Ops.Read ==> Required(op) == [ReadOp]
    ensures op == Ops.Create ==> Required(op) == [CreateOp]
    ensures op == Ops.Update ==> Required(op) == [ReadOp, UpdateOp]
    ensures op == Ops.Delete ==> Required(op) == [ReadOp, DeleteOp]
    ensures op == Ops.Replace ==> Required(op) == [ReadOp, DeleteOp, CreateOp]
  {
  }

  lemma {:induction false} DoneMeansSuccess(op: Operation, progress: seq<ProgressResult>)
    requires Done(op, |Required(op)|, progress)
    ensures forall r | r in Required(op) :: HasSuccess(progress, r)
  {
    forall r | r in Required(op) ensures HasSuccess(progress, r) {
      var i :| 0 <= i < |Required(op)| && Required(op)[i] == r;
      assert progress[i].operation == r && progress[i].status == Succeeded;
    }
  }
}
