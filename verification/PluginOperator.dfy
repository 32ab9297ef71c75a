/** The state machine that runs one plugin operation, with retries and status checks
    (internal/metastructure/plugin_operation/plugin_operator.go). */
module PluginOperating {
  import opened Common
  import opened Progress

  datatype Phase = NotStarted | WaitingForResource | Retrying | FinishedSuccessfully | FinishedWithError

  predicate Terminal(phase: Phase) { phase == FinishedSuccessfully || phase == FinishedWithError }

  /** What comes of talking to the plugin. */
  datatype Answer =
    | PluginMissing
    | BadRequest  // the request could not be built from the resource
    | CallError
    | Result(progress: ProgressResult)

  /** Messages, with what the environment does while they are handled: the plugin's answer, whether a retry can be
      scheduled, and whether the requester can be reached. */
  datatype Event =
    | Begin(operation: PluginOp, answer: Answer, scheduled: bool)
    | Resume(operation: PluginOp, previousAttempts: int, answer: Answer, scheduled: bool)
    | StatusFires(answer: Answer, scheduled: bool, sent: bool)
    | RetryFires(answer: Answer, scheduled: bool, sent: bool)

  datatype Operator = Operator(
    phase: Phase,
    attempts: int,
    lastStatusMessage: string,
    operation: PluginOp,
    invoked: nat,                  // how often the operation was asked of the plugin
    reports: seq<ProgressResult>)  // what the requester was told

  const newOperator := Operator(NotStarted, 1, "", Unnamed, 0, [])

  // ----- Handlers -----

  function PluginNotFoundError(): ProgressResult {
    ProgressResult(Unnamed, Failure, PluginNotFound, 1, 1, "")
  }

  function UnforeseenFailure(maxRetries: int, o: Operator): ProgressResult {
    ProgressResult(Unnamed, Failure, UnforeseenError, o.attempts, maxRetries + 1, "")
  }

  /** Decides what a plugin result means and what to do next. */
  function HandlePluginResult(maxRetries: int, o: Operator, result: ProgressResult, scheduled: bool):
    (Operator, ProgressResult)
  {
    var stamped := result.(attempts := o.attempts, maxAttempts := maxRetries + 1);
    var progress := if o.attempts > 1 then stamped.(statusMessage := o.lastStatusMessage) else stamped;
    if progress.FinishedSuccessfully() then (o.(phase := FinishedSuccessfully), progress)
    else if progress.status == Failure then
      if IsRecoverable(progress.errorCode) && o.attempts <= maxRetries + 1 then
        var noted := o.(lastStatusMessage := progress.statusMessage);
        if scheduled then (noted.(phase := Retrying), progress)
        else (noted.(phase := FinishedWithError), UnforeseenFailure(maxRetries, noted))
      else (o.(phase := FinishedWithError), progress)
    else (o.(phase := WaitingForResource), progress)
  }

  /** Asks the plugin for the operation. */
  function Invoke(maxRetries: int, o: Operator, answer: Answer, scheduled: bool): (Operator, ProgressResult) {
    match answer
    case PluginMissing => (o.(phase := FinishedWithError), PluginNotFoundError())
    case BadRequest => (o.(phase := FinishedWithError), UnforeseenFailure(maxRetries, o))
    case CallError => (o.(phase := FinishedWithError, invoked := o.invoked + 1), UnforeseenFailure(maxRetries, o))
    case Result(progress) => HandlePluginResult(maxRetries, o.(invoked := o.invoked + 1), progress, scheduled)
  }

  function Step(maxRetries: int, o: Operator, e: Event): Operator {
    match e
    case Begin(operation, answer, scheduled) =>
      if o.phase != NotStarted then o else
      var (next, progress) := Invoke(maxRetries, o.(operation := operation), answer, scheduled);
      Tell(next, progress)
    case Resume(operation, previousAttempts, answer, scheduled) =>
      if o.phase != NotStarted then o else
      var resumed := o.(operation := operation, attempts := previousAttempts);
      (match answer
       case PluginMissing => Tell(resumed.(phase := FinishedWithError), ProgressResult(Unnamed, Pending, NotSet, 0,
           0, ""))
       case Result(result) =>
         var (next, progress) := HandlePluginResult(maxRetries, resumed, result, scheduled);
         Tell(next, progress)
       case _ => Tell(resumed.(phase := FinishedWithError), UnforeseenFailure(maxRetries, resumed)))
    case StatusFires(answer, scheduled, sent) =>
      if o.phase != WaitingForResource then o else
      (match answer
       case Result(result) =>
         var (next, progress) := HandlePluginResult(maxRetries, o, result, scheduled);
         if sent then Tell(next, progress) else next.(phase := FinishedWithError)
       case _ => o.(phase := FinishedWithError))
    case RetryFires(answer, scheduled, sent) =>
      if o.phase != Retrying then o else
      var again := o.(attempts := o.attempts + 1);
      var (next, progress) := Invoke(maxRetries, again, answer, scheduled);
      if sent
      then Tell(next, progress.(attempts := again.attempts, maxAttempts := maxRetries + 1))
      else again.(phase := FinishedWithError, invoked := next.invoked)
  }

  function Tell(o: Operator, progress: ProgressResult): Operator {
    o.(reports := o.reports + [progress])
  }

  /** An operator starts with its operation or by resuming one that is under way. */
  predicate Opens(e: Event) { e.Begin? || e.Resume? }

  /** The operator after its first message and a run of further ones. */
  function After(maxRetries: int, first: Event, events: seq<Event>): Operator {
    if events == [] then Step(maxRetries, newOperator, first)
    else Step(maxRetries, After(maxRetries, first, events[..|events| - 1]), events[|events| - 1])
  }

  // ----- What one message does -----

  /** Where an attempt leads, given the plugin's result: a failure is retried if its code is one of the seven that may
      pass, the attempts are not used up and the retry can be scheduled. */
  ghost function PhaseAfter(maxRetries: int, attempt: int, result: ProgressResult, scheduled: bool): Phase {
    match result.status
    case Succeeded => FinishedSuccessfully
    case InProgress => WaitingForResource
    case Pending => WaitingForResource
    case Failure =>
      if result.errorCode in {Throttling, NotStabilized, ServiceInternalError, ServiceTimeout, NetworkFailure,
                              InternalFailure, NotFound} && attempt < maxRetries + 2 && scheduled
      then Retrying else FinishedWithError
  }

  /** What a message that the operator waits for does: which attempt it belongs to, whether the operation is asked of
      the plugin, where it leads, and what is reported of a plugin result; that is the result's own status and code,
      or an unforeseen error where a due retry could not be scheduled. */
  lemma {:induction false} StepOutcome(maxRetries: int, o: Operator, e: Event)
    requires || (o.phase == NotStarted && (e.Begin? || e.Resume?))
             || (o.phase == WaitingForResource && e.StatusFires?)
             || (o.phase == Retrying && e.RetryFires?)
    ensures var next := Step(maxRetries, o, e);
            var attempt := if e.Resume? then e.previousAttempts
                           else if e.RetryFires? then o.attempts + 1 else o.attempts;
            var heard := e.answer.Result? && (e.StatusFires? || e.RetryFires? ==> e.sent);
            && next.attempts == attempt
            && next.operation == (if e.Begin? || e.Resume? then e.operation else o.operation)
            && next.invoked == o.invoked +
                 (if (e.Begin? || e.RetryFires?) && (e.answer.Result? || e.answer.CallError?) then 1 else 0)
            && (if heard then next.phase == PhaseAfter(maxRetries, attempt, e.answer.progress, e.scheduled)
                else next.phase == FinishedWithError)
            && (heard ==> |next.reports| == |o.reports| + 1 &&
                          Reports(maxRetries, attempt, e.answer.progress, e.scheduled, next.reports[|o.reports|]))
  {
    hide HandlePluginResult, PhaseAfter, Reports;
    if e.answer.Result? {
      var result := e.answer.progress;
      match e
      case Begin(operation, _, scheduled) =>
        HandleOutcome(maxRetries, o.(operation := operation, invoked := o.invoked + 1), result, scheduled);
      case Resume(operation, previous, _, scheduled) =>
        HandleOutcome(maxRetries, o.(operation := operation, attempts := previous), result, scheduled);
      case StatusFires(_, scheduled, _) => HandleOutcome(maxRetries, o, result, scheduled);
      case RetryFires(_, scheduled, _) =>
        HandleOutcome(maxRetries, o.(attempts := o.attempts + 1, invoked := o.invoked + 1), result, scheduled);
    }
  }

  lemma {:induction false} HandleOutcome(maxRetries: int, o: Operator, result: ProgressResult, scheduled: bool)
    ensures var (next, progress) := HandlePluginResult(maxRetries, o, result, scheduled);
            && next == o.(phase := PhaseAfter(maxRetries, o.attempts, result, scheduled),
                          lastStatusMessage := next.lastStatusMessage)
            && Reports(maxRetries, o.attempts, result, scheduled, progress)
            && progress == progress.(attempts := o.attempts, maxAttempts := maxRetries + 1)
  {
  }

  ghost predicate Reports(
    maxRetries: int, attempt: int, result: ProgressResult, scheduled: bool, report: ProgressResult)
  {
    && report.attempts == attempt && report.maxAttempts == maxRetries + 1
    && if !scheduled && PhaseAfter(maxRetries, attempt, result, true) == Retrying
       then report.status == Failure && report.errorCode == UnforeseenError
       else report.status == result.status && report.errorCode == result.errorCode &&
            report.operation == result.operation
  }

  // ----- How often the operation is invoked -----

  function Max(x: int, y: int): int { if x < y then y else x }

  /** The attempts the counter starts from. */
  function Base(first: Event): int { if first.Resume? then first.previousAttempts else 1 }

  ghost predicate Counted(maxRetries: int, first: Event, o: Operator) {
    o.phase != NotStarted &&
    (o.phase == Retrying ==> o.attempts <= maxRetries + 1) &&
    o.attempts <= Max(Base(first), maxRetries + 2) &&
    o.invoked <= o.attempts - Base(first) + if first.Begin? then 1 else 0
  }

  lemma {:induction false} HandleCounted(maxRetries: int, first: Event, o: Operator, result: ProgressResult,
      scheduled: bool)
    requires o.attempts <= Max(Base(first), maxRetries + 2)
    requires o.invoked <= o.attempts - Base(first) + if first.Begin? then 1 else 0
    ensures Counted(maxRetries, first, HandlePluginResult(maxRetries, o, result, scheduled).0)
    ensures HandlePluginResult(maxRetries, o, result, scheduled).0.invoked == o.invoked
  {
  }

  lemma {:induction false} OpeningCounted(maxRetries: int, first: Event)
    requires Opens(first)
    ensures Counted(maxRetries, first, Step(maxRetries, newOperator, first))
  {
    if first.answer.Result? {
      var o := if first.Begin? then newOperator.(operation := first.operation, invoked := 1)
               else newOperator.(operation := first.operation, attempts := first.previousAttempts);
      HandleCounted(maxRetries, first, o, first.answer.progress, first.scheduled);
    }
  }

  lemma {:induction false} StepCounted(maxRetries: int, first: Event, o: Operator, e: Event)
    requires Counted(maxRetries, first, o)
    ensures Counted(maxRetries, first, Step(maxRetries, o, e))
  {
    hide HandlePluginResult;
    if e.StatusFires? && e.answer.Result? {
      HandleCounted(maxRetries, first, o, e.answer.progress, e.scheduled);
    }
    if o.phase == Retrying && e.RetryFires? && e.answer.Result? {
      var again := o.(attempts := o.attempts + 1, invoked := o.invoked + 1);
      HandleCounted(maxRetries, first, again, e.answer.progress, e.scheduled);
    }
  }

  lemma {:induction false} CountedAlways(maxRetries: int, first: Event, events: seq<Event>)
    requires Opens(first)
    ensures Counted(maxRetries, first, After(maxRetries, first, events))
  {
    if events != [] {
      CountedAlways(maxRetries, first, events[..|events| - 1]);
      StepCounted(maxRetries, first, After(maxRetries, first, events[..|events| - 1]), events[|events| - 1]);
    } else {
      OpeningCounted(maxRetries, first);
    }
  }

  /** However retries and status checks mix, the operation is invoked at most maxRetries + 2 times; a resumed one, at
      most that many times less the attempts already made. */
  lemma {:induction false} RetryBound(maxRetries: int, first: Event, events: seq<Event>)
    requires Opens(first)
    ensures first.Begin? ==> After(maxRetries, first, events).invoked <= Max(1, maxRetries + 2)
    ensures first.Resume? ==> After(maxRetries, first, events).invoked <= Max(0,
              maxRetries + 2 - first.previousAttempts)
  {
    CountedAlways(maxRetries, first, events);
  }

  function Throttled(operation: PluginOp): Answer {
    Result(ProgressResult(operation, Failure, Throttling, 0, 0, ""))
  }

  /** The bound is reached when every attempt is throttled. */
  lemma {:induction false} RetryBoundReached(maxRetries: nat, operation: PluginOp, k: nat)
    requires k <= maxRetries + 1
    ensures var o := After(maxRetries, Begin(operation, Throttled(operation), true),
                           seq(k, _ => RetryFires(Throttled(operation), true, true)));
            o.attempts == o.invoked == k + 1 && o.phase == if k <= maxRetries then Retrying else FinishedWithError
  {
    var events := seq(k, _ => RetryFires(Throttled(operation), true, true));
    if k > 0 {
      RetryBoundReached(maxRetries, operation, k - 1);
      assert events[..k - 1] == seq(k - 1, _ => RetryFires(Throttled(operation), true, true));
    }
  }

  // ----- What the requester is told -----

  /** A handled result ends the operator exactly when the progress it reports has finished. */
  lemma {:induction false} TerminalMeansFinished(maxRetries: int, o: Operator, result: ProgressResult, scheduled: bool)
    ensures var (next, progress) := HandlePluginResult(maxRetries, o, result, scheduled);
            Terminal(next.phase) <==> progress.HasFinished()
  {
  }

  /** The one report that hides the end of its operator: resuming without a plugin. */
  predicate HidesEnd(first: Event) { first.Resume? && first.answer == PluginMissing }

  /** Nothing but the last report is a finished one. When the last report is finished the operator has ended; an
      operator that has ended said so, except where it was resumed without a plugin, its status check got no result,
      or the requester could not be reached. */
  ghost predicate Told(first: Event, o: Operator, silent: bool) {
    o.reports != [] &&
    (forall i | 0 <= i < |o.reports| - 1 :: !o.reports[i].HasFinished()) &&
    (Terminal(o.phase) <==> o.reports[|o.reports| - 1].HasFinished() || HidesEnd(first) || silent) &&
    (silent ==> Terminal(o.phase) && !o.reports[|o.reports| - 1].HasFinished())
  }

  /** Whether a message ends the operator without a report. */
  predicate EndsSilently(o: Operator, e: Event) {
    (o.phase == WaitingForResource && e.StatusFires? && !(e.answer.Result? && e.sent)) ||
    (o.phase == Retrying && e.RetryFires? && !e.sent)
  }

  predicate Silent(maxRetries: int, first: Event, events: seq<Event>) {
    events != [] &&
    (Silent(maxRetries, first, events[..|events| - 1]) ||
     EndsSilently(After(maxRetries, first, events[..|events| - 1]), events[|events| - 1]))
  }

  /** A message to a running operator either changes nothing, ends it silently, or adds a report that is finished
      exactly when the operator has ended. */
  lemma {:induction false} StepReports(maxRetries: int, o: Operator, e: Event)
    requires o.phase != NotStarted
    ensures var next := Step(maxRetries, o, e);
            if EndsSilently(o, e) then !Terminal(o.phase) && Terminal(next.phase) && next.reports == o.reports
            else next == o || (!Terminal(o.phase) && |next.reports| == |o.reports| + 1 &&
                               next.reports[..|o.reports|] == o.reports &&
                               (Terminal(next.phase) <==> next.reports[|o.reports|].HasFinished()))
  {
  }

  lemma {:induction false} StepTold(maxRetries: int, first: Event, o: Operator, silent: bool, e: Event)
    requires o.phase != NotStarted && Told(first, o, silent)
    ensures Told(first, Step(maxRetries, o, e), silent || EndsSilently(o, e))
  {
    hide Step;
    StepReports(maxRetries, o, e);
    var next := Step(maxRetries, o, e);
    if |next.reports| == |o.reports| + 1 {
      assert forall i | 0 <= i < |o.reports| :: next.reports[i] == next.reports[..|o.reports|][i];
    }
  }

  /** Over a whole run: only the last report can be a finished one, and the operator has ended exactly when that report
      is finished, unless it was resumed without a plugin or was ended by a message that led to no report. */
  lemma {:induction false} ReportsEndTheRun(maxRetries: int, first: Event, events: seq<Event>)
    requires Opens(first)
    ensures Told(first, After(maxRetries, first, events), Silent(maxRetries, first, events))
  {
    hide Step, Told;
    if events != [] {
      var o := After(maxRetries, first, events[..|events| - 1]);
      ReportsEndTheRun(maxRetries, first, events[..|events| - 1]);
      CountedAlways(maxRetries, first, events[..|events| - 1]);
      StepTold(maxRetries, first, o, Silent(maxRetries, first, events[..|events| - 1]), events[|events| - 1]);
    } else {
      OpeningTold(maxRetries, first);
    }
  }

  lemma {:induction false} OpeningTold(maxRetries: int, first: Event)
    requires Opens(first)
    ensures Told(first, Step(maxRetries, newOperator, first), false)
  {
  }

  // ----- Status messages -----

  /** Whether a message brings a plugin result that the operator handles. */
  predicate Handles(o: Operator, e: Event) {
    e.answer.Result? &&
    match e
    case Begin(_, _, _) => o.phase == NotStarted
    case Resume(_, _, _, _) => o.phase == NotStarted
    case StatusFires(_, _, _) => o.phase == WaitingForResource
    case RetryFires(_, _, _) => o.phase == Retrying
  }

  /** The attempt that a message belongs to. */
  function AttemptOf(o: Operator, e: Event): int {
    match e
    case Resume(_, previousAttempts, _, _) => previousAttempts
    case RetryFires(_, _, _) => o.attempts + 1
    case _ => o.attempts
  }

  /** Whether a message brings a recoverable failure with attempts left. */
  predicate RetryDue(maxRetries: int, o: Operator, e: Event) {
    Handles(o, e) && e.answer.progress.status == Failure && IsRecoverable(e.answer.progress.errorCode) &&
    AttemptOf(o, e) <= maxRetries + 1
  }

  /** Whether a message leads to a report. */
  predicate LeadsToReport(o: Operator, e: Event) {
    match e
    case Begin(_, _, _) => o.phase == NotStarted
    case Resume(_, _, _, _) => o.phase == NotStarted
    case StatusFires(answer, _, sent) => o.phase == WaitingForResource && answer.Result? && sent
    case RetryFires(_, _, sent) => o.phase == Retrying && sent
  }

  /** The plugin's own text of a recoverable failure. */
  function FailureText(maxRetries: int, o: Operator, e: Event): seq<string> {
    if RetryDue(maxRetries, o, e) then [e.answer.progress.statusMessage] else []
  }

  /** The plugin's own text behind a report; there is none behind an error that the operator makes up. */
  function OwnText(maxRetries: int, o: Operator, e: Event): seq<Option<string>> {
    if !LeadsToReport(o, e) then []
    else if Handles(o, e) && (RetryDue(maxRetries, o, e) ==> e.scheduled) then [Some(e.answer.progress.statusMessage)]
    else [None]
  }

  /** The texts of the recoverable failures of a run, and the texts behind its reports. */
  function Failures(maxRetries: int, first: Event, events: seq<Event>): seq<string> {
    if events == [] then FailureText(maxRetries, newOperator, first)
    else
      var init, last := events[..|events| - 1], events[|events| - 1];
      Failures(maxRetries, first, init) + FailureText(maxRetries, After(maxRetries, first, init), last)
  }

  function OwnTexts(maxRetries: int, first: Event, events: seq<Event>): seq<Option<string>> {
    if events == [] then OwnText(maxRetries, newOperator, first)
    else
      var init, last := events[..|events| - 1], events[|events| - 1];
      OwnTexts(maxRetries, first, init) + OwnText(maxRetries, After(maxRetries, first, init), last)
  }

  /** The text that reports carry after the first attempt, for a counter that starts at base: that of the last failure
      of the first attempt or before, and nothing if the counter starts later. */
  function KeptText(base: int, failures: seq<string>): string {
    if base > 1 || failures == [] then ""
    else if |failures| <= 1 - base then failures[|failures| - 1] else failures[1 - base]
  }

  ghost predicate KeepsText(base: int, o: Operator, failures: seq<string>) {
    o.phase != NotStarted && o.attempts >= base &&
    (!Terminal(o.phase) ==>
       |failures| == o.attempts - base + (if o.phase == Retrying then 1 else 0) &&
       o.lastStatusMessage == KeptText(base, failures))
  }

  /** What one report says, given the plugin's own text behind it. */
  ghost predicate Says(base: int, failures: seq<string>, report: ProgressResult, own: Option<string>) {
    match own
    case None => report.statusMessage == ""
    case Some(text) =>
      report.statusMessage == (if report.attempts <= 1 then text else KeptText(base, failures)) &&
      (report.attempts > 1 && base <= 1 ==> |failures| > 1 - base)
  }

  ghost predicate SayAll(base: int, failures: seq<string>, reports: seq<ProgressResult>, texts: seq<Option<string>>) {
    |texts| == |reports| && forall i | 0 <= i < |reports| :: Says(base, failures, reports[i], texts[i])
  }

  lemma {:induction false} SaysStill(base: int, failures: seq<string>, more: seq<string>, r: ProgressResult,
      own: Option<string>)
    requires Says(base, failures, r, own)
    ensures Says(base, failures + more, r, own)
  {
  }

  /** How one message moves the kept text and what it reports. */
  lemma {:induction false} HandleSays(
    maxRetries: int, base: int, o: Operator, failures: seq<string>, result: ProgressResult, scheduled: bool)
    requires o.attempts >= base && |failures| == o.attempts - base && o.lastStatusMessage == KeptText(base, failures)
    ensures var (next, progress) := HandlePluginResult(maxRetries, o, result, scheduled);
            var due := result.status == Failure && IsRecoverable(result.errorCode) && o.attempts <= maxRetries + 1;
            var more := if due then [result.statusMessage] else [];
            && next.reports == o.reports && progress.attempts == o.attempts && progress.maxAttempts == maxRetries + 1
            && KeepsText(base, next, failures + more)
            && Says(base, failures + more, progress, if due && !scheduled then None else Some(result.statusMessage))
  {
  }

  lemma {:induction false} OpeningSays(maxRetries: int, first: Event)
    requires Opens(first)
    ensures var o, failures := Step(maxRetries, newOperator, first), FailureText(maxRetries, newOperator, first);
            KeepsText(Base(first), o, failures) &&
            SayAll(Base(first), failures, o.reports, OwnText(maxRetries, newOperator, first))
  {
    hide HandlePluginResult, Says;
    if first.answer.Result? {
      var o := if first.Begin? then newOperator.(operation := first.operation, invoked := 1)
               else newOperator.(operation := first.operation, attempts := first.previousAttempts);
      HandleSays(maxRetries, Base(first), o, [], first.answer.progress, first.scheduled);
      assert [] + FailureText(maxRetries, newOperator, first) == FailureText(maxRetries, newOperator, first);
    } else {
      MadeUp(maxRetries, first);
    }
  }

  /** An operator that cannot even ask ends with an error of its own. */
  lemma {:induction false} MadeUp(maxRetries: int, first: Event)
    requires Opens(first) && !first.answer.Result?
    ensures var o := Step(maxRetries, newOperator, first);
            KeepsText(Base(first), o, []) && |o.reports| == 1 && Says(Base(first), [], o.reports[0], None)
  {
  }

  lemma {:induction false} StepSays(
    maxRetries: int, base: int, o: Operator, e: Event, failures: seq<string>, texts: seq<Option<string>>)
    requires KeepsText(base, o, failures) && SayAll(base, failures, o.reports, texts)
    ensures var next, more := Step(maxRetries, o, e), failures + FailureText(maxRetries, o, e);
            KeepsText(base, next, more) && SayAll(base, more, next.reports, texts + OwnText(maxRetries, o, e))
  {
    var next, more, own := Step(maxRetries, o, e), FailureText(maxRetries, o, e), OwnText(maxRetries, o, e);
    StepSaysNew(maxRetries, base, o, e, failures);
    assert Adds(maxRetries, base, o, e, failures);
    hide Step, FailureText, OwnText, Says, KeepsText;
    forall i | 0 <= i < |o.reports| ensures Says(base, failures + more, o.reports[i], texts[i]) {
      SaysStill(base, failures, more, o.reports[i], texts[i]);
    }
  }

  /** What a message adds to the run. */
  ghost predicate Adds(maxRetries: int, base: int, o: Operator, e: Event, failures: seq<string>) {
    var next, more, own := Step(maxRetries, o, e), failures + FailureText(maxRetries, o, e), OwnText(maxRetries, o, e);
    && KeepsText(base, next, more)
    && |own| <= 1 && |next.reports| == |o.reports| + |own|
    && next.reports[..|o.reports|] == o.reports
    && (own != [] ==> Says(base, more, next.reports[|o.reports|], own[0]))
  }

  lemma {:induction false} StepSaysNew(maxRetries: int, base: int, o: Operator, e: Event, failures: seq<string>)
    requires KeepsText(base, o, failures)
    ensures Adds(maxRetries, base, o, e, failures)
  {
    if o.phase == WaitingForResource && e.StatusFires? && e.answer.Result? {
      StatusSays(maxRetries, base, o, e, failures);
    } else if o.phase == Retrying && e.RetryFires? && e.answer.Result? {
      RetrySays(maxRetries, base, o, e, failures);
    } else {
      OtherSays(maxRetries, base, o, e, failures);
    }
  }

  lemma {:induction false} StatusSays(maxRetries: int, base: int, o: Operator, e: Event, failures: seq<string>)
    requires KeepsText(base, o, failures) && o.phase == WaitingForResource && e.StatusFires? && e.answer.Result?
    ensures Adds(maxRetries, base, o, e, failures)
  {
    hide HandlePluginResult, Says, KeptText, IsRecoverable;
    HandleSays(maxRetries, base, o, failures, e.answer.progress, e.scheduled);
  }

  lemma {:induction false} RetrySays(maxRetries: int, base: int, o: Operator, e: Event, failures: seq<string>)
    requires KeepsText(base, o, failures) && o.phase == Retrying && e.RetryFires? && e.answer.Result?
    ensures Adds(maxRetries, base, o, e, failures)
  {
    hide HandlePluginResult, Says, KeptText, IsRecoverable;
    var again := o.(attempts := o.attempts + 1, invoked := o.invoked + 1);
    HandleSays(maxRetries, base, again, failures, e.answer.progress, e.scheduled);
    var (next, progress) := HandlePluginResult(maxRetries, again, e.answer.progress, e.scheduled);
    assert progress.(attempts := again.attempts, maxAttempts := maxRetries + 1) == progress;
  }

  lemma {:induction false} OtherSays(maxRetries: int, base: int, o: Operator, e: Event, failures: seq<string>)
    requires KeepsText(base, o, failures) && !Handles(o, e)
    ensures Adds(maxRetries, base, o, e, failures)
  {
    hide KeptText, HandlePluginResult;
    assert failures + [] == failures;
  }

  lemma {:induction false} RunSays(maxRetries: int, first: Event, events: seq<Event>)
    requires Opens(first)
    ensures var o, failures := After(maxRetries, first, events), Failures(maxRetries, first, events);
            KeepsText(Base(first), o, failures) &&
            SayAll(Base(first), failures, o.reports, OwnTexts(maxRetries, first, events))
  {
    hide Step, FailureText, OwnText, SayAll, KeepsText;
    if events == [] {
      OpeningSays(maxRetries, first);
    } else {
      var init, last := events[..|events| - 1], events[|events| - 1];
      RunSays(maxRetries, first, init);
      StepSays(maxRetries, Base(first), After(maxRetries, first, init), last,
               Failures(maxRetries, first, init), OwnTexts(maxRetries, first, init));
    }
  }

  /** What the reports of a whole run say. One made from a plugin result of the first attempt carries the plugin's
      own text. From the second attempt on it carries the text of the run's first recoverable failure or, when an
      operation is resumed after its first attempt, no text at all; so it carries the plugin's own exactly if the two
      coincide. A report that is the operator's own error has no text. */
  lemma {:induction false} ReportedTexts(maxRetries: int, first: Event, events: seq<Event>, i: nat)
    requires Opens(first) && i < |After(maxRetries, first, events).reports|
    ensures i < |OwnTexts(maxRetries, first, events)|
    ensures var report, own := After(maxRetries, first, events).reports[i], OwnTexts(maxRetries, first, events)[i];
            var failures := Failures(maxRetries, first, events);
            && (own.None? ==> report.statusMessage == "")
            && (own.Some? && report.attempts <= 1 ==> report.statusMessage == own.value)
            && (own.Some? && report.attempts > 1 && first.Begin? ==>
                  failures != [] && report.statusMessage == failures[0])
            && (own.Some? && report.attempts > 1 && first.Resume? && first.previousAttempts > 1 ==>
                  report.statusMessage == "")
            && (own.Some? && report.attempts > 1 && first.Resume? && first.previousAttempts <= 1 ==>
                  |failures| > 1 - first.previousAttempts &&
                  report.statusMessage == failures[1 - first.previousAttempts])
            && (own.Some? ==>
                  (report.statusMessage == own.value <==>
                   report.attempts <= 1 || own.value == KeptText(Base(first), failures)))
  {
    hide After, Failures, OwnTexts;
    RunSays(maxRetries, first, events);
    assert Says(Base(first), Failures(maxRetries, first, events), After(maxRetries, first, events).reports[i],
                OwnTexts(maxRetries, first, events)[i]);
  }

  function ThrottledWith(operation: PluginOp, text: string): Answer {
    Result(ProgressResult(operation, Failure, Throttling, 0, 0, text))
  }

  /** Two attempts that fail with different texts are both reported with the first; a resumed one with none. */
  lemma {:induction false} LaterTextIsLost(maxRetries: nat, operation: PluginOp, a: string, b: string)
    ensures var o := After(maxRetries, Begin(operation, ThrottledWith(operation, a), true),
                           [RetryFires(ThrottledWith(operation, b), true, true)]);
            |o.reports| == 2 && o.reports[0].statusMessage == o.reports[1].statusMessage == a
    ensures var o := After(maxRetries, Resume(operation, 2, ThrottledWith(operation, a), true), []);
            |o.reports| == 1 && o.reports[0].statusMessage == ""
  {
    var events := [RetryFires(ThrottledWith(operation, b), true, true)];
    assert events[..0] == [];
  }
}
