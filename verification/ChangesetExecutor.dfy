/** The executor's message handlers around a changeset
    (internal/metastructure/changeset/changeset_executor.go). Each handler is one step of the run relation that
    Scheduler.dfy reasons about. Calls that may fail are choices of the environment. */
module ChangesetExecution {
  import opened Common
  import opened Operations
  import opened Scheduler
  import opened PipelineLinks
  import opened ChangesetPipeline
  import opened RateLimiting

  /** What is ready in a namespace whose operations have not been touched is still ready. */
  lemma {:induction false} ReadyAfterStart(m: Sched, batch: set<OpUri>, namespace: string)
    requires batch <= m.AllReady() && forall n | n in batch :: m.ops[n].Namespace() != namespace
    ensures m.Start(batch).Ready(namespace) == m.Ready(namespace)
  {
    var t := m.Start(batch);
    assert t.Live() == m.Live();
    forall n | n in m.Live() && m.ops[n].Namespace() == namespace ensures t.IsReady(n) <==> m.IsReady(n) {
      assert n !in batch;
    }
  }

  lemma {:induction false} StartTwice(m: Sched, a: set<OpUri>, b: set<OpUri>)
    ensures m.Start(a).Start(b) == m.Start(a + b)
  {
    assert m.started + a + b == m.started + (a + b);
  }

  /** The batch started so far takes everything ready from the namespaces in `full`, and leaves something ready
      in the others that have been handled. */
  ghost predicate Batch(m: Sched, batch: set<OpUri>, done: set<string>, full: bool) {
    && batch <= m.AllReady()
    && (forall n | n in batch :: m.ops[n].Namespace() in done)
    && (full ==> forall n | n in m.AllReady() && m.ops[n].Namespace() in done :: n in batch)
    && (!full ==> batch != m.AllReady() && exists n :: n in m.AllReady() && m.ops[n].Namespace() in done && n !in batch)
  }

  /** One more namespace, of which `order` was started. */
  lemma {:induction false} BatchMore(
    m: Sched, batch: set<OpUri>, done: set<string>, full: bool, namespace: string, order: seq<OpUri>)
    requires Batch(m, batch, done, full) && namespace !in done
    requires NoDup(order) && Elements(order) <= m.Ready(namespace)
    ensures Batch(m, batch + Elements(order), done + {namespace}, full && |order| == |m.Ready(namespace)|)
    ensures batch + Elements(order) <= m.AllReady()
  {
    NoDupElements(order);
    var mine, ready, more := Elements(order), m.Ready(namespace), batch + Elements(order);
    assert forall n :: n in ready <==> n in m.AllReady() && m.ops[n].Namespace() == namespace;
    hide Elements, NoDup, Sched.Ready, Sched.AllReady;
    if !full {
      var n :| n in m.AllReady() && m.ops[n].Namespace() in done && n !in batch;
      assert n !in more;
    } else if |mine| == |ready| {
      SameSizeSubset(mine, ready);
    } else {
      assert mine != ready;
      var n :| n in ready && n !in mine;
      assert n !in more;
    }
  }

  lemma {:induction false} BatchEmpty(m: Sched)
    ensures m == m.Start({}) && Batch(m, {}, {}, true)
  {
  }

  lemma {:induction false} BatchReady(m: Sched, batch: set<OpUri>, done: set<string>, full: bool, namespace: string)
    requires Batch(m, batch, done, full) && namespace !in done
    ensures m.Start(batch).Ready(namespace) == m.Ready(namespace)
  {
    ReadyAfterStart(m, batch, namespace);
  }

  /** When every namespace with something ready has been handled, the batch is all that was ready or falls short. */
  lemma {:induction false} BatchComplete(m: Sched, batch: set<OpUri>, done: set<string>, full: bool)
    requires Batch(m, batch, done, full) && forall ns :: ns in done <==> m.Ready(ns) != {}
    ensures batch <= m.AllReady() && (full <==> batch == m.AllReady())
  {
    if full {
      forall n | n in m.AllReady() ensures n in batch {
        assert n in m.Ready(m.ops[n].Namespace());
      }
    }
  }

  lemma {:induction false} FinishedAndResumed(s: Exec, u: Exec, t: Exec, n: OpUri, state: UpdateState)
    requires u == s.(sched := s.sched.Finish(n, state))
    requires if u.sched.Live() == {} then t == u.(phase := FinishedSuccessfully)
             else exists batch: set<OpUri> :: ResumeTo(u, t, batch)
    ensures FinishOf(s, t, n, state)
  {
    hide ResumeTo, Sched.Finish, Sched.Live;
  }

  // ----- Supplies -----

  ghost predicate SuppliesNamespace(buckets: map<string, Bucket>, namespace: string) {
    namespace in buckets && buckets[namespace].capacity > 0
  }

  lemma {:induction false} NamespaceSupplied(buckets: map<string, Bucket>, m: Sched, namespace: string, smooth: bool)
    ensures (smooth && forall n | n in m.ops :: SuppliesNamespace(buckets, m.ops[n].Namespace())) &&
              m.Ready(namespace) != {}
            ==> SuppliesNamespace(buckets, namespace)
  {
  }

  /** Serving a request takes no namespace its bucket, and grants something after a rest. */
  lemma {:induction false} ServingSupplies(buckets: map<string, Bucket>, namespace: string, r: Request)
    requires namespace in buckets ==> buckets[namespace].Valid()
    ensures namespace in buckets ==>
              forall ns :: SuppliesNamespace(buckets[namespace := Served(buckets[namespace], r)], ns) <==>
                  SuppliesNamespace(buckets, ns)
    ensures SuppliesNamespace(buckets, namespace) && r.n > 0 && Refills(buckets[namespace], r) ==>
              Grant(buckets[namespace], r) > 0
  {
  }

  lemma {:induction false} SomethingStarted(order: seq<OpUri>)
    ensures order != [] ==> Elements(order) != {}
  {
    if order != [] {
      assert order[0] in Elements(order);
    }
  }

  lemma {:induction false} SomeNamespaceReady(m: Sched)
    ensures m.AllReady() != {} ==> exists ns :: m.Ready(ns) != {}
  {
    if n :| n in m.AllReady() {
      assert n in m.Ready(m.ops[n].Namespace());
    }
  }

  class ChangesetExecutor {
    var phase: Phase
    var timer: bool
    const changeset: Changeset
    const limiter: RateLimiter
    /** Whether calls to other actors always succeed. */
    const smooth: bool

    constructor (changeset: Changeset, limiter: RateLimiter, smooth: bool)
      ensures phase == Idle && !timer && this.changeset == changeset && this.limiter == limiter && this.smooth == smooth
    {
      phase, timer := Idle, false;
      this.changeset, this.limiter, this.smooth := changeset, limiter, smooth;
    }

    /** Every namespace of the changeset has a bucket that is not always empty. */
    ghost predicate Supplied()
      reads changeset, limiter
    {
      smooth && forall n | n in changeset.model.ops :: SuppliesNamespace(limiter.buckets,
          changeset.model.ops[n].Namespace())
    }

    /** Whether an operation's update is in progress. */
    predicate IsRunning(n: OpUri)
      requires Valid() && (phase == Idle || phase == Processing) && n in changeset.live
      reads this, changeset, limiter
      ensures IsRunning(n) <==> n in changeset.model.Running()
    {
      var us := changeset.arena[n].updates;
      assert us == [changeset.model.ops[n].(state := StateOf(changeset.model, n))];
      us[0].state == InProgress
    }

    ghost function View(): Exec
      reads this, changeset
    {
      Exec(phase, changeset.model, timer)
    }

    ghost predicate Valid()
      reads this, changeset, limiter
    {
      && limiter.Valid()
      && (phase == Idle || phase == Processing ==> changeset.Valid())
    }

    /** Starting the updaters of a batch; the calls to the supervisor may fail. */
    method StartResourceUpdates(updates: seq<ResourceUpdate>) returns (ok: bool)
      ensures smooth ==> ok
    {
      for i := 0 to |updates|
      {
        var failed := Trouble(smooth);
        if failed {
          return false;
        }
      }
      return true;
    }

    /** One namespace of a `resume` pass: as many of its ready updates are started as tokens are granted. After a rest,
        more than a second has passed since the bucket was filled. */
    method ResumeNamespace(namespace: string, available: int, rested: bool)
      returns (error: bool, granted: int, ghost order: seq<OpUri>)
      requires Valid() && changeset.Valid() && available == |changeset.model.Ready(namespace)|
      modifies changeset, limiter
      ensures limiter.Valid() && changeset.Valid()
      ensures NoDup(order) && Elements(order) <= old(changeset.model.Ready(namespace))
      ensures changeset.model == old(changeset.model).Start(Elements(order))
      ensures !error ==> 0 <= granted == |order| <= available
      ensures old(Supplied()) && available > 0 ==> !error && Supplied() && (rested ==> order != [])
    {
      hide Structure;
      order, granted := [], 0;
      assert Elements(order) == {};
      assert changeset.model == changeset.model.Start({});
      var checkAt: real, refillAt: real := *, *;
      if rested && namespace in limiter.buckets && checkAt - limiter.buckets[namespace].lastRefill <= 1.0 {
        checkAt := limiter.buckets[namespace].lastRefill + 2.0;
      }
      var failed := Trouble(smooth);
      if failed {
        return true, 0, [];
      }
      NamespaceSupplied(limiter.buckets, changeset.model, namespace, smooth);
      ghost var request := Request(available, checkAt, refillAt);
      ServingSupplies(limiter.buckets, namespace, request);
      var tokens := limiter.RequestTokens(namespace, Request(available, checkAt, refillAt));
      if tokens.None? {
        return true, 0, [];
      }
      granted := tokens.value;
      var updates;
      updates, order := changeset.GetExecutableUpdates(namespace, granted);
      var ok := StartResourceUpdates(updates);
      error := !ok;
    }

    /** Asks for tokens namespace by namespace and starts what they allow, until all are handled or an error. */
    method StartBatches(rested: bool) returns (error: bool, finished: bool, ghost batch: set<OpUri>)
      requires limiter.Valid() && changeset.Valid()
      modifies changeset, limiter
      ensures limiter.Valid() && changeset.Valid()
      ensures changeset.model == old(changeset.model).Start(batch) && batch <= old(changeset.model.AllReady())
      ensures !error ==> (finished <==> batch == old(changeset.model.AllReady()))
      ensures old(Supplied()) ==> !error && Supplied()
      ensures old(Supplied()) && rested && old(changeset.model.AllReady()) != {} ==> batch != {}
    {
      hide Structure, Batch, Sched.Ready, Sched.AllReady, Sched.Start, Elements, NoDup;
      ghost var m := changeset.model;
      var available := changeset.AvailableExecutableUpdates();
      var todo := available.Keys;
      ghost var done: set<string> := {};
      error, finished, batch := false, true, {};
      BatchEmpty(m);
      while todo != {}
        invariant limiter.Valid() && changeset.Valid()
        invariant todo !! done && todo + done == available.Keys
        invariant changeset.model == m.Start(batch) && Batch(m, batch, done, finished)
        invariant old(Supplied()) ==> Supplied() && (rested && done != {} ==> batch != {})
        decreases todo
      {
        var ns :| ns in todo;
        todo := todo - {ns};
        BatchReady(m, batch, done, finished, ns);
        ghost var order;
        var n;
        error, n, order := ResumeNamespace(ns, available[ns], rested);
        SomethingStarted(order);
        BatchMore(m, batch, done, finished, ns, order);
        StartTwice(m, batch, Elements(order));
        batch, done := batch + Elements(order), done + {ns};
        if error {
          return;
        }
        if n < available[ns] {
          finished := false;
        }
      }
      BatchComplete(m, batch, done, finished);
      SomeNamespaceReady(m);
    }

    /** Starts what is ready as far as the tokens go, and comes back after a second when they did not suffice. */
    method Resume(rested: bool) returns (ghost batch: set<OpUri>)
      requires Valid() && (phase == Idle || phase == Processing)
      modifies this, changeset, limiter
      ensures Valid() && ResumeTo(old(View()), View(), batch)
      ensures old(Supplied()) ==> Supplied() && phase == Processing
      ensures old(Supplied()) && rested && old(changeset.model.AllReady()) != {} ==> batch != {}
    {
      hide Structure;
      var error, finished;
      error, finished, batch := StartBatches(rested);
      if error {
        phase := FinishedWithError;
        return;
      }
      phase := Processing;
      timer := timer || !finished;
    }

    /** Receives the changeset; an empty one is an error. */
    method Start()
      requires Valid() && phase == Idle
      modifies this, changeset, limiter
      ensures Valid() && StartStep(old(View()), View())
      ensures old(Supplied()) && old(changeset.model.Live()) != {} ==> Supplied() && phase == Processing
    {
      hide Structure;
      var failed := Trouble(smooth);
      if failed {
        // The resolve cache could not be started.
        phase := FinishedWithError;
        return;
      }
      var complete := changeset.IsComplete();
      if complete {
        phase := FinishedWithError;
        return;
      }
      var now := *;
      ghost var batch := Resume(now);
    }

    /** The rate-limit timer fires. */
    method TimerFired(rested: bool) returns (ghost batch: set<OpUri>)
      requires Valid() && phase == Processing && timer
      modifies this, changeset, limiter
      ensures Valid() && TimerStep(old(View()), View()) && ResumeTo(old(View()).(timer := false), View(), batch)
      ensures old(Supplied()) ==> Supplied() && phase == Processing
      ensures old(Supplied()) && rested && old(changeset.model.AllReady()) != {} ==> batch != {}
    {
      timer := false;
      batch := Resume(rested);
    }

    /** Looks for the running update with this URI, in whatever order the map yields the groups. */
    method FindRunning(uri: FormaeUri) returns (found: Option<ResourceUpdate>)
      requires changeset.Valid()
      ensures found.None? <==> forall n | n in changeset.model.Running() :: n.uri != uri
      ensures found.Some? ==>
                && found.value.Node() in changeset.model.ops
                && found.value.Node() in changeset.model.Running() && found.value.Node().uri == uri
                && found.value == changeset.model.ops[found.value.Node()].(state := InProgress)
    {
      ghost var m := changeset.model;
      assert m.Running() <= m.Live() && forall n | n in m.ops :: m.ops[n].Node() == n;
      hide Structure;
      var todo := changeset.live;
      while todo != {}
        invariant todo <= changeset.live
        invariant forall n | n in changeset.live - todo && n in m.Running() :: n.uri != uri
        decreases todo
      {
        var n :| n in todo;
        todo := todo - {n};
        var us := changeset.arena[n].updates;
        assert us == [m.ops[n].(state := StateOf(m, n))];
        for i := 0 to |us|
          invariant i > 0 && n in m.Running() ==> n.uri != uri
        {
          if us[i].Uri() == uri && us[i].state == InProgress {
            return Some(us[i]);
          }
        }
      }
      return None;
    }

    /** An updater reports that it is done. */
    method ResourceUpdateFinished(uri: FormaeUri, state: UpdateState)
      requires Valid() && phase == Processing && state in {Success, Failed, Rejected, InProgress}
      modifies this, changeset, limiter
      ensures Valid() && FinishStep(old(View()), View(), uri, state)
      ensures old(Supplied()) ==> Supplied() && (phase == Processing || phase == FinishedSuccessfully)
    {
      hide Structure, Sched.Inv, FinishOf, Changeset.Valid;
      var found := FindRunning(uri);
      if found.None? {
        return;
      }
      var finished := found.value.(state := state);
      ghost var n, s := finished.Node(), View();
      Settle(finished);
      ghost var u := View();
      EndOrResume();
      FinishedAndResumed(s, u, View(), n, state);
    }

    /** Writes the reported state and updates the pipeline; the group of a running update is always found. */
    method Settle(finished: ResourceUpdate)
      requires changeset.Valid() && finished.state in {Success, Failed, Rejected, InProgress}
      requires finished.Node() in changeset.model.Running() && finished.Node() in changeset.model.ops
      requires finished == changeset.model.ops[finished.Node()].(state := finished.state)
      modifies changeset
      ensures changeset.Valid() && changeset.model == old(changeset.model).Finish(finished.Node(), finished.state)
    {
      hide Structure, Sched.Inv;
      changeset.SetState(finished);
      var result, _ := changeset.UpdatePipeline(finished);
      if result.None? {
        assert false;
      }
    }

    method EndOrResume()
      requires Valid() && phase == Processing
      modifies this, changeset, limiter
      ensures Valid()
      ensures if old(changeset.model.Live()) == {} then View() == old(View()).(phase := FinishedSuccessfully)
              else exists batch: set<OpUri> :: ResumeTo(old(View()), View(), batch)
      ensures old(Supplied()) ==> Supplied() && (phase == Processing || phase == FinishedSuccessfully)
    {
      hide Structure, Sched.Inv, Sched.AllReady;
      var complete := changeset.IsComplete();
      if complete {
        phase := FinishedSuccessfully;
      } else {
        var now := *;
        ghost var batch := Resume(now);
      }
    }
  }
}
