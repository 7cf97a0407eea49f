/** What the job protocol promises over every run, across every reconnect. */
module SessionTheorems {
  import opened SessionState
  import opened SessionProtocol
  import opened SessionInvariants

  lemma ReachableInv(w: World)
    requires Reachable(w)
    ensures Inv(w)
  {
    var config, run :| ValidFrom(Start(config), run) && w == After(Start(config), run);
    StartInv(config);
    RunKeepsInv(Start(config), run);
  }

  lemma {:induction false} RunSplit(w: World, a: seq<Event>, b: seq<Event>)
    ensures ValidFrom(w, a + b) <==> ValidFrom(w, a) && ValidFrom(After(w, a), b)
    ensures ValidFrom(w, a + b) ==> After(w, a + b) == After(After(w, a), b)
    decreases |a|
  {
    if a == [] {
      assert a + b == b;
    } else {
      assert (a + b)[0] == a[0] && (a + b)[1..] == a[1..] + b;
      if Enabled(w, a[0]) { RunSplit(Step(w, a[0]), a[1..], b); }
    }
  }

  // ---------------------------------------------------------------- slots

  /** Exact slot accounting in every reachable state, and the bound the semaphore is for:
      live workers and retained results together never exceed the advertised concurrency. */
  lemma SlotLedger(w: World)
    requires Reachable(w)
    ensures w.core.held == Owners(w.workers) + |w.core.unacked| + w.overwritten + BeingReleased(w)
    ensures Owners(w.workers) + |w.core.unacked| <= w.core.held <= w.core.capacity
  {
    ReachableInv(w);
  }

  /** A release never finds the semaphore empty: each one frees exactly one slot and
      changes nothing else that survives a reconnect. */
  lemma ReleaseFreesExactlyOne(w: World, e: Event)
    requires Reachable(w) && Enabled(w, e) && (e.FreeSlot? || e.Abandon?)
    ensures w.core.held > 0
    ensures Step(w, e).core == w.core.(held := w.core.held - 1)
  {
    ReachableInv(w);
    match e
    case FreeSlot => FreeKeepsInv(w);
    case Abandon(k) => AbandonKeepsInv(w, k);
  }

  // A run in which no job is admitted while a worker for it still holds a slot.
  predicate CleanStep(w: World, e: Event) {
    e.Assign? && w.Connected() && AdmissionOf(w, e.job).Admitted? ==>
      forall k :: 0 <= k < |w.workers| && w.workers[k].job == e.job.jobId ==> w.workers[k].fate != Live
  }

  predicate CleanFrom(w: World, run: seq<Event>)
    requires ValidFrom(w, run)
    decreases |run|
  {
    run == [] || (CleanStep(w, run[0]) && CleanFrom(Step(w, run[0]), run[1..]))
  }

  ghost predicate SoleClaim(w: World, k: int)
    requires 0 <= k < |w.workers|
  {
    var me := w.workers[k];
    && (me.fate == Live ==> me.job !in w.core.unacked)
    && (me.fate == Live ==> forall l :: 0 <= l < |w.workers| && l != k && w.workers[l].job == me.job ==>
        w.workers[l].fate != Live)
    && (me.InRoster() ==> me.job in w.core.inFlight && w.core.inFlight[me.job] == me.epoch)
  }

  ghost predicate Clean(w: World) {
    w.overwritten == 0 && forall k :: 0 <= k < |w.workers| ==> SoleClaim(w, k)
  }

  lemma CleanStepKeeps(w: World, e: Event)
    requires Inv(w) && Clean(w) && Enabled(w, e) && CleanStep(w, e)
    ensures Clean(Step(w, e))
  {
    if Speaks(e) {
      CleanSpeech(w, e);
    } else if e.Clear? {
      CleanClear(w, e.worker);
    } else if e.Retain? {
      CleanRetain(w, e.worker);
    } else if MovesOn(e) {
      CleanMove(w, e);
    } else if e.Assign? {
      CleanAssign(w, e);
    } else if e.ResultAck? {
      CleanAck(w, e);
    } else {
      CleanSession(w, e);
    }
  }

  lemma CleanAck(w: World, e: Event)
    requires Clean(w) && Enabled(w, e) && e.ResultAck?
    ensures Clean(Step(w, e))
  {
    var w' := Step(w, e);
    forall k | 0 <= k < |w'.workers| ensures SoleClaim(w', k) { assert SoleClaim(w, k); }
  }

  lemma CleanSession(w: World, e: Event)
    requires Clean(w) && Enabled(w, e) && !Speaks(e) && !MovesOn(e) && !e.Assign? && !e.ResultAck? && !e.Clear?
    ensures Clean(Step(w, e))
  {
    CleanApart(w, Step(w, e));
  }

  lemma CleanSpeech(w: World, e: Event)
    requires Inv(w) && Clean(w) && Enabled(w, e) && Speaks(e)
    ensures Clean(Step(w, e))
  {
    assert WorkerOk(w, e.worker);
    CleanWorker(w, Step(w, e), e.worker);
  }

  lemma CleanMove(w: World, e: Event)
    requires Inv(w) && Clean(w) && Enabled(w, e) && MovesOn(e) && !e.Retain?
    ensures Clean(Step(w, e))
  {
    assert WorkerOk(w, e.worker);
    CleanWorker(w, Step(w, e), e.worker);
  }

  lemma CleanApart(w: World, w': World)
    requires Clean(w) && w'.workers == w.workers && w'.overwritten == w.overwritten
    requires w'.core.unacked == w.core.unacked && w'.core.inFlight == w.core.inFlight
    ensures Clean(w')
  {
    forall k | 0 <= k < |w'.workers| ensures SoleClaim(w', k) { assert SoleClaim(w, k); }
  }

  lemma CleanAssign(w: World, e: Event)
    requires Inv(w) && Clean(w) && Enabled(w, e) && e.Assign? && CleanStep(w, e)
    ensures Clean(Step(w, e))
  {
    var w' := Step(w, e);
    forall k | 0 <= k < |w'.workers| ensures SoleClaim(w', k) {
      if k < |w.workers| { assert SoleClaim(w, k) && WorkerOk(w, k); }
    }
  }

  lemma CleanWorker(w: World, w': World, k: nat)
    requires Clean(w) && k < |w.workers| && |w'.workers| == |w.workers| && w'.overwritten == w.overwritten
    requires w'.core.unacked == w.core.unacked && w'.core.inFlight == w.core.inFlight
    requires w'.workers == w.workers[k := w'.workers[k]]
    requires SameJob(w.workers[k], w'.workers[k])
    requires w'.workers[k].fate == Live ==> w.workers[k].fate == Live
    requires w'.workers[k].InRoster() ==> w.workers[k].InRoster()
    ensures Clean(w')
  {
    forall l | 0 <= l < |w'.workers| ensures SoleClaim(w', l) { assert SoleClaim(w, l); }
  }

  lemma CleanClear(w: World, k: nat)
    requires Inv(w) && Clean(w) && At(w, k, Returned)
    ensures Clean(RosterCleared(w, k))
  {
    var w' := RosterCleared(w, k);
    assert SoleClaim(w, k) && WorkerOk(w, k);
    forall l | 0 <= l < |w'.workers| ensures SoleClaim(w', l) { assert SoleClaim(w, l) && WorkerOk(w, l); }
  }

  lemma CleanRetain(w: World, k: nat)
    requires Inv(w) && Clean(w) && At(w, k, Retaining)
    ensures Clean(ResultRetained(w, k))
  {
    var w' := ResultRetained(w, k);
    assert SoleClaim(w, k) && WorkerOk(w, k);
    forall l | 0 <= l < |w'.workers| ensures SoleClaim(w', l) { assert SoleClaim(w, l); }
  }

  lemma {:induction false} CleanRunKeeps(w: World, run: seq<Event>)
    requires Inv(w) && Clean(w) && ValidFrom(w, run) && CleanFrom(w, run)
    ensures Clean(After(w, run))
    decreases |run|
  {
    if run != [] {
      StepKeepsInv(w, run[0]);
      CleanStepKeeps(w, run[0]);
      CleanRunKeeps(Step(w, run[0]), run[1..]);
    }
  }

  /** Without cross-generation re-admission the ledger closes with no leak, and the roster
      a hello reports is complete: every worker still executing is in it under its epoch. */
  lemma CleanRunsBalance(config: Config, run: seq<Event>)
    requires ValidFrom(Start(config), run) && CleanFrom(Start(config), run)
    ensures var w := After(Start(config), run);
            && w.overwritten == 0
            && w.core.held == Owners(w.workers) + |w.core.unacked| + BeingReleased(w)
            && forall k :: 0 <= k < |w.workers| && w.workers[k].InRoster() ==>
                 w.workers[k].job in w.core.inFlight && w.core.inFlight[w.workers[k].job] == w.workers[k].epoch
  {
    StartInv(config);
    RunKeepsInv(Start(config), run);
    CleanRunKeeps(Start(config), run);
    var w := After(Start(config), run);
    forall k | 0 <= k < |w.workers| && w.workers[k].InRoster()
      ensures w.workers[k].job in w.core.inFlight && w.core.inFlight[w.workers[k].job] == w.workers[k].epoch
    {
      assert SoleClaim(w, k);
    }
  }

  /** An overwritten slot is never given back: whatever happens later, at least that many
      slots stay held, so a drain that waits for zero can only end at its deadline. */
  lemma {:induction false} OverwrittenSlotsAreLost(w: World, run: seq<Event>)
    requires Inv(w) && ValidFrom(w, run)
    ensures After(w, run).overwritten >= w.overwritten
    ensures After(w, run).core.held >= w.overwritten
    decreases |run|
  {
    RunKeepsInv(w, run);
    if run != [] {
      StepKeepsInv(w, run[0]);
      OverwrittenSlotsAreLost(Step(w, run[0]), run[1..]);
    }
  }

  /** The drain watcher's condition means what it is taken to mean. */
  lemma DrainedMeansNothingOutstanding(w: World)
    requires Reachable(w)
    ensures w.core.held == 0 <==>
              && w.core.unacked == map[] && w.overwritten == 0 && BeingReleased(w) == 0
              && forall k :: 0 <= k < |w.workers| ==> w.workers[k].fate != Live
  {
    ReachableInv(w);
    OwnersZero(w.workers);
    assert |w.core.unacked| == 0 <==> w.core.unacked == map[];
  }

  /** While a connection drains no new work is taken on: until the next connection, the
      number of held slots never rises and no worker is added. */
  lemma {:induction false} DrainingOnlyShrinks(w: World, run: seq<Event>)
    requires Inv(w) && ValidFrom(w, run) && |w.gens| > 0 && (w.Current().draining || !w.Current().open)
    requires forall e :: e in run ==> !e.Connect?
    ensures After(w, run).core.held <= w.core.held
    ensures |After(w, run).workers| == |w.workers|
    decreases |run|
  {
    if run != [] {
      StepKeepsInv(w, run[0]);
      DrainingStep(w, run[0]);
      DrainingOnlyShrinks(Step(w, run[0]), run[1..]);
    }
  }

  lemma DrainingStep(w: World, e: Event)
    requires Inv(w) && Enabled(w, e) && |w.gens| > 0 && (w.Current().draining || !w.Current().open) && !e.Connect?
    ensures var w' := Step(w, e);
            && |w'.gens| > 0 && (w'.Current().draining || !w'.Current().open)
            && w'.core.held <= w.core.held && |w'.workers| == |w.workers|
  {
    if Speaks(e) {
      DrainingSpeech(w, e);
    } else if MovesOn(e) {
      DrainingMove(w, e);
    }
  }

  lemma DrainingSpeech(w: World, e: Event)
    requires Enabled(w, e) && |w.gens| > 0 && Speaks(e)
    ensures var w' := Step(w, e);
            && |w'.gens| == |w.gens| && w'.core == w.core && |w'.workers| == |w.workers|
            && w'.Current() == w.Current().(log := w'.Current().log)
  {
  }

  lemma DrainingMove(w: World, e: Event)
    requires Enabled(w, e) && |w.gens| > 0 && MovesOn(e)
    ensures var w' := Step(w, e);
            && |w'.gens| == |w.gens| && w'.core.held <= w.core.held && |w'.workers| == |w.workers|
            && w'.Current() == w.Current().(registry := w'.Current().registry)
  {
  }

  // ---------------------------------------------------------------- results

  // Some step of the run retains a result for this job.
  predicate RetainedAgain(w: World, run: seq<Event>, id: JobId)
    requires ValidFrom(w, run)
    decreases |run|
  {
    run != [] && ((run[0].Retain? && w.workers[run[0].worker].job == id)
                  || RetainedAgain(Step(w, run[0]), run[1..], id))
  }

  lemma RetainedStep(w: World, e: Event, id: JobId)
    requires Enabled(w, e) && id in w.core.unacked && e != ResultAck(id)
    ensures id in Step(w, e).core.unacked
    ensures (e.Retain? && w.workers[e.worker].job == id) || Step(w, e).core.unacked[id] == w.core.unacked[id]
  {
  }

  /** A retained result outlives every reconnect: until a ResultAck names its job, the job
      stays in the buffer, and its result changes only if a later one is retained for it. */
  lemma {:induction false} RetainedUntilAcked(w: World, run: seq<Event>, id: JobId)
    requires ValidFrom(w, run) && id in w.core.unacked && ResultAck(id) !in run
    ensures id in After(w, run).core.unacked
    ensures !RetainedAgain(w, run, id) ==> After(w, run).core.unacked[id] == w.core.unacked[id]
    decreases |run|
  {
    if run != [] {
      RetainedStep(w, run[0], id);
      RetainedUntilAcked(Step(w, run[0]), run[1..], id);
    }
  }

  lemma JobKeepsItsName(w: World, e: Event, k: nat)
    requires Enabled(w, e) && k < |w.workers|
    ensures k < |Step(w, e).workers| && SameJob(w.workers[k], Step(w, e).workers[k])
    ensures w.workers[k].phase == Gone ==> Step(w, e).workers[k].phase == Gone
  {
    if Speaks(e) {
      SpeakingKeepsNames(w, e, k);
    } else if MovesOn(e) {
      MovingOnKeepsNames(w, e, k);
    }
  }

  lemma SpeakingKeepsNames(w: World, e: Event, k: nat)
    requires Enabled(w, e) && Speaks(e) && k < |w.workers|
    ensures k < |Step(w, e).workers| && SameJob(w.workers[k], Step(w, e).workers[k])
    ensures w.workers[k].phase == Gone ==> Step(w, e).workers[k].phase == Gone
  {
  }

  lemma MovingOnKeepsNames(w: World, e: Event, k: nat)
    requires Enabled(w, e) && MovesOn(e) && k < |w.workers|
    ensures k < |Step(w, e).workers| && SameJob(w.workers[k], Step(w, e).workers[k])
    ensures w.workers[k].phase == Gone ==> Step(w, e).workers[k].phase == Gone
  {
  }

  /** Within one generation a job has at most one worker that is not gone, and it is
      admitted again only when every earlier worker of that generation has left and its
      work was abandoned or acknowledged. */
  lemma ExecutedOncePerGeneration(w: World, job: Assignment)
    requires Reachable(w) && w.AtRest() && AdmissionOf(w, job).Admitted?
    ensures forall k :: 0 <= k < |w.workers| && w.workers[k].gen == |w.gens| - 1 && w.workers[k].job == job.jobId ==>
              w.workers[k].phase == Gone && w.workers[k].fate in {Abandoned, Acknowledged}
  {
    ReachableInv(w);
    forall k | 0 <= k < |w.workers| && w.workers[k].gen == |w.gens| - 1 && w.workers[k].job == job.jobId
      ensures w.workers[k].phase == Gone && w.workers[k].fate in {Abandoned, Acknowledged}
    {
      assert RegisteredOk(w, k) && KeptOk(w, k) && WorkerOk(w, k);
    }
  }

  lemma OneWorkerPerJob(w: World, k: nat, l: nat)
    requires Reachable(w) && k < |w.workers| && l < |w.workers|
    requires w.workers[k].gen == w.workers[l].gen && w.workers[k].job == w.workers[l].job
    requires w.workers[k].phase != Gone && w.workers[l].phase != Gone
    ensures k == l
  {
    ReachableInv(w);
    assert Distinct(w, k, l);
  }

  /** Every roster entry names a worker, of whatever generation, that has not cleared itself. */
  lemma RosterIsSound(w: World, id: JobId)
    requires Reachable(w) && id in w.core.inFlight
    ensures exists k :: && 0 <= k < |w.workers| && w.workers[k].InRoster()
                        && w.workers[k].job == id && w.workers[k].epoch == w.core.inFlight[id]
  {
    ReachableInv(w);
    assert RosterOk(w, id);
    var k :| Attests(w, id, w.core.inFlight[id], k);
  }

  // ---------------------------------------------------------------- cancellation

  // At step n of the run the receive loop cancelled job `id` of generation g explicitly,
  // and k was the worker registered for it.
  ghost predicate CancelledAtStep(config: Config, run: seq<Event>, n: nat, g: nat, id: JobId, k: nat) {
    && n < |run| && run[n] == CancelJob && ValidFrom(Start(config), run[..n])
    && var w := After(Start(config), run[..n]);
       |w.gens| == g + 1 && w.Current().receiver == Cancelling(id)
       && id in w.Current().registry.cancels && w.Current().registry.cancels[id] == k
  }

  ghost predicate CancelledInRun(config: Config, run: seq<Event>, g: nat, id: JobId, k: nat) {
    exists n: nat :: CancelledAtStep(config, run, n, g, id, k)
  }

  lemma OneStepRun(w: World, e: Event)
    ensures ValidFrom(w, [e]) <==> Enabled(w, e)
    ensures Enabled(w, e) ==> After(w, [e]) == Step(w, e)
  {
    assert [e][1..] == [];
  }

  lemma LastStepOf(w: World, run: seq<Event>, e: Event)
    requires ValidFrom(w, run + [e])
    ensures ValidFrom(w, run) && Enabled(After(w, run), e) && After(w, run + [e]) == Step(After(w, run), e)
  {
    RunSplit(w, run, [e]);
    OneStepRun(After(w, run), e);
  }

  lemma LastStepFrom(w: World, run: seq<Event>, m: nat)
    requires m == |run| - 1 && ValidFrom(w, run) && Inv(w)
    ensures ValidFrom(w, run[..m]) && Enabled(After(w, run[..m]), run[m])
    ensures After(w, run) == Step(After(w, run[..m]), run[m]) && Inv(After(w, run[..m]))
  {
    var before, e := run[..m], run[m];
    assert run == before + [e];
    LastStepOf(w, before, e);
    RunKeepsInv(w, before);
  }

  lemma LastStep(config: Config, run: seq<Event>)
    requires run != [] && ValidFrom(Start(config), run)
    ensures var m := |run| - 1;
            && ValidFrom(Start(config), run[..m])
            && Enabled(After(Start(config), run[..m]), run[m])
            && After(Start(config), run) == Step(After(Start(config), run[..m]), run[m])
            && Inv(After(Start(config), run[..m]))
  {
    StartInv(config);
    LastStepFrom(Start(config), run, |run| - 1);
  }

  lemma CancelledEarlier(config: Config, run: seq<Event>, g: nat, id: JobId, k: nat)
    requires run != [] && CancelledInRun(config, run[..|run| - 1], g, id, k)
    ensures CancelledInRun(config, run, g, id, k)
  {
    var m := |run| - 1;
    var n: nat :| CancelledAtStep(config, run[..m], n, g, id, k);
    assert run[..m][..n] == run[..n];
    assert CancelledAtStep(config, run, n, g, id, k);
  }

  // An explicit mark on a job that still has a worker was put there for that worker.
  lemma {:induction false} MarkedWhileRegistered(config: Config, run: seq<Event>, k: nat)
    requires ValidFrom(Start(config), run)
    requires var w := After(Start(config), run);
             k < |w.workers| && w.workers[k].phase != Gone && w.workers[k].gen < |w.gens|
             && w.workers[k].job in w.gens[w.workers[k].gen].registry.explicit
    ensures var me := After(Start(config), run).workers[k]; CancelledInRun(config, run, me.gen, me.job, k)
    decreases |run|
  {
    if run == [] { return; }
    var m := |run| - 1;
    LastStep(config, run);
    var w := After(Start(config), run[..m]);
    var w' := After(Start(config), run);
    var me := w'.workers[k];
    StepKeepsInv(w, run[m]);
    if me.gen < |w.gens| && me.job in w.gens[me.gen].registry.explicit {
      MarkedBefore(w, run[m], k);
      MarkedWhileRegistered(config, run[..m], k);
      CancelledEarlier(config, run, me.gen, me.job, k);
    } else {
      MarkedNow(w, run[m], me.gen, me.job);
      var l := w.Current().registry.cancels[me.job];
      assert RegistrationOk(w, me.gen, me.job);
      assert Distinct(w', k, l);
      assert CancelledAtStep(config, run, m, me.gen, me.job, k);
    }
  }

  lemma MarkedNow(w: World, e: Event, g: nat, id: JobId)
    requires Inv(w) && Enabled(w, e) && g < |Step(w, e).gens| && id in Step(w, e).gens[g].registry.explicit
    requires g < |w.gens| ==> id !in w.gens[g].registry.explicit
    ensures e.CancelJob? && |w.gens| == g + 1 && w.Current().receiver == Cancelling(id)
            && id in w.Current().registry.cancels
    ensures Step(w, e).workers == w.workers
  {
    if Speaks(e) {
      SpeakingMarksNone(w, e, g);
    } else if MovesOn(e) {
      MovingOnMarksNone(w, e, g);
    }
  }

  lemma SpeakingMarksNone(w: World, e: Event, g: nat)
    requires Enabled(w, e) && Speaks(e)
    ensures |Step(w, e).gens| == |w.gens|
    ensures g < |w.gens| ==> Step(w, e).gens[g].registry.explicit <= w.gens[g].registry.explicit
  {
  }

  lemma MovingOnMarksNone(w: World, e: Event, g: nat)
    requires Enabled(w, e) && MovesOn(e)
    ensures |Step(w, e).gens| == |w.gens|
    ensures g < |w.gens| ==> Step(w, e).gens[g].registry.explicit <= w.gens[g].registry.explicit
  {
  }

  // Only an admission brings a worker, and it brings the worker of the job it admits.
  lemma Newcomer(w: World, e: Event, k: nat)
    requires Enabled(w, e) && |w.workers| <= k < |Step(w, e).workers|
    ensures e.Assign? && AdmissionOf(w, e.job).Admitted?
    ensures Step(w, e).workers[k].job == e.job.jobId && Step(w, e).workers[k].gen == |w.gens| - 1
  {
  }

  lemma MarkedJobIsRegistered(w: World, g: nat, id: JobId)
    requires Inv(w) && g < |w.gens| && w.gens[g].open && id in w.gens[g].registry.explicit
    ensures id in w.gens[g].registry.cancels
  {
    assert MarkOk(w, g, id);
    var l :| CancelledWith(w, g, id, l);
    assert RegisteredOk(w, l);
  }

  // A worker admitted just now cannot carry an older mark.
  lemma MarkedBefore(w: World, e: Event, k: nat)
    requires Inv(w) && Enabled(w, e) && k < |Step(w, e).workers|
    requires var me := Step(w, e).workers[k];
             me.phase != Gone && me.gen < |w.gens| && me.job in w.gens[me.gen].registry.explicit
    ensures k < |w.workers| && SameJob(w.workers[k], Step(w, e).workers[k]) && w.workers[k].phase != Gone
  {
    if |w.workers| <= k {
      Newcomer(w, e, k);
      MarkedJobIsRegistered(w, |w.gens| - 1, e.job.jobId);
    } else {
      JobKeepsItsName(w, e, k);
    }
  }

  /** A cancelled result is kept only if the control plane cancelled that job on the very
      connection that admitted it, while its worker was registered.  Teardown alone never
      produces one. */
  lemma {:induction false} CancelledResultsWereAskedFor(config: Config, run: seq<Event>, k: nat)
    requires ValidFrom(Start(config), run)
    requires var w := After(Start(config), run);
             k < |w.workers| && Committed(w.workers[k]) && IsCancelled(w.workers[k].ResultOf())
    ensures var me := After(Start(config), run).workers[k]; CancelledInRun(config, run, me.gen, me.job, k)
    decreases |run|
  {
    if run == [] { return; }
    var m := |run| - 1;
    LastStep(config, run);
    var w := After(Start(config), run[..m]);
    var me := After(Start(config), run).workers[k];
    CommitStep(w, run[m], k);
    assert WorkerOk(w, k);
    if Committed(w.workers[k]) {
      CancelledResultsWereAskedFor(config, run[..m], k);
    } else {
      MarkedWhileRegistered(config, run[..m], k);
    }
    CancelledEarlier(config, run, me.gen, me.job, k);
  }

  // A worker commits to its result when it decides, and from then on keeps it.
  lemma CommitStep(w: World, e: Event, k: nat)
    requires Inv(w) && Enabled(w, e) && k < |Step(w, e).workers|
    requires Committed(Step(w, e).workers[k]) && IsCancelled(Step(w, e).workers[k].ResultOf())
    ensures k < |w.workers| && SameJob(w.workers[k], Step(w, e).workers[k])
    ensures if Committed(w.workers[k]) then IsCancelled(w.workers[k].ResultOf())
            else && w.workers[k].phase == Deciding && w.workers[k].gen < |w.gens|
                 && w.workers[k].job in w.gens[w.workers[k].gen].registry.explicit
  {
    if k < |w.workers| {
      assert WorkerOk(w, k);
      JobKeepsItsName(w, e, k);
    } else {
      Newcomer(w, e, k);
    }
  }

  // What the single sender puts on the wire: the accepted messages, in the order offered.
  ghost function Wire(log: seq<Attempt>): seq<Message> {
    if log == [] then []
    else Wire(log[..|log| - 1]) + if log[|log| - 1].accepted then [log[|log| - 1].message] else []
  }

  lemma {:induction false} WirePosition(log: seq<Attempt>, j: nat)
    requires j < |log| && log[j].accepted
    ensures |Wire(log[..j])| < |Wire(log)| && Wire(log)[|Wire(log[..j])|] == log[j].message
    decreases |log|
  {
    var n := |log| - 1;
    if j < n {
      assert log[..n][..j] == log[..j];
      WirePosition(log[..n], j);
    }
  }

  lemma {:induction false} WireGrows(log: seq<Attempt>, i: nat, j: nat)
    requires i < j <= |log| && log[i].accepted
    ensures |Wire(log[..i])| < |Wire(log[..j])|
    decreases j
  {
    assert log[..j][..j - 1] == log[..j - 1];
    if i < j - 1 { WireGrows(log, i, j - 1); }
  }

  // The i-th attempt answers the cancellation of the result the j-th attempt carries, and
  // was offered since that result's worker was admitted.
  predicate AckOf(w: World, g: nat, i: int, j: int) {
    && g < |w.gens| && 0 <= i < j < |w.gens[g].log|
    && w.gens[g].log[j].message.Result? && 0 <= w.gens[g].log[j].source < |w.workers|
    && w.workers[w.gens[g].log[j].source].admittedAt <= i
    && w.gens[g].log[i].message.CancelAck? && w.gens[g].log[i].message.jobId == w.gens[g].log[j].message.result.jobId
  }

  /** Whenever a cancelled result is offered to the connection whose worker produced it, a
      CancelAck for the job was offered before, since that worker was admitted.  Every such
      CancelAck that was accepted is earlier on the wire than the result, if that was too. */
  lemma CancelAckGoesFirst(w: World, g: nat, j: nat)
    requires Reachable(w) && g < |w.gens| && j < |w.gens[g].log| && CancelledAttempt(w, g, w.gens[g].log[j])
    ensures exists i :: AckOf(w, g, i, j)
    ensures var log := w.gens[g].log;
            forall i :: AckOf(w, g, i, j) && log[i].accepted && log[j].accepted ==>
              var p, q := |Wire(log[..i])|, |Wire(log[..j])|;
              p < q < |Wire(log)| && Wire(log)[p] == log[i].message && Wire(log)[q] == log[j].message
  {
    ReachableInv(w);
    var log := w.gens[g].log;
    assert AttemptOk(w, g, j);
    var from := w.workers[log[j].source].admittedAt;
    var i :| from <= i < j < |log| && log[i].message.CancelAck? && log[i].message.jobId == log[j].message.result.jobId;
    assert AckOf(w, g, i, j);
    forall i | AckOf(w, g, i, j) && log[i].accepted && log[j].accepted
      ensures var p, q := |Wire(log[..i])|, |Wire(log[..j])|;
              p < q < |Wire(log)| && Wire(log)[p] == log[i].message && Wire(log)[q] == log[j].message
    {
      WirePosition(log, i);
      WirePosition(log, j);
      WireGrows(log, i, j);
    }
  }

  // ---------------------------------------------------------------- what re-admission costs

  predicate Collides(w: World, e: Event) {
    Enabled(w, e) && e.Retain? && w.workers[e.worker].job in w.core.unacked
  }

  ghost function Collisions(w: World, run: seq<Event>): nat
    requires ValidFrom(w, run)
    decreases |run|
  {
    if run == [] then 0 else (if Collides(w, run[0]) then 1 else 0) + Collisions(Step(w, run[0]), run[1..])
  }

  lemma {:induction false} CollisionsAreCounted(w: World, run: seq<Event>)
    requires ValidFrom(w, run)
    ensures After(w, run).overwritten == w.overwritten + Collisions(w, run)
    decreases |run|
  {
    if run != [] { CollisionsAreCounted(Step(w, run[0]), run[1..]); }
  }

  /** An idle session has given every slot back exactly when no result was ever retained
      over one still waiting for its acknowledgement. */
  lemma IdleIsEmptyIffNothingCollided(config: Config, run: seq<Event>)
    requires ValidFrom(Start(config), run)
    requires var w := After(Start(config), run);
             w.core.unacked == map[] && BeingReleased(w) == 0 && forall k :: 0 <= k < |w.workers| ==>
                 w.workers[k].fate != Live
    ensures After(Start(config), run).core.held == 0 <==> Collisions(Start(config), run) == 0
  {
    StartInv(config);
    RunKeepsInv(Start(config), run);
    OwnersZero(After(Start(config), run).workers);
    CollisionsAreCounted(Start(config), run);
  }

  lemma ReachStep(w: World, e: Event)
    requires Reachable(w) && Enabled(w, e)
    ensures Reachable(Step(w, e))
  {
    var config, run :| ValidFrom(Start(config), run) && w == After(Start(config), run);
    RunSplit(Start(config), run, [e]);
    assert ValidFrom(w, [e]) && After(w, [e]) == Step(w, e);
  }

  lemma AdmittedAndLost(config: Config, job: Assignment) returns (w: World)
    requires job.orgId == config.orgId && job.registrationId == config.registrationId
    requires job.capability in config.capabilities && config.maxConcurrentJobs >= 2
    ensures Reachable(w) && |w.gens| == 1 && !w.Connected() && w.config == config
    ensures w.workers == [Worker(0, job.jobId, job.epoch, Acking, Live, Failure(Cancelled), 0)]
    ensures w.core.held == 1 && w.core.capacity == config.maxConcurrentJobs && w.core.unacked == map[]
            && w.core.inFlight == map[job.jobId := job.epoch]
  {
    w := Start(config);
    assert ValidFrom(w, []) && w == After(w, []);
    ReachStep(w, Connect); w := Step(w, Connect);
    ReachStep(w, Assign(job, true)); w := Step(w, Assign(job, true));
    ReachStep(w, Disconnect); w := Step(w, Disconnect);
  }

  // A job admitted, its connection lost, and the job admitted again on the next one while
  // the first worker is still inside Execute.
  lemma Readmitted(config: Config, job: Assignment) returns (w: World)
    requires job.orgId == config.orgId && job.registrationId == config.registrationId
    requires job.capability in config.capabilities && config.maxConcurrentJobs >= 2
    ensures Reachable(w) && |w.workers| == 2 && |w.gens| == 2 && w.AtRest()
    ensures w.workers[0] == Worker(0, job.jobId, job.epoch, Acking, Live, Failure(Cancelled), 0)
    ensures w.workers[1] == Worker(1, job.jobId, job.epoch, Acking, Live, Failure(Cancelled), 0)
    ensures w.core.held == 2 && w.core.unacked == map[] && w.core.inFlight == map[job.jobId := job.epoch]
  {
    w := AdmittedAndLost(config, job);
    ReachStep(w, Connect); w := Step(w, Connect);
    ReachStep(w, Assign(job, true)); w := Step(w, Assign(job, true));
  }

  lemma Executes(w: World, k: nat) returns (w': World)
    requires Reachable(w) && At(w, k, Acking) && w.AtRest()
    ensures Reachable(w') && w'.AtRest() && |w'.gens| == |w.gens| && w'.core == w.core
    ensures w'.workers == w.workers[k := w.workers[k].(phase := Executing)]
  {
    w' := w;
    ReachStep(w', Announce(k, true)); w' := Step(w', Announce(k, true));
    ReachStep(w', Begin(k, true)); w' := Step(w', Begin(k, true));
  }

  lemma Returns(w: World, k: nat) returns (w': World)
    requires Reachable(w) && At(w, k, Executing) && w.AtRest()
    ensures Reachable(w') && w'.AtRest() && w'.gens == w.gens && w'.core == w.core && At(w', k, Returned)
    ensures w'.workers == w.workers[k := w.workers[k].(phase := Returned, outcome := Payload(""))]
  {
    ReachStep(w, Return(k, Payload(""))); w' := Step(w, Return(k, Payload("")));
  }

  // Worker k runs from admission to the point where it is about to decide.
  lemma RunsToDecide(w: World, k: nat) returns (w': World)
    requires Reachable(w) && At(w, k, Acking) && w.AtRest()
    ensures Reachable(w') && w'.AtRest() && |w'.gens| == |w.gens|
    ensures w'.workers == w.workers[k := w.workers[k].(phase := Deciding, outcome := Payload(""))]
    ensures w'.core == Cleared(w.core, w.workers[k].job)
  {
    w' := Executes(w, k);
    w' := Returns(w', k);
    ReachStep(w', Clear(k)); w' := Step(w', Clear(k));
  }

  lemma DecidesToRetain(w: World, k: nat) returns (w': World)
    requires Reachable(w) && At(w, k, Deciding) && w.AtRest() && w.workers[k].outcome == Payload("")
    ensures Reachable(w') && w'.AtRest() && At(w', k, Retaining) && |w'.gens| == |w.gens| && w'.core == w.core
    ensures w'.workers == w.workers[k := w.workers[k].(phase := Retaining)]
  {
    ReachStep(w, Decide(k)); w' := Step(w, Decide(k));
  }

  lemma RunsToRetained(w: World, k: nat) returns (w': World)
    requires Reachable(w) && At(w, k, Acking) && w.AtRest()
    ensures Reachable(w') && w'.AtRest() && |w'.gens| == |w.gens|
    ensures w'.workers == w.workers[k := w.workers[k].(phase := Delivering, fate := Kept, outcome := Payload(""))]
    ensures w'.core == Retained(Cleared(w.core, w.workers[k].job), w'.workers[k].ResultOf())
  {
    w' := RunsToDecide(w, k);
    w' := DecidesToRetain(w', k);
    ReachStep(w', Retain(k)); w' := Step(w', Retain(k));
  }

  /** The roster promise is not kept across a re-admission: a worker can be executing on the
      live connection while no roster entry names its job. */
  lemma ReadmissionHidesAWorker(config: Config, job: Assignment) returns (w: World)
    requires job.orgId == config.orgId && job.registrationId == config.registrationId
    requires job.capability in config.capabilities && config.maxConcurrentJobs >= 2
    ensures Reachable(w) && |w.workers| == 2 && w.workers[1].phase == Executing && w.workers[1].gen == |w.gens| - 1
    ensures w.Connected() && w.workers[1].job !in w.core.inFlight
  {
    w := Readmitted(config, job);
    w := RunsToDecide(w, 0);
    w := Executes(w, 1);
  }

  /** Nor is the slot promise: here both results were delivered and the job acknowledged,
      nothing is live or retained, and one slot stays held for good. */
  lemma ReadmissionLeaksASlot(config: Config, job: Assignment) returns (w: World)
    requires job.orgId == config.orgId && job.registrationId == config.registrationId
    requires job.capability in config.capabilities && config.maxConcurrentJobs >= 2
    ensures Reachable(w) && w.core.unacked == map[] && BeingReleased(w) == 0
    ensures forall k :: 0 <= k < |w.workers| ==> w.workers[k].fate != Live
    ensures w.core.held == 1
  {
    w := Readmitted(config, job);
    w := RunsToRetained(w, 0);
    w := RunsToRetained(w, 1);
    var id := job.jobId;
    assert w.core.unacked == map[id := w.workers[1].ResultOf()];
    ReachStep(w, ResultAck(id)); w := Step(w, ResultAck(id));
    ReachStep(w, FreeSlot); w := Step(w, FreeSlot);
  }
}
