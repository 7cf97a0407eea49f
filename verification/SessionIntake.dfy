/** What the receive loop takes in, over every run. */
module SessionIntake {
  import opened SessionState
  import opened SessionProtocol
  import opened SessionInvariants
  import opened SessionTheorems

  // ---------------------------------------------------------------- one assignment

  // The one message an assignment that is not admitted is answered with.
  function Refusal(w: World, job: Assignment): Message
    requires w.Connected()
  {
    if w.Current().draining then IntakeShed
    else if job.jobId in w.Current().registry.cancels || job.jobId in w.core.unacked then JobAck(job.jobId, job.epoch)
    else if job.orgId != w.config.orgId || job.registrationId != w.config.registrationId
    then Result(JobResult(job.jobId, job.epoch, Failure(IdentityMismatch)))
    else if job.capability !in w.config.capabilities
    then Result(JobResult(job.jobId, job.epoch, Failure(UnsupportedCapability)))
    else IntakeShed
  }

  // This session may run the job, and has room for it.
  predicate Welcome(w: World, job: Assignment)
    requires w.Connected()
  {
    && !w.Current().draining && job.jobId !in w.Current().registry.cancels && job.jobId !in w.core.unacked
    && job.orgId == w.config.orgId && job.registrationId == w.config.registrationId
    && job.capability in w.config.capabilities && w.core.held < w.core.capacity
  }

  /** An assignment brings a worker and takes a slot, or is answered with one message and
      changes nothing else. */
  lemma AssignedIff(w: World, job: Assignment, accepted: bool)
    requires Enabled(w, Assign(job, accepted))
    ensures var w', g, n := Step(w, Assign(job, accepted)), |w.gens| - 1, |w.workers|;
            if Welcome(w, job) then
              && w'.workers == w.workers + [w'.workers[n]] && w'.workers[n].gen == g
              && w'.workers[n].job == job.jobId && w'.workers[n].epoch == job.epoch && w'.workers[n].phase == Acking
              && w'.core == w.core.(held := w.core.held + 1, inFlight := w.core.inFlight[job.jobId := job.epoch])
              && w'.gens == w.gens[g := w.gens[g].(registry := w.gens[g].registry.(
                                          cancels := w.gens[g].registry.cancels[job.jobId := n]))]
            else
              w' == w.(gens := w.gens[g := w.gens[g].(
                                log := w.gens[g].log + [Attempt(Refusal(w, job), accepted, NoWorker)])])
  {
    if !Welcome(w, job) {
      var admission := AdmissionOf(w, job);
      assert Answer(admission, job) == [Refusal(w, job)];
      assert Attempts(Answer(admission, job), accepted) == [Attempt(Refusal(w, job), accepted, NoWorker)];
    }
  }

  // ---------------------------------------------------------------- where workers come from

  lemma {:induction false} ConfigStays(w: World, run: seq<Event>)
    requires ValidFrom(w, run)
    ensures After(w, run).config == w.config
    decreases |run|
  {
    if run != [] { ConfigStays(Step(w, run[0]), run[1..]); }
  }

  // The i-th event of the run brought this worker, and was entitled to.
  ghost predicate BroughtAt(config: Config, run: seq<Event>, i: nat, k: nat, worker: Worker) {
    && i < |run| && run[i].Assign? && ValidFrom(Start(config), run[..i])
    && var w, job := After(Start(config), run[..i]), run[i].job;
       && |w.workers| == k && w.AtRest() && worker.gen == |w.gens| - 1
       && worker.job == job.jobId && worker.epoch == job.epoch
       && job.orgId == config.orgId && job.registrationId == config.registrationId
       && job.capability in config.capabilities
       && !w.Current().draining && w.core.held < w.core.capacity
       && job.jobId !in w.Current().registry.cancels && job.jobId !in w.core.unacked
  }

  lemma BroughtEarlier(config: Config, run: seq<Event>, i: nat, k: nat, worker: Worker, now: Worker)
    requires run != [] && BroughtAt(config, run[..|run| - 1], i, k, worker) && SameJob(worker, now)
    ensures BroughtAt(config, run, i, k, now)
  {
    assert run[..|run| - 1][..i] == run[..i];
  }

  lemma BroughtNow(w: World, e: Event, k: nat)
    requires Enabled(w, e) && |w.workers| <= k < |Step(w, e).workers|
    ensures e.Assign? && w.AtRest() && Welcome(w, e.job) && k == |w.workers|
    ensures var me := Step(w, e).workers[k];
            me.gen == |w.gens| - 1 && me.job == e.job.jobId && me.epoch == e.job.epoch
  {
    Newcomer(w, e, k);
    AssignedIff(w, e.job, e.accepted);
  }

  /** Every worker of every run was brought by an assignment that named this session's own
      organisation and registration and a capability it declared, when it was not draining, had a
      slot free and held neither a worker of that connection nor a result for the job. */
  lemma {:induction false} EveryWorkerWasAssigned(config: Config, run: seq<Event>, k: nat)
    requires ValidFrom(Start(config), run) && k < |After(Start(config), run).workers|
    ensures exists i: nat :: BroughtAt(config, run, i, k, After(Start(config), run).workers[k])
    decreases |run|
  {
    if run == [] { return; }
    var m := |run| - 1;
    LastStep(config, run);
    var w, me := After(Start(config), run[..m]), After(Start(config), run).workers[k];
    if k < |w.workers| {
      EveryWorkerWasAssigned(config, run[..m], k);
      var i: nat :| BroughtAt(config, run[..m], i, k, w.workers[k]);
      JobKeepsItsName(w, run[m], k);
      BroughtEarlier(config, run, i, k, w.workers[k], me);
    } else {
      BroughtNow(w, run[m], k);
      ConfigStays(Start(config), run[..m]);
      assert BroughtAt(config, run, m, k, me);
    }
  }

  // ---------------------------------------------------------------- draining

  /** From a drain instruction on, whatever happens until the next connection, an assignment is
      shed: it is answered with the one message and brings no worker. */
  lemma DrainSheds(w: World, run: seq<Event>, job: Assignment, accepted: bool)
    requires Reachable(w) && Enabled(w, Drain) && ValidFrom(Step(w, Drain), run) && Connect !in run
    requires Enabled(After(Step(w, Drain), run), Assign(job, accepted))
    ensures var v := After(Step(w, Drain), run);
            var v', g := Step(v, Assign(job, accepted)), |v.gens| - 1;
            v' == v.(gens := v.gens[g := v.gens[g].(log := v.gens[g].log + [Attempt(IntakeShed, accepted, NoWorker)])])
  {
    DrainStarts(w);
    StaysDraining(Step(w, Drain), run);
    DrainingShedsOne(After(Step(w, Drain), run), job, accepted);
  }

  lemma DrainStarts(w: World)
    requires Reachable(w) && Enabled(w, Drain)
    ensures Inv(Step(w, Drain)) && |Step(w, Drain).gens| > 0 && Step(w, Drain).Current().draining
  {
    ReachableInv(w);
    StepKeepsInv(w, Drain);
  }

  lemma DrainingShedsOne(v: World, job: Assignment, accepted: bool)
    requires Enabled(v, Assign(job, accepted)) && v.Current().draining
    ensures var v', g := Step(v, Assign(job, accepted)), |v.gens| - 1;
            v' == v.(gens := v.gens[g := v.gens[g].(log := v.gens[g].log + [Attempt(IntakeShed, accepted, NoWorker)])])
  {
    AssignedIff(v, job, accepted);
  }

  lemma {:induction false} StaysDraining(w: World, run: seq<Event>)
    requires Inv(w) && ValidFrom(w, run) && Connect !in run
    requires |w.gens| > 0 && (w.Current().draining || !w.Current().open)
    ensures var v := After(w, run); |v.gens| > 0 && (v.Current().draining || !v.Current().open)
    decreases |run|
  {
    if run != [] {
      assert run[0] in run;
      DrainingStep(w, run[0]);
      StepKeepsInv(w, run[0]);
      StaysDraining(Step(w, run[0]), run[1..]);
    }
  }

  // ---------------------------------------------------------------- resending

  // On this connection, and until this pass is over.
  predicate InPass(e: Event) {
    !e.Connect? && !e.Disconnect? && !e.ResendPass? && (e.Resend? ==> e.accepted)
  }

  // The result was offered and accepted since this point of the log.
  ghost predicate SentSince(log: seq<Attempt>, from: nat, result: JobResult) {
    exists j :: from <= j < |log| && log[j].message == Result(result) && log[j].accepted
  }

  ghost predicate ToGo(w: World, from: nat, item: Resent) {
    w.Connected() && (item in w.Current().resending || SentSince(w.Current().log, from, item.result))
  }

  lemma SentGrows(log: seq<Attempt>, longer: seq<Attempt>, from: nat, result: JobResult)
    requires SentSince(log, from, result) && log <= longer
    ensures SentSince(longer, from, result)
  {
    var j :| from <= j < |log| && log[j].message == Result(result) && log[j].accepted;
    assert longer[j] == log[j];
  }

  lemma OtherStepsKeepPass(w: World, e: Event)
    requires Enabled(w, e) && InPass(e) && !e.Resend? && w.Connected()
    ensures Step(w, e).Connected() && Step(w, e).Current().resending == w.Current().resending
    ensures w.Current().log <= Step(w, e).Current().log
  {
  }

  lemma PassStep(w: World, e: Event, from: nat, item: Resent)
    requires Enabled(w, e) && InPass(e) && ToGo(w, from, item) && from <= |w.Current().log|
    ensures ToGo(Step(w, e), from, item) && from <= |Step(w, e).Current().log|
  {
    var log, log' := w.Current().log, Step(w, e).Current().log;
    if !e.Resend? {
      OtherStepsKeepPass(w, e);
      if item !in w.Current().resending { SentGrows(log, log', from, item.result); }
    } else {
      assert log' == log + [Attempt(Result(e.item.result), true, e.item.source)];
      if item in w.Current().resending {
        if item == e.item { assert log'[|log|].message == Result(item.result) && log'[|log|].accepted; }
      } else {
        SentGrows(log, log', from, item.result);
      }
    }
  }

  lemma {:induction false} PassRuns(w: World, run: seq<Event>, from: nat, item: Resent)
    requires ValidFrom(w, run) && (forall e :: e in run ==> InPass(e))
    requires ToGo(w, from, item) && from <= |w.Current().log|
    ensures ToGo(After(w, run), from, item)
    decreases |run|
  {
    if run != [] {
      assert run[0] in run;
      PassStep(w, run[0], from, item);
      PassRuns(Step(w, run[0]), run[1..], from, item);
    }
  }

  /** A pass of the resend loop that is not refused anything has, when it is over, offered every
      result that was retained when it began, and had each accepted. */
  lemma PassResendsEverything(w: World, run: seq<Event>, id: JobId)
    requires Reachable(w) && Enabled(w, ResendPass) && ValidFrom(Step(w, ResendPass), run)
    requires forall e :: e in run ==> InPass(e)
    requires After(Step(w, ResendPass), run).Connected()
             && After(Step(w, ResendPass), run).Current().resending == {}
    requires id in w.core.unacked
    ensures SentSince(After(Step(w, ResendPass), run).Current().log, |w.Current().log|, w.core.unacked[id])
  {
    ReachableInv(w);
    assert RetainedOk(w, id);
    var item := Resent(w.core.unacked[id], w.producer[id]);
    assert item in Step(w, ResendPass).Current().resending;
    PassRuns(Step(w, ResendPass), run, |w.Current().log|, item);
  }
}
