/** When a worker's context is cancelled: who is told to stop, and by what. */
module SessionSignals {
  import opened SessionState
  import opened SessionProtocol
  import opened SessionInvariants
  import opened SessionTheorems

  // This worker's context is cancelled exactly when its connection is gone, the worker is, or
  // the control plane cancelled the job.
  ghost predicate SignalOk(w: World, k: int)
    requires 0 <= k < |w.workers|
  {
    var me := w.workers[k];
    me.gen < |w.gens| ==>
      (k in w.gens[me.gen].registry.signalled <==>
       !w.gens[me.gen].open || me.phase == Gone || me.job in w.gens[me.gen].registry.explicit)
  }

  // No context of a worker yet to come is.
  ghost predicate NoneAhead(w: World, g: int)
    requires 0 <= g < |w.gens|
  {
    forall c :: c in w.gens[g].registry.signalled ==> c < |w.workers| && w.workers[c].gen == g
  }

  ghost predicate SignalInv(w: World) {
    && (forall k :: 0 <= k < |w.workers| ==> SignalOk(w, k))
    && (forall g :: 0 <= g < |w.gens| ==> NoneAhead(w, g))
  }

  // Nothing here that signals look at has moved.
  ghost predicate Untouched(w: World, w': World) {
    && |w'.workers| == |w.workers| && |w.gens| <= |w'.gens|
    && (forall k :: 0 <= k < |w.workers| ==>
          SameJob(w.workers[k], w'.workers[k]) && (w'.workers[k].phase == Gone <==> w.workers[k].phase == Gone))
    && (forall g :: 0 <= g < |w.gens| ==>
          w'.gens[g].open == w.gens[g].open && w'.gens[g].registry == w.gens[g].registry)
    && (forall g :: |w.gens| <= g < |w'.gens| ==> w'.gens[g].registry == EmptyRegistry)
  }

  lemma UntouchedKeeps(w: World, w': World)
    requires Inv(w) && SignalInv(w) && Untouched(w, w')
    ensures SignalInv(w')
  {
    forall k | 0 <= k < |w'.workers| ensures SignalOk(w', k) { assert SignalOk(w, k) && WorkerOk(w, k); }
    forall g | 0 <= g < |w'.gens| ensures NoneAhead(w', g) {
      if g < |w.gens| { assert NoneAhead(w, g); }
    }
  }

  predicate Signals(w: World, e: Event)
    requires Enabled(w, e)
  {
    e.Disconnect? || e.CancelJob? || e.Finish? || (e.Assign? && AdmissionOf(w, e.job).Admitted?)
  }

  lemma SpeakingIsUntouched(w: World, e: Event)
    requires Enabled(w, e) && Speaks(e)
    ensures Untouched(w, Step(w, e))
  {
  }

  lemma MovingIsUntouched(w: World, e: Event)
    requires Enabled(w, e) && (MovesOn(e) || e.Clear?) && !e.Finish?
    ensures Untouched(w, Step(w, e))
  {
  }

  lemma SessionIsUntouched(w: World, e: Event)
    requires Enabled(w, e) && !Speaks(e) && !MovesOn(e) && !e.Clear? && !Signals(w, e)
    ensures Untouched(w, Step(w, e))
  {
  }

  // ---------------------------------------------------------------- the four that signal

  // A registered worker goes by its own number, and an unregistered one of an open connection
  // is gone.
  lemma ContextIsWorker(w: World, g: nat, id: JobId)
    requires Inv(w) && g < |w.gens| && id in w.gens[g].registry.cancels
    ensures var k := w.gens[g].registry.cancels[id];
            k < |w.workers| && w.workers[k].gen == g && w.workers[k].job == id && w.workers[k].phase != Gone
  {
    assert RegistrationOk(w, g, id);
  }

  lemma DisconnectSignals(w: World)
    requires Inv(w) && SignalInv(w) && w.AtRest()
    ensures SignalInv(Disconnected(w))
  {
    var w', g := Disconnected(w), |w.gens| - 1;
    forall k | 0 <= k < |w'.workers| ensures SignalOk(w', k) {
      assert SignalOk(w, k) && WorkerOk(w, k) && RegisteredOk(w, k);
      if w.workers[k].gen == g && w.workers[k].phase != Gone {
        assert w.gens[g].registry.cancels[w.workers[k].job] in w.gens[g].registry.cancels.Values;
      }
    }
    forall h | 0 <= h < |w'.gens| ensures NoneAhead(w', h) {
      assert NoneAhead(w, h);
      forall c | c in w'.gens[h].registry.signalled ensures c < |w.workers| && w.workers[c].gen == h {
        if c !in w.gens[h].registry.signalled {
          var id :| id in w.gens[g].registry.cancels && w.gens[g].registry.cancels[id] == c;
          ContextIsWorker(w, g, id);
        }
      }
    }
  }

  lemma CancelSignals(w: World)
    requires Inv(w) && SignalInv(w) && Enabled(w, CancelJob)
    ensures SignalInv(JobCancelled(w))
  {
    var w', g, id := JobCancelled(w), |w.gens| - 1, w.Current().receiver.job;
    if id in w.gens[g].registry.cancels { ContextIsWorker(w, g, id); }
    forall k | 0 <= k < |w'.workers| ensures SignalOk(w', k) {
      assert SignalOk(w, k) && WorkerOk(w, k) && RegisteredOk(w, k);
    }
    forall h | 0 <= h < |w'.gens| ensures NoneAhead(w', h) { assert NoneAhead(w, h); }
  }

  lemma FinishSignals(w: World, k: nat)
    requires Inv(w) && SignalInv(w) && Enabled(w, Finish(k))
    ensures SignalInv(WorkerFinished(w, k))
  {
    var w', g, id := WorkerFinished(w, k), w.workers[k].gen, w.workers[k].job;
    assert RegisteredOk(w, k) && SignalOk(w, k);
    if id in w.gens[g].registry.cancels {
      ContextIsWorker(w, g, id);
      assert Distinct(w, k, w.gens[g].registry.cancels[id]);
    }
    forall l | 0 <= l < |w'.workers| ensures SignalOk(w', l) {
      assert SignalOk(w, l) && WorkerOk(w, l) && RegisteredOk(w, l) && Distinct(w, k, l);
    }
    forall h | 0 <= h < |w'.gens| ensures NoneAhead(w', h) { assert NoneAhead(w, h); }
  }

  lemma AdmitSignals(w: World, job: Assignment)
    requires Inv(w) && SignalInv(w) && w.AtRest() && AdmissionOf(w, job).Admitted?
    ensures SignalInv(AdmittedTo(w, job))
  {
    var w', g, n := AdmittedTo(w, job), |w.gens| - 1, |w.workers|;
    if job.jobId in w.gens[g].registry.explicit { MarkedJobIsRegistered(w, g, job.jobId); }
    assert NoneAhead(w, g);
    forall k | 0 <= k < |w'.workers| ensures SignalOk(w', k) {
      if k < n { assert SignalOk(w, k) && WorkerOk(w, k); }
    }
    forall h | 0 <= h < |w'.gens| ensures NoneAhead(w', h) { assert NoneAhead(w, h); }
  }

  lemma StepKeepsSignals(w: World, e: Event)
    requires Inv(w) && SignalInv(w) && Enabled(w, e)
    ensures SignalInv(Step(w, e))
  {
    if e.Disconnect? {
      DisconnectSignals(w);
    } else if e.CancelJob? {
      CancelSignals(w);
    } else if e.Finish? {
      FinishSignals(w, e.worker);
    } else if Signals(w, e) {
      AdmitSignals(w, e.job);
    } else {
      if Speaks(e) {
        SpeakingIsUntouched(w, e);
      } else if MovesOn(e) || e.Clear? {
        MovingIsUntouched(w, e);
      } else {
        SessionIsUntouched(w, e);
      }
      UntouchedKeeps(w, Step(w, e));
    }
  }

  lemma {:induction false} RunKeepsSignals(w: World, run: seq<Event>)
    requires Inv(w) && SignalInv(w) && ValidFrom(w, run)
    ensures Inv(After(w, run)) && SignalInv(After(w, run))
    decreases |run|
  {
    if run != [] {
      StepKeepsSignals(w, run[0]);
      StepKeepsInv(w, run[0]);
      RunKeepsSignals(Step(w, run[0]), run[1..]);
    }
  }

  /** In every reachable state a worker's context is cancelled if and only if its connection has
      ended, the worker has left, or the control plane cancelled its job; so a teardown reaches
      every worker of its connection, and nothing else stops one. */
  lemma SignalledIff(w: World, k: nat)
    requires Reachable(w) && k < |w.workers|
    ensures w.workers[k].gen < |w.gens|
    ensures var me := w.workers[k];
            k in w.gens[me.gen].registry.signalled <==>
            !w.gens[me.gen].open || me.phase == Gone || me.job in w.gens[me.gen].registry.explicit
  {
    var config, run :| ValidFrom(Start(config), run) && w == After(Start(config), run);
    StartInv(config);
    RunKeepsSignals(Start(config), run);
    assert SignalOk(w, k) && WorkerOk(w, k);
  }

  /** A cancellation of a registered job marks it and reaches its worker's context at once, and
      one of a job that is not registered reaches nobody's. */
  lemma CancellationReaches(w: World)
    requires Reachable(w) && Enabled(w, CancelJob)
    ensures var w', g, id := Step(w, CancelJob), |w.gens| - 1, w.Current().receiver.job;
            if id in w.gens[g].registry.cancels then
              && id in w'.gens[g].registry.explicit
              && w'.gens[g].registry.signalled == w.gens[g].registry.signalled + {w.gens[g].registry.cancels[id]}
            else w'.gens[g].registry == w.gens[g].registry
  {
  }

  // ---------------------------------------------------------------- the answer to a cancellation

  // The receive loop is still about to answer this cancellation.
  predicate Answering(w: World, id: JobId, epoch: LeaseEpoch, completed: bool) {
    w.Connected() && w.Current().receiver == CancelAcking(id, epoch, completed)
  }

  lemma StaysAnswering(w: World, e: Event, id: JobId, epoch: LeaseEpoch, completed: bool)
    requires Answering(w, id, epoch, completed) && Enabled(w, e) && !e.AckCancellation?
    ensures Answering(Step(w, e), id, epoch, completed)
  {
  }

  lemma {:induction false} RunStaysAnswering(w: World, run: seq<Event>, id: JobId, epoch: LeaseEpoch, completed: bool)
    requires Answering(w, id, epoch, completed) && ValidFrom(w, run)
    requires forall e :: e in run ==> !e.AckCancellation?
    ensures Answering(After(w, run), id, epoch, completed)
    decreases |run|
  {
    if run != [] {
      StaysAnswering(w, run[0], id, epoch, completed);
      RunStaysAnswering(Step(w, run[0]), run[1..], id, epoch, completed);
    }
  }

  /** A cancellation is answered once, under its own job and epoch, by whether a result of the job
      was retained when it came in, whatever the workers and the resend loop do meanwhile; and
      only then is the job cancelled. */
  lemma CancellationIsAnswered(w: World, id: JobId, epoch: LeaseEpoch, run: seq<Event>, accepted: bool)
    requires Enabled(w, Cancellation(id, epoch)) && ValidFrom(Step(w, Cancellation(id, epoch)), run)
    requires forall e :: e in run ==> !e.AckCancellation?
    ensures var v := After(Step(w, Cancellation(id, epoch)), run);
            && Enabled(v, AckCancellation(accepted))
            && var v' := Step(v, AckCancellation(accepted));
               && v'.Connected() && v'.Current().receiver == Cancelling(id)
               && v'.Current().log == v.Current().log
                    + [Attempt(CancelAck(id, epoch, id in w.core.unacked), accepted, NoWorker)]
               && v'.Current().registry == v.Current().registry
  {
    RunStaysAnswering(Step(w, Cancellation(id, epoch)), run, id, epoch, id in w.core.unacked);
  }
}
