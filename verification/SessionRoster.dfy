/** When the roster names a worker.

    The roster is keyed by job alone, and a worker clears its job's entry whoever's it is.
    So a job admitted again on a later connection can lose its entry to the worker of an
    earlier one.  This says exactly when. */
module SessionRoster {
  import opened SessionState
  import opened SessionProtocol
  import opened SessionInvariants

  // The worker admitted last for this job.
  predicate Newest(w: World, id: JobId, n: int) {
    && 0 <= n < |w.workers| && w.workers[n].job == id
    && forall l :: n < l < |w.workers| ==> w.workers[l].job != id
  }

  // Worker m is of this job and cleared its entry after worker n was admitted.
  predicate ClearedSince(w: World, id: JobId, n: int, m: nat) {
    m in w.cleared && m < |w.workers| && w.workers[m].job == id && w.cleared[m] > n
  }

  predicate Listed(w: World, id: JobId, epoch: LeaseEpoch) {
    id in w.core.inFlight && w.core.inFlight[id] == epoch
  }

  ghost predicate EntryOk(w: World, id: JobId) {
    && (id in w.core.inFlight ==> exists n :: Newest(w, id, n))
    && forall n :: Newest(w, id, n) ==>
         && (id in w.core.inFlight <==> forall m :: !ClearedSince(w, id, n, m))
         && (id in w.core.inFlight ==> w.core.inFlight[id] == w.workers[n].epoch)
  }

  ghost predicate ClearedOk(w: World) {
    && (forall m :: m in w.cleared ==> m < |w.workers| && w.cleared[m] <= |w.workers|)
    && (forall k :: 0 <= k < |w.workers| ==> (w.workers[k].InRoster() <==> k !in w.cleared))
  }

  ghost predicate RosterInv(w: World) {
    ClearedOk(w) && forall id :: EntryOk(w, id)
  }

  // Nothing the roster's account looks at has moved.
  predicate Apart(w: World, w': World) {
    && |w'.workers| == |w.workers| && w'.core.inFlight == w.core.inFlight && w'.cleared == w.cleared
    && forall k :: 0 <= k < |w.workers| ==>
         SameJob(w.workers[k], w'.workers[k]) && (w.workers[k].InRoster() <==> w'.workers[k].InRoster())
  }

  lemma SameNewest(w: World, w': World, id: JobId, n: int)
    requires Apart(w, w')
    ensures Newest(w, id, n) <==> Newest(w', id, n)
  {
    assert forall l :: 0 <= l < |w.workers| ==> SameJob(w.workers[l], w'.workers[l]);
  }

  lemma ApartKeepsEntry(w: World, w': World, id: JobId)
    requires Apart(w, w') && EntryOk(w, id)
    ensures EntryOk(w', id)
  {
    forall n ensures Newest(w, id, n) <==> Newest(w', id, n) { SameNewest(w, w', id, n); }
    forall n, m: nat ensures ClearedSince(w, id, n, m) <==> ClearedSince(w', id, n, m) {
      assert m < |w.workers| ==> SameJob(w.workers[m], w'.workers[m]);
    }
  }

  lemma ApartKeepsRoster(w: World, w': World)
    requires Apart(w, w') && RosterInv(w)
    ensures RosterInv(w')
  {
    forall id ensures EntryOk(w', id) { assert EntryOk(w, id); ApartKeepsEntry(w, w', id); }
  }

  predicate TouchesRoster(w: World, e: Event)
    requires Enabled(w, e)
  {
    e.Clear? || (e.Assign? && AdmissionOf(w, e.job).Admitted?)
  }

  lemma SpeakingIsApart(w: World, e: Event)
    requires Enabled(w, e) && Speaks(e)
    ensures Apart(w, Step(w, e))
  {
  }

  lemma MovingOnIsApart(w: World, e: Event)
    requires Enabled(w, e) && MovesOn(e)
    ensures Apart(w, Step(w, e))
  {
  }

  lemma SessionStepsAreApart(w: World, e: Event)
    requires Enabled(w, e) && !Speaks(e) && !MovesOn(e) && !TouchesRoster(w, e)
    ensures Apart(w, Step(w, e))
  {
  }

  lemma OtherStepsAreApart(w: World, e: Event)
    requires Enabled(w, e) && !TouchesRoster(w, e)
    ensures Apart(w, Step(w, e))
  {
    if Speaks(e) {
      SpeakingIsApart(w, e);
    } else if MovesOn(e) {
      MovingOnIsApart(w, e);
    } else {
      SessionStepsAreApart(w, e);
    }
  }

  // ---------------------------------------------------------------- admission

  lemma AdmitKeepsEntry(w: World, job: Assignment, id: JobId)
    requires RosterInv(w) && w.AtRest()
    ensures EntryOk(AdmittedTo(w, job), id)
  {
    var w', n := AdmittedTo(w, job), |w.workers|;
    assert EntryOk(w, id);
    assert forall l :: 0 <= l < n ==> w'.workers[l] == w.workers[l];
    if id == job.jobId {
      assert Newest(w', id, n);
      forall l | Newest(w', id, l) ensures l == n {}
      forall m: nat ensures !ClearedSince(w', id, n, m) {}
    } else {
      forall l ensures Newest(w', id, l) <==> Newest(w, id, l) {}
      forall l, m: nat ensures ClearedSince(w', id, l, m) <==> ClearedSince(w, id, l, m) {}
    }
  }

  lemma AdmitKeepsRoster(w: World, job: Assignment)
    requires RosterInv(w) && w.AtRest()
    ensures RosterInv(AdmittedTo(w, job))
  {
    forall id ensures EntryOk(AdmittedTo(w, job), id) { AdmitKeepsEntry(w, job, id); }
  }

  // ---------------------------------------------------------------- clearing

  lemma ClearKeepsEntry(w: World, k: nat, id: JobId)
    requires RosterInv(w) && At(w, k, Returned)
    ensures EntryOk(RosterCleared(w, k), id)
  {
    var w' := RosterCleared(w, k);
    assert EntryOk(w, id);
    assert forall l :: 0 <= l < |w.workers| ==>
               w'.workers[l].job == w.workers[l].job && w'.workers[l].epoch == w.workers[l].epoch;
    forall l ensures Newest(w', id, l) <==> Newest(w, id, l) {}
    if id == w.workers[k].job {
      forall n | Newest(w', id, n) ensures ClearedSince(w', id, n, k) {}
    } else {
      forall l, m: nat ensures ClearedSince(w', id, l, m) <==> ClearedSince(w, id, l, m) {}
    }
  }

  lemma ClearKeepsRoster(w: World, k: nat)
    requires RosterInv(w) && At(w, k, Returned)
    ensures RosterInv(RosterCleared(w, k))
  {
    forall id ensures EntryOk(RosterCleared(w, k), id) { ClearKeepsEntry(w, k, id); }
  }

  lemma StepKeepsRoster(w: World, e: Event)
    requires RosterInv(w) && Enabled(w, e)
    ensures RosterInv(Step(w, e))
  {
    if e.Clear? {
      ClearKeepsRoster(w, e.worker);
    } else if TouchesRoster(w, e) {
      AdmitKeepsRoster(w, e.job);
    } else {
      OtherStepsAreApart(w, e);
      ApartKeepsRoster(w, Step(w, e));
    }
  }

  lemma {:induction false} RunKeepsRoster(w: World, run: seq<Event>)
    requires RosterInv(w) && ValidFrom(w, run)
    ensures RosterInv(After(w, run))
    decreases |run|
  {
    if run != [] {
      StepKeepsRoster(w, run[0]);
      RunKeepsRoster(Step(w, run[0]), run[1..]);
    }
  }

  // ---------------------------------------------------------------- the exact condition

  /** In every reachable state the roster lists a job under an epoch if and only if that is
      the epoch of the worker admitted last for it, and no worker of the job, of whatever
      connection, has cleared its entry since that admission. */
  lemma ListedIff(w: World, id: JobId, epoch: LeaseEpoch)
    requires Reachable(w)
    ensures Listed(w, id, epoch) <==>
            exists n :: Newest(w, id, n) && w.workers[n].epoch == epoch && forall m :: !ClearedSince(w, id, n, m)
  {
    var config: Config, run: seq<Event> :| ValidFrom(Start(config), run) && w == After(Start(config), run);
    StartRoster(config);
    RunKeepsRoster(Start(config), run);
    assert EntryOk(w, id);
  }

  lemma StartRoster(config: Config)
    ensures RosterInv(Start(config))
  {
  }

  lemma {:induction false} NewestExists(w: World, id: JobId, k: nat) returns (n: nat)
    requires k < |w.workers| && w.workers[k].job == id
    ensures k <= n && Newest(w, id, n)
    decreases |w.workers| - k
  {
    if l :| k < l < |w.workers| && w.workers[l].job == id {
      n := NewestExists(w, id, l);
    } else {
      n := k;
    }
  }

  /** So a worker that has not cleared itself is missing from the roster, under its epoch,
      exactly when its job was admitted later under another epoch or some other worker of the
      job has cleared the entry since the job was last admitted. */
  lemma RosterMissesWorkerIff(w: World, k: nat)
    requires Reachable(w) && k < |w.workers| && w.workers[k].InRoster()
    ensures !Listed(w, w.workers[k].job, w.workers[k].epoch) <==>
            exists n :: && k <= n && Newest(w, w.workers[k].job, n)
                        && (w.workers[n].epoch != w.workers[k].epoch
                            || exists m :: m != k && ClearedSince(w, w.workers[k].job, n, m))
  {
    var id, epoch := w.workers[k].job, w.workers[k].epoch;
    var n := NewestExists(w, id, k);
    ListedIff(w, id, epoch);
    ReachableClearedOk(w);
    forall l | Newest(w, id, l) ensures l == n {}
  }

  lemma ReachableClearedOk(w: World)
    requires Reachable(w)
    ensures ClearedOk(w)
  {
    var config: Config, run: seq<Event> :| ValidFrom(Start(config), run) && w == After(Start(config), run);
    StartRoster(config);
    RunKeepsRoster(Start(config), run);
  }
}
