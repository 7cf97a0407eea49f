/** What every step of the job protocol keeps. */
module SessionInvariants {
  import opened SessionState
  import opened SessionProtocol

  // ---------------------------------------------------------------- counting slots

  ghost function Owners(workers: seq<Worker>): nat {
    if workers == [] then 0
    else Owners(workers[..|workers| - 1]) + if workers[|workers| - 1].fate == Live then 1 else 0
  }

  lemma {:induction false} OwnersPointwise(a: seq<Worker>, b: seq<Worker>)
    requires |a| == |b|
    requires forall k :: 0 <= k < |a| ==> (a[k].fate == Live <==> b[k].fate == Live)
    ensures Owners(a) == Owners(b)
  {
    if a != [] { OwnersPointwise(a[..|a| - 1], b[..|b| - 1]); }
  }

  lemma {:induction false} OwnersUpdate(workers: seq<Worker>, k: nat, worker: Worker)
    requires k < |workers|
    ensures Owners(workers[k := worker]) ==
            Owners(workers) - (if workers[k].fate == Live then 1 else 0) + (if worker.fate == Live then 1 else 0)
  {
    var n := |workers| - 1;
    if k == n {
      assert workers[k := worker][..n] == workers[..n];
    } else {
      assert workers[k := worker][..n] == workers[..n][k := worker];
      OwnersUpdate(workers[..n], k, worker);
    }
  }

  lemma OwnersAppend(workers: seq<Worker>, worker: Worker)
    ensures Owners(workers + [worker]) == Owners(workers) + if worker.fate == Live then 1 else 0
  {
    assert (workers + [worker])[..|workers|] == workers;
  }

  lemma {:induction false} OwnersZero(workers: seq<Worker>)
    ensures Owners(workers) == 0 <==> forall k :: 0 <= k < |workers| ==> workers[k].fate != Live
  {
    if workers != [] {
      OwnersZero(workers[..|workers| - 1]);
      assert forall k :: 0 <= k < |workers| - 1 ==> workers[..|workers| - 1][k] == workers[k];
    }
  }

  lemma OwnersPositive(workers: seq<Worker>, k: nat)
    requires k < |workers| && workers[k].fate == Live
    ensures Owners(workers) > 0
  {
    OwnersZero(workers);
  }

  lemma CardinalityWithout(m: map<JobId, JobResult>, id: JobId)
    requires id in m
    ensures |m - {id}| == |m| - 1
  {
    assert (m - {id}).Keys == m.Keys - {id};
  }

  lemma CardinalityWith(m: map<JobId, JobResult>, id: JobId, result: JobResult)
    ensures |m[id := result]| == |m| + if id in m then 0 else 1
  {
    assert m[id := result].Keys == m.Keys + {id};
  }

  // ---------------------------------------------------------------- the invariants
  //
  // Each one is a conjunction over workers, generations or jobs of a named local fact.

  predicate LiveIn(phase: Phase) {
    phase in {Acking, Starting, Executing, Returned, Deciding, Abandoning, Retaining}
  }

  // A worker holds its slot exactly until it abandons the job or retains the result.
  predicate PhaseFits(worker: Worker) {
    && (worker.fate == Live <==> LiveIn(worker.phase))
    && (worker.phase == Delivering ==> worker.fate != Abandoned)
  }

  // A closed connection has no receive loop, and only the last one may be open.
  ghost predicate GenerationOk(w: World, g: int)
    requires 0 <= g < |w.gens|
  {
    w.gens[g].open || w.gens[g].receiver.Idle?
  }

  ghost predicate WorkerOk(w: World, k: int)
    requires 0 <= k < |w.workers|
  {
    && w.workers[k].gen < |w.gens|
    && w.workers[k].admittedAt <= |w.gens[w.workers[k].gen].log|
    && PhaseFits(w.workers[k])
  }

  ghost predicate Shape(w: World) {
    && (forall g :: 0 <= g < |w.gens| ==> GenerationOk(w, g))
    && (forall k :: 0 <= k < |w.workers| ==> WorkerOk(w, k))
    && (forall g :: 0 <= g < |w.gens| - 1 ==> !w.gens[g].open)
  }

  ghost function BeingReleased(w: World): nat {
    if |w.gens| > 0 && w.Current().receiver.Releasing? then 1 else 0
  }

  /** The slot ledger: every held slot is accounted for by exactly one of a live worker,
      a retained result, a release in progress, or a result that was overwritten. */
  ghost predicate Ledger(w: World) {
    && w.core.held == Owners(w.workers) + |w.core.unacked| + w.overwritten + BeingReleased(w)
    && w.core.held <= w.core.capacity
  }

  ghost predicate RegistrationOk(w: World, g: int, id: JobId)
    requires 0 <= g < |w.gens|
  {
    id in w.gens[g].registry.cancels ==>
      var k := w.gens[g].registry.cancels[id];
      k < |w.workers| && w.workers[k].gen == g && w.workers[k].job == id && w.workers[k].phase != Gone
  }

  ghost predicate RegisteredOk(w: World, k: int)
    requires 0 <= k < |w.workers|
  {
    var me := w.workers[k];
    me.phase != Gone && me.gen < |w.gens| && w.gens[me.gen].open ==>
      me.job in w.gens[me.gen].registry.cancels && w.gens[me.gen].registry.cancels[me.job] == k
  }

  ghost predicate Distinct(w: World, k: int, l: int)
    requires 0 <= k < |w.workers| && 0 <= l < |w.workers|
  {
    k == l || w.workers[k].gen != w.workers[l].gen || w.workers[k].job != w.workers[l].job
    || w.workers[k].phase == Gone || w.workers[l].phase == Gone
  }

  ghost predicate Registrations(w: World) {
    && (forall g, id :: 0 <= g < |w.gens| ==> RegistrationOk(w, g, id))
    && (forall k :: 0 <= k < |w.workers| ==> RegisteredOk(w, k))
    && (forall k, l :: 0 <= k < |w.workers| && 0 <= l < |w.workers| ==> Distinct(w, k, l))
  }

  // The control plane's cancellation of this job was answered after the given point.
  ghost predicate AckedSince(log: seq<Attempt>, id: JobId, from: nat) {
    exists i :: from <= i < |log| && log[i].message.CancelAck? && log[i].message.jobId == id
  }

  ghost predicate CancelledWith(w: World, g: int, id: JobId, k: int)
    requires 0 <= g < |w.gens|
  {
    && 0 <= k < |w.workers| && w.workers[k].gen == g && w.workers[k].job == id && w.workers[k].phase != Gone
    && AckedSince(w.gens[g].log, id, w.workers[k].admittedAt)
  }

  ghost predicate MarkOk(w: World, g: int, id: JobId)
    requires 0 <= g < |w.gens|
  {
    id in w.gens[g].registry.explicit ==> exists k :: CancelledWith(w, g, id, k)
  }

  ghost predicate CancellingOk(w: World, k: int)
    requires 0 <= k < |w.workers|
  {
    var me := w.workers[k];
    me.gen < |w.gens| && w.gens[me.gen].receiver.Cancelling? ==>
      AckedSince(w.gens[me.gen].log, w.gens[me.gen].receiver.job, me.admittedAt)
  }

  ghost predicate ExplicitMarks(w: World) {
    && (forall g, id :: 0 <= g < |w.gens| ==> MarkOk(w, g, id))
    && (forall k :: 0 <= k < |w.workers| ==> CancellingOk(w, k))
  }

  ghost predicate RetainedOk(w: World, id: JobId) {
    id in w.core.unacked ==>
      && id in w.producer
      && w.producer[id] < |w.workers|
      && w.workers[w.producer[id]].job == id
      && w.workers[w.producer[id]].fate == Kept
      && w.core.unacked[id] == w.workers[w.producer[id]].ResultOf()
  }

  ghost predicate KeptOk(w: World, k: int)
    requires 0 <= k < |w.workers|
  {
    w.workers[k].fate == Kept ==> w.workers[k].job in w.core.unacked
  }

  ghost predicate Buffer(w: World) {
    && (forall id :: RetainedOk(w, id))
    && (forall k :: 0 <= k < |w.workers| ==> KeptOk(w, k))
  }

  // The worker's result is in the buffer, was acknowledged, or is about to be retained.
  predicate Committed(worker: Worker) {
    worker.fate == Kept || worker.fate == Acknowledged || worker.phase == Retaining
  }

  ghost predicate CommittedOk(w: World, k: int)
    requires 0 <= k < |w.workers|
  {
    var me := w.workers[k];
    me.gen < |w.gens| && Committed(me) && IsCancelled(me.ResultOf()) ==>
        AckedSince(w.gens[me.gen].log, me.job, me.admittedAt)
  }

  ghost predicate CancelledResults(w: World) {
    forall k :: 0 <= k < |w.workers| ==> CommittedOk(w, k)
  }

  // An attempt to send a cancelled result that a worker of this very generation produced.
  predicate CancelledAttempt(w: World, g: int, attempt: Attempt) {
    && attempt.message.Result? && IsCancelled(attempt.message.result)
    && 0 <= attempt.source < |w.workers| && w.workers[attempt.source].gen == g
  }

  ghost predicate AckedBefore(log: seq<Attempt>, id: JobId, from: nat, j: nat) {
    exists i :: from <= i < j < |log| && log[i].message.CancelAck? && log[i].message.jobId == id
  }

  ghost predicate AttemptOk(w: World, g: int, j: int)
    requires 0 <= g < |w.gens| && 0 <= j < |w.gens[g].log|
  {
    && (w.gens[g].log[j].message.Result? ==> w.gens[g].log[j].source < |w.workers|)
    && (CancelledAttempt(w, g, w.gens[g].log[j]) ==>
          AckedBefore(w.gens[g].log, w.gens[g].log[j].message.result.jobId,
                      w.workers[w.gens[g].log[j].source].admittedAt, j))
  }

  // A message may be appended to any log; a cancelled result of the same generation only
  // once a CancelAck for it is in there, offered since its worker was admitted.
  ghost predicate MaySpeak(w: World, g: nat, attempt: Attempt)
    requires g < |w.gens|
  {
    && (attempt.message.Result? ==> attempt.source < |w.workers|)
    && (CancelledAttempt(w, g, attempt) ==>
          AckedSince(w.gens[g].log, attempt.message.result.jobId, w.workers[attempt.source].admittedAt))
  }

  ghost predicate ResendingOk(w: World, g: int, item: Resent)
    requires 0 <= g < |w.gens|
  {
    item in w.gens[g].resending ==> MaySpeak(w, g, Attempt(Result(item.result), true, item.source))
  }

  ghost predicate Logs(w: World) {
    && (forall g, j :: 0 <= g < |w.gens| && 0 <= j < |w.gens[g].log| ==> AttemptOk(w, g, j))
    && (forall g, item :: 0 <= g < |w.gens| ==> ResendingOk(w, g, item))
  }

  ghost predicate Attests(w: World, id: JobId, epoch: LeaseEpoch, k: int) {
    0 <= k < |w.workers| && w.workers[k].job == id && w.workers[k].epoch == epoch && w.workers[k].InRoster()
  }

  ghost predicate RosterOk(w: World, id: JobId) {
    id in w.core.inFlight ==> exists k :: Attests(w, id, w.core.inFlight[id], k)
  }

  ghost predicate Roster(w: World) {
    forall id :: RosterOk(w, id)
  }

  ghost predicate Inv(w: World) {
    Shape(w) && Ledger(w) && Registrations(w) && ExplicitMarks(w) && Buffer(w) && CancelledResults(w) && Logs(w)
        && Roster(w)
  }

  // ---------------------------------------------------------------- preservation

  lemma StartInv(config: Config)
    ensures Inv(Start(config))
  {
  }

  lemma AckedSinceGrows(log: seq<Attempt>, longer: seq<Attempt>, id: JobId, from: nat)
    requires AckedSince(log, id, from) && log <= longer
    ensures AckedSince(longer, id, from)
  {
    var i :| from <= i < |log| && log[i].message.CancelAck? && log[i].message.jobId == id;
    assert longer[i] == log[i];
  }

  lemma AckedBeforeGrows(log: seq<Attempt>, longer: seq<Attempt>, id: JobId, from: nat, j: nat)
    requires AckedBefore(log, id, from, j) && log <= longer
    ensures AckedBefore(longer, id, from, j)
  {
    var i :| from <= i < j < |log| && log[i].message.CancelAck? && log[i].message.jobId == id;
    assert longer[i] == log[i];
  }

  // What no step of anybody undoes: workers keep their identity, logs only grow.
  ghost predicate Extends(w: World, w': World) {
    && |w.workers| <= |w'.workers| && |w.gens| <= |w'.gens|
    && (forall k :: 0 <= k < |w.workers| ==> SameJob(w.workers[k], w'.workers[k]))
    && (forall g :: 0 <= g < |w.gens| ==> w.gens[g].log <= w'.gens[g].log)
  }

  predicate SameJob(a: Worker, b: Worker) {
    a.gen == b.gen && a.job == b.job && a.epoch == b.epoch && a.admittedAt == b.admittedAt
  }

  // A mark survives as long as its worker stays.
  lemma MarksSurvive(w: World, w': World, g: int)
    requires Extends(w, w') && 0 <= g < |w.gens|
    requires forall id :: MarkOk(w, g, id)
    requires w'.gens[g].registry.explicit <= w.gens[g].registry.explicit
    requires forall k :: 0 <= k < |w.workers| && w.workers[k].gen == g
                         && w.workers[k].phase != Gone && w.workers[k].job in w'.gens[g].registry.explicit ==>
                           w'.workers[k].phase != Gone
    ensures forall id :: MarkOk(w', g, id)
  {
    forall id | id in w'.gens[g].registry.explicit ensures exists k :: CancelledWith(w', g, id, k) {
      assert MarkOk(w, g, id);
      var k :| CancelledWith(w, g, id, k);
      assert SameJob(w.workers[k], w'.workers[k]);
      AckedSinceGrows(w.gens[g].log, w'.gens[g].log, id, w.workers[k].admittedAt);
      assert CancelledWith(w', g, id, k);
    }
  }

  lemma AllMarksSurvive(w: World, w': World)
    requires Extends(w, w') && |w'.gens| == |w.gens|
    requires forall g, id :: 0 <= g < |w.gens| ==> MarkOk(w, g, id)
    requires forall g :: 0 <= g < |w.gens| ==> w'.gens[g].registry.explicit <= w.gens[g].registry.explicit
    requires forall k :: 0 <= k < |w.workers| && w.workers[k].phase != Gone ==> w'.workers[k].phase != Gone
    ensures forall g, id :: 0 <= g < |w'.gens| ==> MarkOk(w', g, id)
  {
    forall g, id | 0 <= g < |w'.gens| ensures MarkOk(w', g, id) {
      MarksSurvive(w, w', g);
    }
  }

  // The roster's facts survive a step that clears no attesting worker.
  lemma RosterSurvives(w: World, w': World)
    requires Extends(w, w') && Roster(w)
    requires forall id :: id in w'.core.inFlight ==>
                 id in w.core.inFlight && w'.core.inFlight[id] == w.core.inFlight[id]
    requires forall k :: 0 <= k < |w.workers| && w.workers[k].InRoster() && w.workers[k].job in w'.core.inFlight ==>
                 w'.workers[k].InRoster()
    ensures Roster(w')
  {
    forall id | id in w'.core.inFlight ensures exists k :: Attests(w', id, w'.core.inFlight[id], k) {
      assert RosterOk(w, id);
      var k :| Attests(w, id, w.core.inFlight[id], k);
      assert SameJob(w.workers[k], w'.workers[k]);
      assert Attests(w', id, w'.core.inFlight[id], k);
    }
  }

  // Past attempts stay in order whatever is appended.
  lemma LogSurvives(w: World, w': World, g: int, j: int)
    requires Extends(w, w') && 0 <= g < |w.gens| && 0 <= j < |w.gens[g].log| && AttemptOk(w, g, j)
    ensures AttemptOk(w', g, j)
  {
    var attempt := w.gens[g].log[j];
    assert w'.gens[g].log[j] == attempt;
    if CancelledAttempt(w', g, attempt) {
      assert SameJob(w.workers[attempt.source], w'.workers[attempt.source]);
      AckedBeforeGrows(w.gens[g].log, w'.gens[g].log, attempt.message.result.jobId,
                       w.workers[attempt.source].admittedAt, j);
    }
  }

  lemma MaySpeakSurvives(w: World, w': World, g: nat, attempt: Attempt)
    requires Extends(w, w') && g < |w.gens| && MaySpeak(w, g, attempt)
    ensures attempt.message.Result? ==> MaySpeak(w', g, attempt)
  {
    if CancelledAttempt(w', g, attempt) {
      var me := w.workers[attempt.source];
      assert SameJob(me, w'.workers[attempt.source]);
      AckedSinceGrows(w.gens[g].log, w'.gens[g].log, attempt.message.result.jobId, me.admittedAt);
    }
  }

  lemma PassSurvives(w: World, w': World, g: nat)
    requires Extends(w, w') && g < |w.gens| && w'.gens[g].resending <= w.gens[g].resending
    requires forall item :: ResendingOk(w, g, item)
    ensures forall item :: ResendingOk(w', g, item)
  {
    forall item ensures ResendingOk(w', g, item) {
      assert ResendingOk(w, g, item);
      if item in w'.gens[g].resending { MaySpeakSurvives(w, w', g, Attempt(Result(item.result), true, item.source)); }
    }
  }

  lemma LogsSurvive(w: World, w': World)
    requires Extends(w, w') && Logs(w)
    requires |w'.gens| == |w.gens| && forall g :: 0 <= g < |w.gens| ==> w'.gens[g].log == w.gens[g].log
    requires forall g :: 0 <= g < |w.gens| ==> w'.gens[g].resending <= w.gens[g].resending
    ensures Logs(w')
  {
    forall g, item | 0 <= g < |w'.gens| ensures ResendingOk(w', g, item) { PassSurvives(w, w', g); }
    forall g, j | 0 <= g < |w'.gens| && 0 <= j < |w'.gens[g].log| ensures AttemptOk(w', g, j) {
      assert AttemptOk(w, g, j);
      LogSurvives(w, w', g, j);
    }
  }

  lemma CommittedSurvives(w: World, w': World, k: int)
    requires Extends(w, w') && 0 <= k < |w.workers| && CommittedOk(w, k) && w.workers[k].gen < |w.gens|
    requires Committed(w'.workers[k]) ==> Committed(w.workers[k]) && w'.workers[k].outcome == w.workers[k].outcome
    ensures CommittedOk(w', k)
  {
    var me := w.workers[k];
    assert SameJob(me, w'.workers[k]);
    if Committed(me) && IsCancelled(me.ResultOf()) {
      AckedSinceGrows(w.gens[me.gen].log, w'.gens[me.gen].log, me.job, me.admittedAt);
    }
  }

  lemma CancellingSurvives(w: World, w': World, k: int)
    requires Extends(w, w') && 0 <= k < |w.workers| && CancellingOk(w, k) && w.workers[k].gen < |w.gens|
    requires w'.gens[w.workers[k].gen].receiver.Cancelling? ==>
                 w'.gens[w.workers[k].gen].receiver == w.gens[w.workers[k].gen].receiver
    ensures CancellingOk(w', k)
  {
    var me := w.workers[k];
    assert SameJob(me, w'.workers[k]);
    if w.gens[me.gen].receiver.Cancelling? {
      AckedSinceGrows(w.gens[me.gen].log, w'.gens[me.gen].log, w.gens[me.gen].receiver.job, me.admittedAt);
    }
  }

  // ---------------------------------------------------------------- speaking

  lemma LoggedKeepsLogs(w: World, g: nat, attempts: seq<Attempt>)
    requires Logs(w) && g < |w.gens|
    requires forall i :: 0 <= i < |attempts| ==> MaySpeak(w, g, attempts[i])
    ensures Logs(Logged(w, g, attempts))
  {
    var w' := Logged(w, g, attempts);
    var log := w.gens[g].log;
    forall h, item | 0 <= h < |w'.gens| ensures ResendingOk(w', h, item) { PassSurvives(w, w', h); }
    forall h, j | 0 <= h < |w'.gens| && 0 <= j < |w'.gens[h].log| ensures AttemptOk(w', h, j) {
      if j < |w.gens[h].log| {
        assert AttemptOk(w, h, j);
        LogSurvives(w, w', h, j);
      } else {
        var attempt := attempts[j - |log|];
        assert MaySpeak(w, g, attempt);
        if CancelledAttempt(w, g, attempt) {
          var id, from := attempt.message.result.jobId, w.workers[attempt.source].admittedAt;
          var i :| from <= i < |log| && log[i].message.CancelAck? && log[i].message.jobId == id;
          assert w'.gens[g].log[i] == log[i];
        }
      }
    }
  }

  lemma LoggedKeepsWorkers(w: World, g: nat, attempts: seq<Attempt>)
    requires Inv(w) && g < |w.gens|
    ensures Shape(Logged(w, g, attempts)) && Registrations(Logged(w, g, attempts))
    ensures ExplicitMarks(Logged(w, g, attempts)) && CancelledResults(Logged(w, g, attempts))
  {
    var w' := Logged(w, g, attempts);
    forall h | 0 <= h < |w'.gens| ensures GenerationOk(w', h) { assert GenerationOk(w, h); }
    forall h, id | 0 <= h < |w'.gens| ensures RegistrationOk(w', h, id) { assert RegistrationOk(w, h, id); }
    forall k, l | 0 <= k < |w'.workers| && 0 <= l < |w'.workers|
      ensures Distinct(w', k, l)
    {
      assert Distinct(w, k, l);
    }
    forall k | 0 <= k < |w'.workers|
      ensures WorkerOk(w', k) && RegisteredOk(w', k) && CommittedOk(w', k) && CancellingOk(w', k)
    {
      assert WorkerOk(w, k) && RegisteredOk(w, k) && CommittedOk(w, k) && CancellingOk(w, k);
      CommittedSurvives(w, w', k);
      CancellingSurvives(w, w', k);
    }
    AllMarksSurvive(w, w');
  }

  lemma LoggedKeepsInv(w: World, g: nat, attempts: seq<Attempt>)
    requires Inv(w) && g < |w.gens|
    requires forall i :: 0 <= i < |attempts| ==> MaySpeak(w, g, attempts[i])
    ensures Inv(Logged(w, g, attempts))
  {
    var w' := Logged(w, g, attempts);
    LoggedKeepsWorkers(w, g, attempts);
    LoggedKeepsLogs(w, g, attempts);
    RosterSurvives(w, w');
    forall id ensures RetainedOk(w', id) { assert RetainedOk(w, id); }
    forall k | 0 <= k < |w'.workers| ensures KeptOk(w', k) { assert KeptOk(w, k); }
  }

  // ---------------------------------------------------------------- a worker's own steps

  // Worker k moves within its life: same identity, and still registered.
  ghost predicate Progress(w: World, k: nat, next: Worker) {
    && k < |w.workers| && w.workers[k].gen < |w.gens|
    && SameJob(w.workers[k], next)
    && w.workers[k].phase != Gone && next.phase != Gone
    && PhaseFits(next)
    && (Committed(next) && IsCancelled(next.ResultOf()) ==> AckedSince(w.gens[next.gen].log, next.job, next.admittedAt))
  }

  // Everything but the ledger, the buffer and the roster, which depend on the core.
  lemma ProgressKeepsWorkers(w: World, k: nat, next: Worker)
    requires Inv(w) && Progress(w, k, next)
    ensures var w' := WithWorker(w, k, next);
            Extends(w, w') && Shape(w') && Registrations(w') && ExplicitMarks(w') && CancelledResults(w') && Logs(w')
  {
    var w' := WithWorker(w, k, next);
    forall g | 0 <= g < |w'.gens| ensures GenerationOk(w', g) { assert GenerationOk(w, g); }
    forall l | 0 <= l < |w'.workers|
      ensures WorkerOk(w', l) && RegisteredOk(w', l) && CommittedOk(w', l) && CancellingOk(w', l)
    {
      assert WorkerOk(w, l) && RegisteredOk(w, l) && CommittedOk(w, l) && CancellingOk(w, l);
    }
    forall g, id | 0 <= g < |w'.gens| ensures RegistrationOk(w', g, id) {
      assert RegistrationOk(w, g, id);
    }
    forall l, m | 0 <= l < |w'.workers| && 0 <= m < |w'.workers| ensures Distinct(w', l, m) {
      assert Distinct(w, l, m);
    }
    AllMarksSurvive(w, w');
    LogsSurvive(w, w');
  }

  // The facts above do not look at the core.
  lemma CoreIsApart(w: World, w': World)
    requires w'.gens == w.gens && w'.workers == w.workers
    requires Shape(w) && Registrations(w) && ExplicitMarks(w) && CancelledResults(w) && Logs(w)
    ensures Shape(w') && Registrations(w') && ExplicitMarks(w') && CancelledResults(w') && Logs(w')
  {
    forall g | 0 <= g < |w'.gens| ensures GenerationOk(w', g) { assert GenerationOk(w, g); }
    forall l | 0 <= l < |w'.workers|
      ensures WorkerOk(w', l) && RegisteredOk(w', l) && CommittedOk(w', l) && CancellingOk(w', l)
    {
      assert WorkerOk(w, l) && RegisteredOk(w, l) && CommittedOk(w, l) && CancellingOk(w, l);
    }
    forall g, id | 0 <= g < |w'.gens| ensures RegistrationOk(w', g, id) {
      assert RegistrationOk(w, g, id);
    }
    forall l, m | 0 <= l < |w'.workers| && 0 <= m < |w'.workers| ensures Distinct(w', l, m) {
      assert Distinct(w, l, m);
    }
    AllMarksSurvive(w, w');
    LogsSurvive(w, w');
  }

  // The worker keeps its slot, and its result once it has one.
  lemma StayKeepsInv(w: World, k: nat, next: Worker)
    requires Inv(w) && Progress(w, k, next) && next.fate == w.workers[k].fate
    requires next.outcome == w.workers[k].outcome || next.fate == Live
    requires next.InRoster() || !w.workers[k].InRoster() || next.job !in w.core.inFlight
    ensures Inv(WithWorker(w, k, next))
  {
    var w' := WithWorker(w, k, next);
    ProgressKeepsWorkers(w, k, next);
    OwnersUpdate(w.workers, k, next);
    RosterSurvives(w, w');
    forall id ensures RetainedOk(w', id) { assert RetainedOk(w, id); }
    forall l | 0 <= l < |w'.workers| ensures KeptOk(w', l) { assert KeptOk(w, l); }
  }

  lemma SpokenKeepsInv(w: World, k: nat, message: Message, accepted: bool, phase: Phase)
    requires Inv(w) && k < |w.workers| && w.workers[k].gen < |w.gens|
    requires MaySpeak(w, w.workers[k].gen, Attempt(message, accepted, k))
    requires Progress(w, k, w.workers[k].(phase := phase))
    requires w.workers[k].(phase := phase).InRoster() || !w.workers[k].InRoster()
    ensures Inv(Spoken(w, k, message, accepted, phase))
  {
    var g := w.workers[k].gen;
    var next := w.workers[k].(phase := phase);
    var spoken := Logged(w, g, [Attempt(message, accepted, k)]);
    LoggedKeepsInv(w, g, [Attempt(message, accepted, k)]);
    if AckedSince(w.gens[g].log, next.job, next.admittedAt) {
      AckedSinceGrows(w.gens[g].log, spoken.gens[g].log, next.job, next.admittedAt);
    }
    StayKeepsInv(spoken, k, next);
  }

  lemma ClearKeepsInv(w: World, k: nat)
    requires Inv(w) && At(w, k, Returned)
    ensures Inv(RosterCleared(w, k))
  {
    var cleared := w.(core := Cleared(w.core, w.workers[k].job), cleared := w.cleared[k := |w.workers|]);
    CoreIsApart(w, cleared);
    RosterSurvives(w, cleared);
    forall id ensures RetainedOk(cleared, id) { assert RetainedOk(w, id); }
    forall l | 0 <= l < |w.workers| ensures KeptOk(cleared, l) { assert KeptOk(w, l); }
    assert WorkerOk(w, k);
    StayKeepsInv(cleared, k, w.workers[k].(phase := Deciding));
  }

  // A worker that decides not to abandon a cancelled result was cancelled explicitly.
  lemma DecideKeepsInv(w: World, k: nat)
    requires Inv(w) && At(w, k, Deciding)
    ensures Inv(Step(w, Decide(k)))
  {
    var me := w.workers[k];
    if IsCancelled(me.ResultOf()) && !AbandonDecided(w, k) {
      assert MarkOk(w, me.gen, me.job);
      var l :| CancelledWith(w, me.gen, me.job, l);
      assert Distinct(w, k, l);
    }
    assert WorkerOk(w, k);
    StayKeepsInv(w, k, me.(phase := if AbandonDecided(w, k) then Abandoning else Retaining));
  }

  // A worker's step that also touches the core.
  lemma MoveKeepsStructure(w: World, k: nat, next: Worker, w': World)
    requires Inv(w) && Progress(w, k, next)
    requires w'.gens == w.gens && w'.workers == w.workers[k := next]
    ensures Shape(w') && Registrations(w') && ExplicitMarks(w') && CancelledResults(w') && Logs(w')
  {
    ProgressKeepsWorkers(w, k, next);
    CoreIsApart(WithWorker(w, k, next), w');
  }

  lemma AbandonKeepsCore(w: World, k: nat)
    requires Shape(w) && Ledger(w) && Buffer(w) && Roster(w) && At(w, k, Abandoning)
    ensures Ledger(SlotAbandoned(w, k)) && Buffer(SlotAbandoned(w, k)) && Roster(SlotAbandoned(w, k))
    ensures w.core.held > 0
  {
    var w' := SlotAbandoned(w, k);
    assert WorkerOk(w, k);
    OwnersUpdate(w.workers, k, w'.workers[k]);
    OwnersPositive(w.workers, k);
    RosterSurvives(w, w');
    forall id ensures RetainedOk(w', id) { assert RetainedOk(w, id); }
    forall l | 0 <= l < |w'.workers| ensures KeptOk(w', l) { assert KeptOk(w, l); }
  }

  lemma AbandonKeepsInv(w: World, k: nat)
    requires Inv(w) && At(w, k, Abandoning)
    ensures Inv(SlotAbandoned(w, k))
    ensures w.core.held > 0 && SlotAbandoned(w, k).core == w.core.(held := w.core.held - 1)
  {
    assert WorkerOk(w, k);
    MoveKeepsStructure(w, k, w.workers[k].(phase := Finishing, fate := Abandoned), SlotAbandoned(w, k));
    AbandonKeepsCore(w, k);
  }

  lemma RetainKeepsCore(w: World, k: nat)
    requires Shape(w) && Ledger(w) && Buffer(w) && Roster(w) && At(w, k, Retaining)
    ensures Ledger(ResultRetained(w, k)) && Buffer(ResultRetained(w, k)) && Roster(ResultRetained(w, k))
  {
    var me := w.workers[k];
    var w' := ResultRetained(w, k);
    assert WorkerOk(w, k);
    OwnersUpdate(w.workers, k, w'.workers[k]);
    CardinalityWith(w.core.unacked, me.job, me.ResultOf());
    RosterSurvives(w, w');
    forall id ensures RetainedOk(w', id) { assert RetainedOk(w, id); }
    forall l | 0 <= l < |w'.workers| ensures KeptOk(w', l) { assert KeptOk(w, l); }
  }

  lemma RetainKeepsInv(w: World, k: nat)
    requires Inv(w) && At(w, k, Retaining)
    ensures Inv(ResultRetained(w, k))
  {
    assert WorkerOk(w, k) && CommittedOk(w, k);
    MoveKeepsStructure(w, k, w.workers[k].(phase := Delivering, fate := Kept), ResultRetained(w, k));
    RetainKeepsCore(w, k);
  }

  lemma FinishKeepsRegistrations(w: World, k: nat)
    requires Inv(w) && At(w, k, Finishing)
    ensures Registrations(WorkerFinished(w, k)) && ExplicitMarks(WorkerFinished(w, k))
  {
    var me := w.workers[k];
    var w' := WorkerFinished(w, k);
    forall g, id | 0 <= g < |w'.gens| ensures RegistrationOk(w', g, id) {
      assert RegistrationOk(w, g, id);
    }
    forall l | 0 <= l < |w'.workers| ensures RegisteredOk(w', l) && CancellingOk(w', l) {
      assert RegisteredOk(w, l) && CancellingOk(w, l) && Distinct(w, k, l);
    }
    forall l, m | 0 <= l < |w'.workers| && 0 <= m < |w'.workers| ensures Distinct(w', l, m) {
      assert Distinct(w, l, m);
    }
    forall g, id | 0 <= g < |w'.gens| ensures MarkOk(w', g, id) {
      assert forall l :: 0 <= l < |w.workers| ==> Distinct(w, k, l);
      MarksSurvive(w, w', g);
    }
  }

  lemma FinishKeepsCore(w: World, k: nat)
    requires Shape(w) && Ledger(w) && Buffer(w) && Roster(w) && At(w, k, Finishing)
    ensures Ledger(WorkerFinished(w, k)) && Buffer(WorkerFinished(w, k)) && Roster(WorkerFinished(w, k))
  {
    var w' := WorkerFinished(w, k);
    assert WorkerOk(w, k);
    OwnersUpdate(w.workers, k, w.workers[k].(phase := Gone));
    RosterSurvives(w, w');
    forall id ensures RetainedOk(w', id) { assert RetainedOk(w, id); }
    forall l | 0 <= l < |w'.workers| ensures KeptOk(w', l) { assert KeptOk(w, l); }
  }

  lemma FinishKeepsInv(w: World, k: nat)
    requires Inv(w) && At(w, k, Finishing)
    ensures Inv(WorkerFinished(w, k))
  {
    var w' := WorkerFinished(w, k);
    FinishKeepsCore(w, k);
    FinishKeepsRegistrations(w, k);
    LogsSurvive(w, w');
    forall g | 0 <= g < |w'.gens| ensures GenerationOk(w', g) { assert GenerationOk(w, g); }
    forall l | 0 <= l < |w'.workers| ensures WorkerOk(w', l) && CommittedOk(w', l) {
      assert WorkerOk(w, l) && CommittedOk(w, l);
    }
  }

  // ---------------------------------------------------------------- the receive loop

  lemma ConnectKeepsInv(w: World)
    requires Inv(w) && !w.Connected()
    ensures Inv(Step(w, Connect))
  {
    var w' := Step(w, Connect);
    forall g | 0 <= g < |w'.gens| ensures GenerationOk(w', g) { assert g < |w.gens| ==> GenerationOk(w, g); }
    forall g, id | 0 <= g < |w'.gens| ensures RegistrationOk(w', g, id) && MarkOk(w', g, id) {
      if g < |w.gens| {
        assert RegistrationOk(w, g, id);
        MarksSurvive(w, w', g);
      }
    }
    forall l | 0 <= l < |w'.workers|
      ensures WorkerOk(w', l) && RegisteredOk(w', l) && CommittedOk(w', l) && CancellingOk(w', l) && KeptOk(w', l)
    {
      assert WorkerOk(w, l) && RegisteredOk(w, l) && CommittedOk(w, l) && CancellingOk(w, l) && KeptOk(w, l);
    }
    forall l, m | 0 <= l < |w'.workers| && 0 <= m < |w'.workers|
      ensures Distinct(w', l, m)
    {
      assert Distinct(w, l, m);
    }
    forall g, j | 0 <= g < |w'.gens| && 0 <= j < |w'.gens[g].log| ensures AttemptOk(w', g, j) {
      assert AttemptOk(w, g, j);
      LogSurvives(w, w', g, j);
    }
    forall g, item | 0 <= g < |w'.gens| ensures ResendingOk(w', g, item) { if g < |w.gens| { PassSurvives(w, w', g); } }
    forall id ensures RetainedOk(w', id) { assert RetainedOk(w, id); }
    RosterSurvives(w, w');
    assert |w.gens| > 0 ==> GenerationOk(w, |w.gens| - 1);
  }

  // The receive loop moves its own connection along: the log stays, registrations stay
  // or are dropped wholesale, and no explicit mark appears.
  ghost predicate Turn(w: World, g: Generation) {
    && w.Connected() && g.log == w.Current().log
    && (forall item :: item in g.resending ==>
        MaySpeak(w, |w.gens| - 1, Attempt(Result(item.result), true, item.source)))
    && g.registry.explicit == w.Current().registry.explicit
    && (g.open || g.receiver.Idle?)
    && (if g.open then g.registry.cancels == w.Current().registry.cancels else g.registry.cancels == map[])
    && (g.receiver.Cancelling? ==> forall k :: 0 <= k < |w.workers| && w.workers[k].gen == |w.gens| - 1 ==>
          AckedSince(g.log, g.receiver.job, w.workers[k].admittedAt))
  }

  // A receive loop that is cancelling has answered, as far as every worker goes.
  lemma SameReceiver(w: World)
    requires ExplicitMarks(w) && |w.gens| > 0
    ensures w.Current().receiver.Cancelling? ==>
              forall k :: 0 <= k < |w.workers| && w.workers[k].gen == |w.gens| - 1 ==>
                AckedSince(w.Current().log, w.Current().receiver.job, w.workers[k].admittedAt)
  {
    if w.Current().receiver.Cancelling? {
      forall k | 0 <= k < |w.workers| && w.workers[k].gen == |w.gens| - 1
        ensures AckedSince(w.Current().log, w.Current().receiver.job, w.workers[k].admittedAt)
      {
        assert CancellingOk(w, k);
      }
    }
  }

  lemma SamePass(w: World)
    requires Logs(w) && |w.gens| > 0
    ensures forall item :: item in w.Current().resending ==>
              MaySpeak(w, |w.gens| - 1, Attempt(Result(item.result), true, item.source))
  {
    forall item | item in w.Current().resending
      ensures MaySpeak(w, |w.gens| - 1, Attempt(Result(item.result), true, item.source))
    {
      assert ResendingOk(w, |w.gens| - 1, item);
    }
  }

  lemma TurnKeepsLogs(w: World, g: Generation)
    requires Logs(w) && Turn(w, g) && Extends(w, WithCurrent(w, g))
    ensures Logs(WithCurrent(w, g))
  {
    var w', n := WithCurrent(w, g), |w.gens| - 1;
    forall h, j | 0 <= h < |w'.gens| && 0 <= j < |w'.gens[h].log| ensures AttemptOk(w', h, j) {
      assert AttemptOk(w, h, j);
      LogSurvives(w, w', h, j);
    }
    forall h, item | 0 <= h < |w'.gens| ensures ResendingOk(w', h, item) {
      if h < n {
        PassSurvives(w, w', h);
      } else if item in g.resending {
        MaySpeakSurvives(w, w', n, Attempt(Result(item.result), true, item.source));
      }
    }
  }

  lemma TurnKeepsWorkers(w: World, g: Generation)
    requires Inv(w) && Turn(w, g)
    ensures var w' := WithCurrent(w, g);
            Extends(w, w') && Shape(w') && Registrations(w') && ExplicitMarks(w') && CancelledResults(w') && Logs(w')
  {
    var w' := WithCurrent(w, g);
    forall h | 0 <= h < |w'.gens| ensures GenerationOk(w', h) { assert GenerationOk(w, h); }
    forall h, id | 0 <= h < |w'.gens| ensures RegistrationOk(w', h, id) { assert RegistrationOk(w, h, id); }
    forall l | 0 <= l < |w'.workers|
      ensures WorkerOk(w', l) && RegisteredOk(w', l) && CommittedOk(w', l) && CancellingOk(w', l)
    {
      assert WorkerOk(w, l) && RegisteredOk(w, l) && CommittedOk(w, l) && CancellingOk(w, l);
    }
    forall l, m | 0 <= l < |w'.workers| && 0 <= m < |w'.workers|
      ensures Distinct(w', l, m)
    {
      assert Distinct(w, l, m);
    }
    AllMarksSurvive(w, w');
    TurnKeepsLogs(w, g);
  }

  lemma TurnKeepsInv(w: World, g: Generation)
    requires Inv(w) && Turn(w, g)
    requires g.receiver.Releasing? <==> w.Current().receiver.Releasing?
    ensures Inv(WithCurrent(w, g))
  {
    var w' := WithCurrent(w, g);
    TurnKeepsWorkers(w, g);
    RosterSurvives(w, w');
    forall id ensures RetainedOk(w', id) { assert RetainedOk(w, id); }
    forall l | 0 <= l < |w'.workers| ensures KeptOk(w', l) { assert KeptOk(w, l); }
  }

  lemma FreeKeepsInv(w: World)
    requires Inv(w) && w.Connected() && w.Current().receiver.Releasing?
    ensures Inv(SlotFreed(w))
    ensures w.core.held > 0 && SlotFreed(w).core == w.core.(held := w.core.held - 1)
  {
    var g := w.Current().(receiver := Idle);
    var moved, w' := WithCurrent(w, g), SlotFreed(w);
    SamePass(w);
    TurnKeepsWorkers(w, g);
    CoreIsApart(moved, w');
    RosterSurvives(w, w');
    forall id ensures RetainedOk(w', id) { assert RetainedOk(w, id); }
    forall l | 0 <= l < |w'.workers| ensures KeptOk(w', l) { assert KeptOk(w, l); }
  }

  lemma CancelAckKeepsInv(w: World, accepted: bool)
    requires Inv(w) && w.Connected() && w.Current().receiver.CancelAcking?
    ensures Inv(CancelAcked(w, accepted))
  {
    var r := w.Current().receiver;
    var attempts := [Attempt(CancelAck(r.job, r.epoch, r.completed), accepted, NoWorker)];
    var log := w.Current().log;
    LoggedKeepsInv(w, |w.gens| - 1, attempts);
    var spoken := Logged(w, |w.gens| - 1, attempts);
    var log' := spoken.Current().log;
    assert log'[|log|] == attempts[0];
    forall k | 0 <= k < |w.workers| && w.workers[k].gen == |w.gens| - 1
      ensures AckedSince(log', r.job, w.workers[k].admittedAt)
    {
      assert WorkerOk(w, k);
    }
    SamePass(spoken);
    TurnKeepsInv(spoken, spoken.Current().(receiver := Cancelling(r.job)));
  }

  lemma CancelJobKeepsMarks(w: World, w1: World)
    requires Inv(w) && w.Connected() && w.Current().receiver.Cancelling?
    requires w1 == WithCurrent(w, w.Current().(receiver := Idle)) && Inv(w1)
    ensures forall h, i :: 0 <= h < |w.gens| ==> MarkOk(JobCancelled(w), h, i) && RegistrationOk(JobCancelled(w), h, i)
  {
    var g, w' := w.Current(), JobCancelled(w);
    var n, id := |w.gens| - 1, g.receiver.job;
    forall h, i | 0 <= h < |w'.gens| ensures MarkOk(w', h, i) && RegistrationOk(w', h, i) {
      assert MarkOk(w1, h, i) && RegistrationOk(w1, h, i);
      if h == n && i == id && i in g.registry.cancels {
        assert RegistrationOk(w, n, id) && CancellingOk(w, g.registry.cancels[id]);
        assert CancelledWith(w', n, id, g.registry.cancels[id]);
      } else if i in w'.gens[h].registry.explicit {
        var k :| CancelledWith(w1, h, i, k);
        assert CancelledWith(w', h, i, k);
      }
    }
  }

  lemma CancelJobKeepsInv(w: World)
    requires Inv(w) && w.Connected() && w.Current().receiver.Cancelling?
    ensures Inv(JobCancelled(w))
  {
    var idle := w.Current().(receiver := Idle);
    SamePass(w);
    TurnKeepsInv(w, idle);
    var w1, w' := WithCurrent(w, idle), JobCancelled(w);
    CancelJobKeepsMarks(w, w1);
    forall h | 0 <= h < |w'.gens| ensures GenerationOk(w', h) { assert GenerationOk(w1, h); }
    forall l | 0 <= l < |w'.workers|
      ensures WorkerOk(w', l) && RegisteredOk(w', l) && CommittedOk(w', l) && CancellingOk(w', l) && KeptOk(w', l)
    {
      assert WorkerOk(w1, l) && RegisteredOk(w1, l) && CommittedOk(w1, l) && CancellingOk(w1, l) && KeptOk(w1, l);
    }
    forall l, m | 0 <= l < |w'.workers| && 0 <= m < |w'.workers|
      ensures Distinct(w', l, m)
    {
      assert Distinct(w1, l, m);
    }
    LogsSurvive(w1, w');
    RosterSurvives(w1, w');
    forall i ensures RetainedOk(w', i) { assert RetainedOk(w1, i); }
  }

  lemma AdmitKeepsRegistrations(w: World, job: Assignment)
    requires Inv(w) && w.AtRest() && AdmissionOf(w, job).Admitted?
    ensures Registrations(AdmittedTo(w, job)) && ExplicitMarks(AdmittedTo(w, job))
  {
    var w' := AdmittedTo(w, job);
    var n := |w.workers|;
    forall g, id | 0 <= g < |w'.gens| ensures RegistrationOk(w', g, id) {
      assert RegistrationOk(w, g, id);
    }
    forall l | 0 <= l < |w'.workers| ensures RegisteredOk(w', l) && CancellingOk(w', l) {
      if l < n { assert RegisteredOk(w, l) && CancellingOk(w, l) && WorkerOk(w, l); }
    }
    forall l, m | 0 <= l < |w'.workers| && 0 <= m < |w'.workers| ensures Distinct(w', l, m) {
      if l < n { assert RegisteredOk(w, l); }
      if m < n { assert RegisteredOk(w, m); }
      if l < n && m < n { assert Distinct(w, l, m); }
    }
    AllMarksSurvive(w, w');
  }

  lemma AdmitKeepsInv(w: World, job: Assignment)
    requires Inv(w) && w.AtRest() && AdmissionOf(w, job).Admitted?
    ensures Inv(AdmittedTo(w, job))
  {
    var w' := AdmittedTo(w, job);
    var n := |w.workers|;
    AdmitKeepsRegistrations(w, job);
    OwnersAppend(w.workers, w'.workers[n]);
    LogsSurvive(w, w');
    forall g | 0 <= g < |w'.gens| ensures GenerationOk(w', g) { assert GenerationOk(w, g); }
    forall l | 0 <= l < |w'.workers| ensures WorkerOk(w', l) && CommittedOk(w', l) && KeptOk(w', l) {
      if l < n { assert WorkerOk(w, l) && CommittedOk(w, l) && KeptOk(w, l); }
    }
    forall id ensures RetainedOk(w', id) { assert RetainedOk(w, id); }
    forall id ensures RosterOk(w', id) {
      assert RosterOk(w, id);
      if id == job.jobId {
        assert Attests(w', id, job.epoch, n);
      } else if id in w.core.inFlight {
        var l :| Attests(w, id, w.core.inFlight[id], l);
        assert Attests(w', id, w.core.inFlight[id], l);
      }
    }
  }

  // Marking a kept worker acknowledged changes nothing the other facts look at.
  lemma AcknowledgeKeepsWorkers(w: World, id: JobId)
    requires Shape(w) && Registrations(w) && ExplicitMarks(w) && CancelledResults(w) && Logs(w)
    ensures var w' := w.(workers := AcknowledgeAll(w.workers, id));
            Shape(w') && Registrations(w') && ExplicitMarks(w') && CancelledResults(w') && Logs(w')
  {
    var w' := w.(workers := AcknowledgeAll(w.workers, id));
    forall h | 0 <= h < |w'.gens| ensures GenerationOk(w', h) { assert GenerationOk(w, h); }
    forall h, i | 0 <= h < |w'.gens| ensures RegistrationOk(w', h, i) { assert RegistrationOk(w, h, i); }
    forall l | 0 <= l < |w'.workers|
      ensures WorkerOk(w', l) && RegisteredOk(w', l) && CommittedOk(w', l) && CancellingOk(w', l)
    {
      assert WorkerOk(w, l) && RegisteredOk(w, l) && CommittedOk(w, l) && CancellingOk(w, l);
    }
    forall l, m | 0 <= l < |w'.workers| && 0 <= m < |w'.workers|
      ensures Distinct(w', l, m)
    {
      assert Distinct(w, l, m);
    }
    AllMarksSurvive(w, w');
    LogsSurvive(w, w');
  }

  lemma SettleKeepsStructure(w: World, id: JobId)
    requires Inv(w) && w.AtRest() && id in w.core.unacked
    ensures var w' := ResultSettled(w, id);
            Shape(w') && Registrations(w') && ExplicitMarks(w') && CancelledResults(w') && Logs(w')
  {
    var g := w.Current().(receiver := Releasing);
    SamePass(w);
    TurnKeepsWorkers(w, g);
    var turned := WithCurrent(w, g);
    AcknowledgeKeepsWorkers(turned, id);
    CoreIsApart(turned.(workers := AcknowledgeAll(w.workers, id)), ResultSettled(w, id));
  }

  lemma SettleKeepsCore(w: World, id: JobId)
    requires Ledger(w) && Buffer(w) && Roster(w) && w.AtRest() && id in w.core.unacked
    ensures Ledger(ResultSettled(w, id)) && Buffer(ResultSettled(w, id)) && Roster(ResultSettled(w, id))
  {
    var w' := ResultSettled(w, id);
    CardinalityWithout(w.core.unacked, id);
    OwnersPointwise(w.workers, w'.workers);
    RosterSurvives(w, w');
    forall l | 0 <= l < |w'.workers| ensures KeptOk(w', l) { assert KeptOk(w, l); }
    forall i ensures RetainedOk(w', i) { assert RetainedOk(w, i); }
  }

  lemma SettleKeepsInv(w: World, id: JobId)
    requires Inv(w) && w.AtRest() && id in w.core.unacked
    ensures Inv(ResultSettled(w, id))
  {
    SettleKeepsStructure(w, id);
    SettleKeepsCore(w, id);
  }

  // ---------------------------------------------------------------- the resend loop

  lemma PassKeepsInv(w: World)
    requires Inv(w) && w.Connected()
    ensures Inv(WithCurrent(w, w.Current().(resending := Snapshot(w))))
  {
    forall item | item in Snapshot(w)
      ensures MaySpeak(w, |w.gens| - 1, Attempt(Result(item.result), true, item.source))
    {
      var id :| id in w.core.unacked && id in w.producer && item == Resent(w.core.unacked[id], w.producer[id]);
      assert RetainedOk(w, id) && CommittedOk(w, w.producer[id]);
    }
    SameReceiver(w);
    TurnKeepsInv(w, w.Current().(resending := Snapshot(w)));
  }

  lemma OfferKeepsInv(w: World, item: Resent, accepted: bool)
    requires Inv(w) && w.Connected() && item in w.Current().resending
    ensures Inv(OfferedAgain(w, item, accepted))
  {
    var n := |w.gens| - 1;
    assert ResendingOk(w, n, item);
    LoggedKeepsInv(w, n, [Attempt(Result(item.result), accepted, item.source)]);
    var spoken := Logged(w, n, [Attempt(Result(item.result), accepted, item.source)]);
    SamePass(spoken);
    SameReceiver(spoken);
    TurnKeepsInv(spoken, spoken.Current().(resending := if accepted then spoken.Current().resending - {item} else {}));
  }

  // ---------------------------------------------------------------- every step, every run

  lemma ReceiverKeepsInv(w: World, e: Event)
    requires Inv(w) && Enabled(w, e)
    requires e.Disconnect? || e.Assign? || e.Cancellation? || e.Drain? || e.ResendPass? || e.Resend?
    ensures Inv(Step(w, e))
  {
    var g := w.Current();
    SamePass(w);
    match e
    case Disconnect => TurnKeepsInv(w, g.(open := false, registry := AllCancelled(g.registry)));
    case Assign(job, accepted) =>
      if AdmissionOf(w, job).Admitted? {
        AdmitKeepsInv(w, job);
      } else {
        LoggedKeepsInv(w, |w.gens| - 1, Attempts(Answer(AdmissionOf(w, job), job), accepted));
      }
    case Cancellation(id, epoch) => TurnKeepsInv(w, g.(receiver := CancelAcking(id, epoch, id in w.core.unacked)));
    case Drain => TurnKeepsInv(w, g.(draining := true));
    case ResendPass => PassKeepsInv(w);
    case Resend(item, accepted) => OfferKeepsInv(w, item, accepted);
  }

  lemma WorkerKeepsInv(w: World, e: Event)
    requires Inv(w) && Enabled(w, e)
    requires e.Announce? || e.Begin? || e.Return?
    ensures Inv(Step(w, e))
  {
    var me := w.workers[e.worker];
    assert WorkerOk(w, e.worker);
    match e
    case Announce(k, accepted) => SpokenKeepsInv(w, k, JobAck(me.job, me.epoch), accepted, Starting);
    case Begin(k, accepted) => SpokenKeepsInv(w, k, JobStarted(me.job, me.epoch), accepted, Executing);
    case Return(k, outcome) => StayKeepsInv(w, k, me.(phase := Returned, outcome := outcome));
  }

  lemma DeliverKeepsInv(w: World, k: nat, accepted: bool)
    requires Inv(w) && At(w, k, Delivering)
    ensures Inv(Step(w, Deliver(k, accepted)))
  {
    var me := w.workers[k];
    assert WorkerOk(w, k) && CommittedOk(w, k);
    SpokenKeepsInv(w, k, Result(me.ResultOf()), accepted, Finishing);
  }

  /** Every step keeps every invariant. */
  lemma StepKeepsInv(w: World, e: Event)
    requires Inv(w) && Enabled(w, e)
    ensures Inv(Step(w, e))
  {
    match e
    case Connect => ConnectKeepsInv(w);
    case ResultAck(id) => if id in w.core.unacked { SettleKeepsInv(w, id); }
    case FreeSlot => FreeKeepsInv(w);
    case AckCancellation(accepted) => CancelAckKeepsInv(w, accepted);
    case CancelJob => CancelJobKeepsInv(w);
    case Clear(k) => ClearKeepsInv(w, k);
    case Decide(k) => DecideKeepsInv(w, k);
    case Abandon(k) => AbandonKeepsInv(w, k);
    case Retain(k) => RetainKeepsInv(w, k);
    case Finish(k) => FinishKeepsInv(w, k);
    case Announce(_, _) => WorkerKeepsInv(w, e);
    case Begin(_, _) => WorkerKeepsInv(w, e);
    case Return(_, _) => WorkerKeepsInv(w, e);
    case Deliver(k, accepted) => DeliverKeepsInv(w, k, accepted);
    case _ => ReceiverKeepsInv(w, e);
  }

  lemma {:induction false} RunKeepsInv(w: World, run: seq<Event>)
    requires Inv(w) && ValidFrom(w, run)
    ensures Inv(After(w, run))
    decreases |run|
  {
    if run != [] {
      StepKeepsInv(w, run[0]);
      RunKeepsInv(Step(w, run[0]), run[1..]);
    }
  }
}
