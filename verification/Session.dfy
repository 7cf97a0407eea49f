/** The session's objects: the unacked buffer, the job registry, the single sender and the
    session itself.  Every method is one critical section of the code, specified by the
    functions the protocol's state machine is built from. */
module SessionObjects {
  import opened SessionState

  /** Retains every produced result until it is acknowledged. */
  class Unacked {
    var results: map<JobId, JobResult>

    ghost predicate Valid()
      reads this
    {
      forall id :: id in results ==> results[id].jobId == id
    }

    constructor ()
      ensures Valid() && results == map[]
    {
      results := map[];
    }

    method Add(result: JobResult)
      requires Valid()
      modifies this
      ensures Valid() && results == old(results)[result.jobId := result]
    {
      results := results[result.jobId := result];
    }

    method Ack(jobId: JobId) returns (removed: bool)
      requires Valid()
      modifies this
      ensures Valid() && results == old(results) - {jobId}
      ensures removed <==> jobId in old(results)
    {
      if jobId !in results {
        return false;
      }
      results := results - {jobId};
      return true;
    }

    predicate Has(jobId: JobId)
      reads this
    {
      jobId in results
    }

    // Each retained result exactly once, in no particular order.
    method Pending() returns (pending: seq<JobResult>)
      requires Valid()
      ensures |pending| == |results|
      ensures forall r :: r in pending <==> r.jobId in results && results[r.jobId] == r
    {
      pending := [];
      var left := results.Keys;
      while left != {}
        invariant left <= results.Keys && |pending| + |left| == |results|
        invariant forall r :: r in pending <==> r.jobId in results && r.jobId !in left && results[r.jobId] == r
        decreases left
      {
        var id :| id in left;
        pending := pending + [results[id]];
        left := left - {id};
      }
    }
  }

  /** Per-job cancellation for one connection. */
  class JobRegistry {
    var cancels: map<JobId, nat>
    var explicit: set<JobId>
    var signalled: set<nat>

    ghost function View(): Registry
      reads this
    {
      Registry(cancels, explicit, signalled)
    }

    constructor ()
      ensures View() == EmptyRegistry
    {
      cancels, explicit, signalled := map[], {}, {};
    }

    method Add(jobId: JobId, context: nat)
      modifies this
      ensures View() == Registered(old(View()), jobId, context)
      ensures cancels == old(cancels)[jobId := context] && explicit == old(explicit) && signalled == old(signalled)
    {
      cancels := cancels[jobId := context];
    }

    method Remove(jobId: JobId)
      modifies this
      ensures View() == Unregistered(old(View()), jobId)
      ensures cancels == old(cancels) - {jobId} && explicit == old(explicit) - {jobId}
      ensures signalled == old(signalled) + if jobId in old(cancels) then {old(cancels)[jobId]} else {}
    {
      if jobId in cancels {
        signalled := signalled + {cancels[jobId]};
        cancels := cancels - {jobId};
      }
      explicit := explicit - {jobId};
    }

    method Cancel(jobId: JobId)
      modifies this
      ensures View() == ExplicitlyCancelled(old(View()), jobId)
      ensures cancels == old(cancels)
      ensures explicit == old(explicit) + if jobId in old(cancels) then {jobId} else {}
      ensures signalled == old(signalled) + if jobId in old(cancels) then {old(cancels)[jobId]} else {}
    {
      if jobId in cancels {
        explicit := explicit + {jobId};
        signalled := signalled + {cancels[jobId]};
      }
    }

    method CancelAll()
      modifies this
      ensures View() == AllCancelled(old(View()))
      ensures cancels == map[] && explicit == old(explicit)
      ensures forall context :: context in signalled <==>
                context in old(signalled) || exists id :: id in old(cancels) && old(cancels)[id] == context
    {
      var left := cancels.Keys;
      while left != {}
        invariant left <= cancels.Keys
        invariant cancels == old(cancels) && explicit == old(explicit)
        invariant signalled == old(signalled) + set id | id in cancels && id !in left :: cancels[id]
        decreases left
      {
        var id :| id in left;
        signalled := signalled + {cancels[id]};
        left := left - {id};
      }
      cancels := map[];
    }
  }

  // What becomes of a message offered to the sender.
  datatype Offer = Accepted | Refused | Waiting

  /** The one writer to the stream, behind a bounded channel. */
  class Sender {
    const capacity: nat
    var out: seq<Message>
    ghost var accepted: seq<Message>
    ghost var sent: seq<Message>

    // What was sent and what is queued is what was accepted, in that order.
    ghost predicate Valid()
      reads this
    {
      sent + out == accepted && |out| <= capacity
    }

    constructor (capacity: nat)
      ensures Valid() && this.capacity == capacity && accepted == [] && out == []
    {
      this.capacity := capacity;
      out, accepted, sent := [], [], [];
    }

    // One look at the channel and the context.  With room the message is accepted, with
    // the context done it is refused, and when both hold the select may take either branch;
    // when neither does, the caller goes on waiting.
    method Enqueue(message: Message, done: bool, preferDone: bool) returns (offer: Offer)
      requires Valid()
      modifies this
      ensures Valid() && sent == old(sent)
      ensures accepted == old(accepted) + if offer.Accepted? then [message] else []
      ensures offer.Accepted? ==> |old(out)| < capacity
      ensures offer.Refused? ==> done
      ensures offer.Waiting? <==> |old(out)| == capacity && !done
    {
      if |out| < capacity && !(done && preferDone) {
        out := out + [message];
        accepted := accepted + [message];
        return Accepted;
      }
      return if done then Refused else Waiting;
    }

    // Writes up to `rounds` queued messages; `failAt` is the round whose Send fails.
    method Run(rounds: nat, failAt: nat) returns (ok: bool)
      requires Valid()
      modifies this
      ensures Valid() && accepted == old(accepted)
      ensures ok <==> failAt >= rounds || failAt >= |old(out)|
      ensures |out| <= |old(out)| && sent == old(sent) + old(out)[..|old(out)| - |out|]
      ensures ok ==> |out| == if rounds >= |old(out)| then 0 else |old(out)| - rounds
      ensures !ok ==> |out| == |old(out)| - failAt
    {
      var i := 0;
      while i < rounds && out != []
        invariant Valid() && accepted == old(accepted) && i <= rounds && i <= |old(out)|
        invariant sent == old(sent) + old(out)[..i] && out == old(out)[i..] && i <= failAt
      {
        if i == failAt {
          return false;
        }
        sent := sent + [out[0]];
        out := out[1..];
        i := i + 1;
      }
      return true;
    }
  }

  /** What survives a reconnect, with the handling of every message that touches it. */
  class Session {
    const config: Config
    const capacity: nat
    var outstanding: nat
    const unacked: Unacked
    var inFlight: map<JobId, LeaseEpoch>

    ghost function View(): Core
      reads this, unacked
    {
      Core(capacity, outstanding, unacked.results, inFlight)
    }

    ghost predicate Valid()
      reads this, unacked
    {
      unacked.Valid() && outstanding <= capacity && 1 <= capacity
    }

    constructor (config: Config)
      ensures Valid() && this.config == config && View() == InitialCore(config) && fresh(unacked)
      ensures capacity == (if config.maxConcurrentJobs == 0 then 1 else config.maxConcurrentJobs)
      ensures outstanding == 0 && unacked.results == map[] && inFlight == map[]
    {
      this.config := config;
      this.capacity := if config.maxConcurrentJobs < 1 then 1 else config.maxConcurrentJobs;
      outstanding := 0;
      unacked := new Unacked();
      inFlight := map[];
    }

    method AcquireSlot() returns (ok: bool)
      requires Valid()
      modifies this
      ensures Valid() && ok == (old(outstanding) < capacity)
      ensures View() == if ok then Acquired(old(View())) else old(View())
      ensures outstanding == (if ok then old(outstanding) + 1 else old(outstanding)) && inFlight == old(inFlight)
    {
      if outstanding < capacity {
        outstanding := outstanding + 1;
        return true;
      }
      return false;
    }

    method ReleaseSlot()
      requires Valid()
      modifies this
      ensures Valid() && View() == Released(old(View()))
      ensures outstanding == (if old(outstanding) > 0 then old(outstanding) - 1 else 0) && inFlight == old(inFlight)
    {
      if outstanding > 0 {
        outstanding := outstanding - 1;
      }
    }

    method MarkInFlight(jobId: JobId, epoch: LeaseEpoch)
      requires Valid()
      modifies this
      ensures Valid() && View() == Marked(old(View()), jobId, epoch)
      ensures inFlight == old(inFlight)[jobId := epoch] && outstanding == old(outstanding)
    {
      inFlight := inFlight[jobId := epoch];
    }

    method ClearInFlight(jobId: JobId)
      requires Valid()
      modifies this
      ensures Valid() && View() == Cleared(old(View()), jobId)
      ensures inFlight == old(inFlight) - {jobId} && outstanding == old(outstanding)
    {
      inFlight := inFlight - {jobId};
    }

    // The roster a hello reports: every in-flight job once, with its epoch.
    method InFlightRoster() returns (roster: seq<(JobId, LeaseEpoch)>)
      ensures |roster| == |inFlight|
      ensures forall id, epoch :: (id, epoch) in roster <==> id in inFlight && inFlight[id] == epoch
    {
      roster := [];
      var left := inFlight.Keys;
      while left != {}
        invariant left <= inFlight.Keys && |roster| + |left| == |inFlight|
        invariant forall id, epoch :: (id, epoch) in roster <==> id in inFlight && id !in left && inFlight[id] == epoch
        decreases left
      {
        var id :| id in left;
        roster := roster + [(id, inFlight[id])];
        left := left - {id};
      }
    }

    method SupportsAssignment(job: Assignment) returns (ok: bool)
      ensures ok <==> job.capability in config.capabilities
    {
      var i := 0;
      while i < |config.capabilities|
        invariant i <= |config.capabilities| && job.capability !in config.capabilities[..i]
      {
        var declared := config.capabilities[i];
        if declared.id == job.capability.id && declared.version == job.capability.version {
          return true;
        }
        i := i + 1;
      }
      return false;
    }

    /** The receive loop's handling of an assignment, up to the point where the worker is
        started; `answer` is what it enqueues itself.  It is admitted exactly when the session
        is not draining, the job is neither running nor retained, it names this session's
        organisation and registration and a declared capability, and a slot is free; then one
        slot is taken, and otherwise nothing is. */
    method DispatchAssignment(job: Assignment, jobs: JobRegistry, draining: bool, context: nat)
      returns (admission: Admission, answer: seq<Message>)
      requires Valid()
      modifies this, jobs
      ensures Valid()
      ensures admission == Admit(config, old(View()), old(jobs.View()), draining, job)
      ensures answer == Answer(admission, job)
      ensures admission.Admitted? <==>
                && !draining && job.jobId !in old(jobs.cancels) && job.jobId !in old(unacked.results)
                && job.orgId == config.orgId && job.registrationId == config.registrationId
                && job.capability in config.capabilities && old(outstanding) < capacity
      ensures admission.ShedDraining? <==> draining
      ensures admission.Redelivered? <==>
                !draining && (job.jobId in old(jobs.cancels) || job.jobId in old(unacked.results))
      ensures admission.IdentityRefused? <==>
                && !draining && job.jobId !in old(jobs.cancels) && job.jobId !in old(unacked.results)
                && (job.orgId != config.orgId || job.registrationId != config.registrationId)
      ensures admission.CapabilityRefused? <==>
                && !draining && job.jobId !in old(jobs.cancels) && job.jobId !in old(unacked.results)
                && job.orgId == config.orgId && job.registrationId == config.registrationId
                && job.capability !in config.capabilities
      ensures admission.Admitted? ==> answer == []
      ensures admission.ShedDraining? || admission.ShedFull? ==> answer == [IntakeShed]
      ensures admission.Redelivered? ==> answer == [JobAck(job.jobId, job.epoch)]
      ensures admission.IdentityRefused? ==>
                answer == [Result(JobResult(job.jobId, job.epoch, Failure(IdentityMismatch)))]
      ensures admission.CapabilityRefused? ==>
                answer == [Result(JobResult(job.jobId, job.epoch, Failure(UnsupportedCapability)))]
      ensures outstanding == old(outstanding) + if admission.Admitted? then 1 else 0
      ensures inFlight == if admission.Admitted? then old(inFlight)[job.jobId := job.epoch] else old(inFlight)
      ensures jobs.cancels == if admission.Admitted? then old(jobs.cancels)[job.jobId := context]
                              else old(jobs.cancels)
      ensures View() == if admission.Admitted? then Marked(Acquired(old(View())), job.jobId, job.epoch) else old(View())
      ensures jobs.View() == if admission.Admitted? then Registered(old(jobs.View()), job.jobId, context)
                             else old(jobs.View())
    {
      if draining {
        return ShedDraining, [IntakeShed];
      }
      if job.jobId in jobs.cancels || unacked.Has(job.jobId) {
        return Redelivered, [JobAck(job.jobId, job.epoch)];
      }
      if job.orgId != config.orgId || job.registrationId != config.registrationId {
        return IdentityRefused, [Result(JobResult(job.jobId, job.epoch, Failure(IdentityMismatch)))];
      }
      var supported := SupportsAssignment(job);
      if !supported {
        return CapabilityRefused, [Result(JobResult(job.jobId, job.epoch, Failure(UnsupportedCapability)))];
      }
      var ok := AcquireSlot();
      if !ok {
        return ShedFull, [IntakeShed];
      }
      jobs.Add(job.jobId, context);
      MarkInFlight(job.jobId, job.epoch);
      return Admitted, [];
    }

    // A result's fate is settled; its slot is freed only if an entry was removed.
    method HandleResultAck(jobId: JobId)
      requires Valid()
      modifies this, unacked
      ensures Valid()
      ensures View() == if jobId in old(unacked.results) then Released(Settled(old(View()), jobId)) else old(View())
      ensures unacked.results == old(unacked.results) - {jobId} && inFlight == old(inFlight)
      ensures outstanding == if jobId in old(unacked.results) && old(outstanding) > 0 then old(outstanding) - 1
                             else old(outstanding)
    {
      var removed := unacked.Ack(jobId);
      if removed {
        ReleaseSlot();
      }
      assert jobId !in old(unacked.results) ==> old(unacked.results) - {jobId} == old(unacked.results);
    }

    /** The CancelAck is offered to the sender before the job is cancelled; while the offer
        waits, nothing is cancelled yet. */
    method HandleCancellation(jobId: JobId, epoch: LeaseEpoch, sender: Sender, jobs: JobRegistry, done: bool,
                              preferDone: bool)
      returns (offer: Offer)
      requires Valid() && sender.Valid()
      modifies sender, jobs
      ensures sender.Valid() && sender.sent == old(sender.sent)
      ensures sender.accepted == old(sender.accepted) +
                if offer.Accepted? then [CancelAck(jobId, epoch, jobId in unacked.results)] else []
      ensures offer.Waiting? <==> |old(sender.out)| == sender.capacity && !done
      ensures jobs.View() == if offer.Waiting? then old(jobs.View()) else ExplicitlyCancelled(old(jobs.View()), jobId)
      ensures jobs.cancels == old(jobs.cancels)
      ensures var cancelled := !offer.Waiting? && jobId in old(jobs.cancels);
              && jobs.explicit == old(jobs.explicit) + (if cancelled then {jobId} else {})
              && jobs.signalled == old(jobs.signalled) + if cancelled then {old(jobs.cancels)[jobId]} else {}
    {
      var completed := unacked.Has(jobId);
      offer := sender.Enqueue(CancelAck(jobId, epoch, completed), done, preferDone);
      if offer.Waiting? {
        return;
      }
      jobs.Cancel(jobId);
    }

    /** The worker's conclusion after Execute returned: clear the roster, then abandon a
        cancellation nobody asked for, or retain the result. */
    method Conclude(result: JobResult, jobs: JobRegistry) returns (abandoned: bool)
      requires Valid()
      modifies this, unacked
      ensures Valid()
      ensures abandoned <==> result.outcome == Failure(Cancelled) && result.jobId !in jobs.explicit
      ensures inFlight == old(inFlight) - {result.jobId}
      ensures unacked.results == if abandoned then old(unacked.results)
                                 else old(unacked.results)[result.jobId := result]
      ensures outstanding == if abandoned && old(outstanding) > 0 then old(outstanding) - 1 else old(outstanding)
      ensures View() == var cleared := Cleared(old(View()), result.jobId);
                        if abandoned then Released(cleared) else Retained(cleared, result)
    {
      ClearInFlight(result.jobId);
      if IsCancelled(result) && result.jobId !in jobs.explicit {
        ReleaseSlot();
        return true;
      }
      unacked.Add(result);
      return false;
    }
  }
}
