/** The values a relay session is made of, and the decisions taken on them.

    `Core` is what survives a reconnect: the outstanding-work semaphore, the unacked
    results and the in-flight roster.  `Registry` belongs to one connection: which jobs
    it may still cancel, and which of them the control plane cancelled explicitly. */
module SessionState {
  type JobId = string
  type LeaseEpoch = nat

  datatype FailureKind = Cancelled | IdentityMismatch | UnsupportedCapability | OtherFailure(code: nat)
  datatype Outcome = Payload(data: string) | Failure(kind: FailureKind)
  datatype JobResult = JobResult(jobId: JobId, epoch: LeaseEpoch, outcome: Outcome)

  predicate IsCancelled(result: JobResult) {
    result.outcome == Failure(Cancelled)
  }

  datatype Capability = Capability(id: string, version: nat)

  datatype Config = Config(orgId: string, registrationId: string, capabilities: seq<Capability>, maxConcurrentJobs: nat)

  datatype Assignment = Assignment(jobId: JobId, epoch: LeaseEpoch, orgId: string, registrationId: string,
                                   capability: Capability)

  datatype Message =
    | JobAck(jobId: JobId, epoch: LeaseEpoch)
    | JobStarted(jobId: JobId, epoch: LeaseEpoch)
    | Result(result: JobResult)
    | CancelAck(jobId: JobId, epoch: LeaseEpoch, alreadyCompleted: bool)
    | IntakeShed

  datatype Core = Core(capacity: nat, held: nat, unacked: map<JobId, JobResult>, inFlight: map<JobId, LeaseEpoch>)

  // A job context is named by a number: the registry maps a job to the context its
  // worker runs under, and `signalled` are the contexts that were cancelled.
  datatype Registry = Registry(cancels: map<JobId, nat>, explicit: set<JobId>, signalled: set<nat>)

  const EmptyRegistry := Registry(map[], {}, {})

  function InitialCore(config: Config): Core {
    Core(if config.maxConcurrentJobs < 1 then 1 else config.maxConcurrentJobs, 0, map[], map[])
  }

  function Acquired(core: Core): Core {
    core.(held := core.held + 1)
  }

  // The semaphore's receive has a default branch, so releasing an empty one is a no-op.
  function Released(core: Core): Core {
    if core.held > 0 then core.(held := core.held - 1) else core
  }

  function Retained(core: Core, result: JobResult): Core {
    core.(unacked := core.unacked[result.jobId := result])
  }

  function Settled(core: Core, jobId: JobId): Core {
    core.(unacked := core.unacked - {jobId})
  }

  function Marked(core: Core, jobId: JobId, epoch: LeaseEpoch): Core {
    core.(inFlight := core.inFlight[jobId := epoch])
  }

  // Clearing is by job id alone: it does not look at the epoch or the generation.
  function Cleared(core: Core, jobId: JobId): Core {
    core.(inFlight := core.inFlight - {jobId})
  }

  function Registered(registry: Registry, jobId: JobId, context: nat): Registry {
    registry.(cancels := registry.cancels[jobId := context])
  }

  function Unregistered(registry: Registry, jobId: JobId): Registry {
    if jobId in registry.cancels
    then Registry(registry.cancels - {jobId}, registry.explicit - {jobId},
                  registry.signalled + {registry.cancels[jobId]})
    else registry.(explicit := registry.explicit - {jobId})
  }

  function ExplicitlyCancelled(registry: Registry, jobId: JobId): Registry {
    if jobId in registry.cancels
    then registry.(explicit := registry.explicit + {jobId}, signalled := registry.signalled + {registry.cancels[jobId]})
    else registry
  }

  // Teardown forgets every registration but keeps the explicit marks.
  function AllCancelled(registry: Registry): Registry {
    Registry(map[], registry.explicit, registry.signalled + registry.cancels.Values)
  }

  /** What becomes of one assignment.  The order of the tests is the order of the code:
      draining, redelivery, identity, capability, capacity. */
  datatype Admission = ShedDraining | Redelivered | IdentityRefused | CapabilityRefused | ShedFull | Admitted

  function Admit(config: Config, core: Core, registry: Registry, draining: bool, job: Assignment): Admission {
    if draining then ShedDraining
    else if job.jobId in registry.cancels || job.jobId in core.unacked then Redelivered
    else if job.orgId != config.orgId || job.registrationId != config.registrationId then IdentityRefused
    else if job.capability !in config.capabilities then CapabilityRefused
    else if core.held >= core.capacity then ShedFull
    else Admitted
  }

  // The message the receive loop itself answers with; an admitted job is answered by its worker.
  function Answer(admission: Admission, job: Assignment): (answer: seq<Message>)
    ensures |answer| == if admission.Admitted? then 0 else 1
    ensures IntakeShed in answer <==> admission.ShedDraining? || admission.ShedFull?
    ensures JobAck(job.jobId, job.epoch) in answer <==> admission.Redelivered?
    ensures forall m :: m in answer && m.Result? ==>
              && m.result.epoch == job.epoch
              && m.result.outcome == Failure(if admission.IdentityRefused? then IdentityMismatch
                                             else UnsupportedCapability)
    ensures forall m :: m in answer && m.Result? ==> !IsCancelled(m.result) && m.result.jobId == job.jobId
  {
    match admission
    case ShedDraining => [IntakeShed]
    case Redelivered => [JobAck(job.jobId, job.epoch)]
    case IdentityRefused => [Result(JobResult(job.jobId, job.epoch, Failure(IdentityMismatch)))]
    case CapabilityRefused => [Result(JobResult(job.jobId, job.epoch, Failure(UnsupportedCapability)))]
    case ShedFull => [IntakeShed]
    case Admitted => []
  }
}
