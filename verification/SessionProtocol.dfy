/** The job protocol as a state machine over every interleaving.

    A generation is one accepted connection.  Workers are goroutines: they outlive the
    connection that started them, and each of their statements that touches shared state
    is one step.  The receive loop handles one message at a time; where it touches shared
    state twice for one message, the point between the two is a `Receiver` state. */
module SessionProtocol {
  import opened SessionState

  datatype Phase =
    | Acking | Starting | Executing
    | Returned      // Execute has returned, the roster entry is not cleared yet
    | Deciding      // roster cleared, about to ask whether to abandon
    | Abandoning    // about to release the slot
    | Retaining     // about to hand the result to the unacked buffer
    | Delivering    // result retained, about to enqueue it
    | Finishing     // about to leave the registry
    | Gone

  // What became of the slot a worker was admitted with.
  datatype Fate = Live | Abandoned | Kept | Acknowledged

  // `outcome` is meaningful from Returned on; `admittedAt` is the length of the
  // generation's outbound log when the worker was admitted.
  datatype Worker = Worker(gen: nat, job: JobId, epoch: LeaseEpoch, phase: Phase, fate: Fate, outcome: Outcome,
                           admittedAt: nat)
  {
    function ResultOf(): JobResult { JobResult(job, epoch, outcome) }
    predicate InRoster() { phase in {Acking, Starting, Executing, Returned} }
  }

  // One attempt to enqueue a message.  `source` is the worker whose result or report it
  // carries; an attempt is refused only when the connection's context is done.
  datatype Attempt = Attempt(message: Message, accepted: bool, source: int)

  const NoWorker := -1

  datatype Receiver =
    | Idle
    | CancelAcking(job: JobId, epoch: LeaseEpoch, completed: bool)
    | Cancelling(job: JobId)
    | Releasing

  // A retained result the resend loop took from the buffer, and the worker behind it.
  datatype Resent = Resent(result: JobResult, source: nat)

  // `resending` is what the current pass of the resend loop has still to offer.
  datatype Generation = Generation(open: bool, draining: bool, receiver: Receiver, registry: Registry,
                                   log: seq<Attempt>, resending: set<Resent>)

  const FreshGeneration := Generation(true, false, Idle, EmptyRegistry, [], {})

  // `producer` names the worker behind each retained result; `overwritten` counts the
  // times a result was retained over one that was still unacknowledged; `cleared` says of
  // each worker that cleared its roster entry how many workers there were by then.
  datatype World = World(config: Config, core: Core, gens: seq<Generation>, workers: seq<Worker>,
                         producer: map<JobId, nat>, overwritten: nat, cleared: map<nat, nat>)
  {
    predicate Connected() { |gens| > 0 && gens[|gens| - 1].open }
    function Current(): Generation requires |gens| > 0 { gens[|gens| - 1] }
    predicate AtRest() { Connected() && Current().receiver.Idle? }
  }

  function Start(config: Config): World {
    World(config, InitialCore(config), [], [], map[], 0, map[])
  }

  datatype Event =
    | Connect
    | Disconnect
    | Assign(job: Assignment, accepted: bool)
    | ResultAck(jobId: JobId)
    | FreeSlot
    | Cancellation(jobId: JobId, epoch: LeaseEpoch)
    | AckCancellation(accepted: bool)
    | CancelJob
    | Drain
    | Announce(worker: nat, accepted: bool)
    | Begin(worker: nat, accepted: bool)
    | Return(worker: nat, outcome: Outcome)
    | Clear(worker: nat)
    | Decide(worker: nat)
    | Abandon(worker: nat)
    | Retain(worker: nat)
    | Deliver(worker: nat, accepted: bool)
    | Finish(worker: nat)
    | ResendPass
    | Resend(item: Resent, accepted: bool)

  // A worker says something; or it moves on in silence.
  predicate Speaks(e: Event) { e.Announce? || e.Begin? || e.Deliver? }

  predicate MovesOn(e: Event) { e.Return? || e.Decide? || e.Abandon? || e.Retain? || e.Finish? }

  predicate At(w: World, k: nat, phase: Phase) {
    k < |w.workers| && w.workers[k].phase == phase && w.workers[k].gen < |w.gens|
  }

  predicate Enabled(w: World, e: Event) {
    match e
    case Connect => !w.Connected()
    case Disconnect => w.AtRest()
    case Assign(_, _) => w.AtRest()
    case ResultAck(_) => w.AtRest()
    case FreeSlot => w.Connected() && w.Current().receiver.Releasing?
    case Cancellation(_, _) => w.AtRest()
    case AckCancellation(_) => w.Connected() && w.Current().receiver.CancelAcking?
    case CancelJob => w.Connected() && w.Current().receiver.Cancelling?
    case Drain => w.AtRest()
    case Announce(k, _) => At(w, k, Acking)
    case Begin(k, _) => At(w, k, Starting)
    case Return(k, _) => At(w, k, Executing)
    case Clear(k) => At(w, k, Returned)
    case Decide(k) => At(w, k, Deciding)
    case Abandon(k) => At(w, k, Abandoning)
    case Retain(k) => At(w, k, Retaining)
    case Deliver(k, _) => At(w, k, Delivering)
    case Finish(k) => At(w, k, Finishing)
    case ResendPass => w.Connected() && w.Current().resending == {}
    case Resend(item, _) => w.Connected() && item in w.Current().resending
  }

  function WithCurrent(w: World, g: Generation): World
    requires |w.gens| > 0
  {
    w.(gens := w.gens[|w.gens| - 1 := g])
  }

  function WithWorker(w: World, k: nat, worker: Worker): World
    requires k < |w.workers|
  {
    w.(workers := w.workers[k := worker])
  }

  function Logged(w: World, g: nat, attempts: seq<Attempt>): World
    requires g < |w.gens|
  {
    w.(gens := w.gens[g := w.gens[g].(log := w.gens[g].log + attempts)])
  }

  function Attempts(messages: seq<Message>, accepted: bool): (r: seq<Attempt>)
    ensures |r| == |messages|
    ensures forall i :: 0 <= i < |r| ==> r[i] == Attempt(messages[i], accepted, NoWorker)
  {
    seq(|messages|, i requires 0 <= i < |messages| => Attempt(messages[i], accepted, NoWorker))
  }

  function AcknowledgeAll(workers: seq<Worker>, jobId: JobId): (r: seq<Worker>)
    ensures |r| == |workers|
    ensures forall k :: 0 <= k < |r| ==>
              r[k] == if workers[k].job == jobId && workers[k].fate == Kept
                      then workers[k].(fate := Acknowledged) else workers[k]
  {
    seq(|workers|, k requires 0 <= k < |workers| =>
      if workers[k].job == jobId && workers[k].fate == Kept then workers[k].(fate := Acknowledged) else workers[k])
  }

  // ---------------------------------------------------------------- the receive loop

  function Disconnected(w: World): World
    requires w.Connected()
  {
    var g := w.Current();
    WithCurrent(w, g.(open := false, registry := AllCancelled(g.registry)))
  }

  function AdmittedTo(w: World, job: Assignment): World
    requires w.Connected()
  {
    var g := w.Current();
    WithCurrent(w, g.(registry := Registered(g.registry, job.jobId, |w.workers|))).(
      core := Marked(Acquired(w.core), job.jobId, job.epoch),
      workers := w.workers + [Worker(|w.gens| - 1, job.jobId, job.epoch, Acking, Live, Failure(Cancelled), |g.log|)])
  }

  function AdmissionOf(w: World, job: Assignment): Admission
    requires w.Connected()
  {
    Admit(w.config, w.core, w.Current().registry, w.Current().draining, job)
  }

  function Assigned(w: World, job: Assignment, accepted: bool): World
    requires w.AtRest()
  {
    var admission := AdmissionOf(w, job);
    if admission.Admitted? then AdmittedTo(w, job)
    else Logged(w, |w.gens| - 1, Attempts(Answer(admission, job), accepted))
  }

  function ResultSettled(w: World, id: JobId): World
    requires w.Connected()
  {
    if id in w.core.unacked then
      WithCurrent(w, w.Current().(receiver := Releasing)).(
        core := Settled(w.core, id), producer := w.producer - {id}, workers := AcknowledgeAll(w.workers, id))
    else w
  }

  function SlotFreed(w: World): World
    requires w.Connected()
  {
    WithCurrent(w, w.Current().(receiver := Idle)).(core := Released(w.core))
  }

  function CancelAcked(w: World, accepted: bool): World
    requires w.Connected() && w.Current().receiver.CancelAcking?
  {
    var r := w.Current().receiver;
    var spoken := Logged(w, |w.gens| - 1, [Attempt(CancelAck(r.job, r.epoch, r.completed), accepted, NoWorker)]);
    WithCurrent(spoken, spoken.Current().(receiver := Cancelling(r.job)))
  }

  function JobCancelled(w: World): World
    requires w.Connected() && w.Current().receiver.Cancelling?
  {
    var g := w.Current();
    WithCurrent(w, g.(receiver := Idle, registry := ExplicitlyCancelled(g.registry, g.receiver.job)))
  }

  // ---------------------------------------------------------------- the resend loop

  // A pass works from what the buffer held when it began, whatever is acknowledged since.
  function Snapshot(w: World): set<Resent> {
    set id | id in w.core.unacked && id in w.producer :: Resent(w.core.unacked[id], w.producer[id])
  }

  // A refused message ends the loop, and the pass with it.
  function OfferedAgain(w: World, item: Resent, accepted: bool): World
    requires w.Connected()
  {
    var spoken := Logged(w, |w.gens| - 1, [Attempt(Result(item.result), accepted, item.source)]);
    WithCurrent(spoken, spoken.Current().(resending := if accepted then spoken.Current().resending - {item} else {}))
  }

  // ---------------------------------------------------------------- a worker

  function AbandonDecided(w: World, k: nat): bool
    requires At(w, k, Deciding)
  {
    IsCancelled(w.workers[k].ResultOf()) && w.workers[k].job !in w.gens[w.workers[k].gen].registry.explicit
  }

  function RosterCleared(w: World, k: nat): World
    requires At(w, k, Returned)
  {
    WithWorker(w.(core := Cleared(w.core, w.workers[k].job), cleared := w.cleared[k := |w.workers|]),
               k, w.workers[k].(phase := Deciding))
  }

  function SlotAbandoned(w: World, k: nat): World
    requires At(w, k, Abandoning)
  {
    WithWorker(w, k, w.workers[k].(phase := Finishing, fate := Abandoned)).(core := Released(w.core))
  }

  function ResultRetained(w: World, k: nat): World
    requires At(w, k, Retaining)
  {
    var me := w.workers[k];
    WithWorker(w, k, me.(phase := Delivering, fate := Kept)).(
      core := Retained(w.core, me.ResultOf()),
      producer := w.producer[me.job := k],
      overwritten := w.overwritten + if me.job in w.core.unacked then 1 else 0)
  }

  function WorkerFinished(w: World, k: nat): World
    requires At(w, k, Finishing)
  {
    var me := w.workers[k];
    var g := w.gens[me.gen];
    WithWorker(w, k, me.(phase := Gone)).(gens := w.gens[me.gen := g.(registry := Unregistered(g.registry, me.job))])
  }

  // The worker enqueues a message and moves on, whether or not it was accepted.
  function Spoken(w: World, k: nat, message: Message, accepted: bool, next: Phase): World
    requires k < |w.workers| && w.workers[k].gen < |w.gens|
  {
    WithWorker(Logged(w, w.workers[k].gen, [Attempt(message, accepted, k)]), k, w.workers[k].(phase := next))
  }

  function Step(w: World, e: Event): World
    requires Enabled(w, e)
  {
    match e
    case Connect => w.(gens := w.gens + [FreshGeneration])
    case Disconnect => Disconnected(w)
    case Assign(job, accepted) => Assigned(w, job, accepted)
    case ResultAck(id) => ResultSettled(w, id)
    case FreeSlot => SlotFreed(w)
    case Cancellation(id, epoch) =>
      WithCurrent(w, w.Current().(receiver := CancelAcking(id, epoch, id in w.core.unacked)))
    case AckCancellation(accepted) => CancelAcked(w, accepted)
    case CancelJob => JobCancelled(w)
    case Drain => WithCurrent(w, w.Current().(draining := true))
    case ResendPass => WithCurrent(w, w.Current().(resending := Snapshot(w)))
    case Resend(item, accepted) => OfferedAgain(w, item, accepted)
    case Announce(k, accepted) => Spoken(w, k, JobAck(w.workers[k].job, w.workers[k].epoch), accepted, Starting)
    case Begin(k, accepted) => Spoken(w, k, JobStarted(w.workers[k].job, w.workers[k].epoch), accepted, Executing)
    case Return(k, outcome) => WithWorker(w, k, w.workers[k].(phase := Returned, outcome := outcome))
    case Clear(k) => RosterCleared(w, k)
    case Decide(k) => WithWorker(w, k, w.workers[k].(phase := if AbandonDecided(w, k) then Abandoning else Retaining))
    case Abandon(k) => SlotAbandoned(w, k)
    case Retain(k) => ResultRetained(w, k)
    case Deliver(k, accepted) => Spoken(w, k, Result(w.workers[k].ResultOf()), accepted, Finishing)
    case Finish(k) => WorkerFinished(w, k)
  }

  /** Runs. */
  predicate ValidFrom(w: World, run: seq<Event>)
    decreases |run|
  {
    run == [] || (Enabled(w, run[0]) && ValidFrom(Step(w, run[0]), run[1..]))
  }

  function After(w: World, run: seq<Event>): World
    requires ValidFrom(w, run)
    decreases |run|
  {
    if run == [] then w else After(Step(w, run[0]), run[1..])
  }

  ghost predicate Reachable(w: World) {
    exists config: Config, run: seq<Event> :: ValidFrom(Start(config), run) && w == After(Start(config), run)
  }
}
