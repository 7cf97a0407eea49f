/** What each worker says on its connection, in which order, and whose words they are. */
module SessionSpeech {
  import opened SessionState
  import opened SessionProtocol
  import opened SessionInvariants
  import opened SessionTheorems

  // What this worker reported before its result.
  function Reports(log: seq<Attempt>, k: int): seq<Message> {
    if log == [] then []
    else
      var last := log[|log| - 1];
      Reports(log[..|log| - 1], k) + if last.source == k && !last.message.Result? then [last.message] else []
  }

  // First that it has the job, then that it has started; nothing else, and neither twice.
  function Script(worker: Worker): seq<Message> {
    if worker.phase == Acking then []
    else if worker.phase == Starting then [JobAck(worker.job, worker.epoch)]
    else [JobAck(worker.job, worker.epoch), JobStarted(worker.job, worker.epoch)]
  }

  ghost predicate ReportsOk(w: World, k: int, g: int)
    requires 0 <= k < |w.workers| && 0 <= g < |w.gens|
  {
    Reports(w.gens[g].log, k) == if g == w.workers[k].gen then Script(w.workers[k]) else []
  }

  // A result speaks for the worker it came from, and that worker kept it.
  predicate SpeaksFor(w: World, result: JobResult, source: int) {
    && 0 <= source < |w.workers| && w.workers[source].fate in {Kept, Acknowledged}
    && result == w.workers[source].ResultOf()
  }

  ghost predicate ResultOk(w: World, g: int, j: int)
    requires 0 <= g < |w.gens| && 0 <= j < |w.gens[g].log|
  {
    var attempt := w.gens[g].log[j];
    attempt.message.Result? && attempt.source != NoWorker ==> SpeaksFor(w, attempt.message.result, attempt.source)
  }

  ghost predicate ResendOk(w: World, g: int, item: Resent)
    requires 0 <= g < |w.gens|
  {
    item in w.gens[g].resending ==> SpeaksFor(w, item.result, item.source)
  }

  // The worker has offered its result where it was admitted.
  ghost predicate Offered(w: World, k: int)
    requires 0 <= k < |w.workers| && w.workers[k].gen < |w.gens|
  {
    exists j :: 0 <= j < |w.gens[w.workers[k].gen].log| && w.gens[w.workers[k].gen].log[j].source == k
                && w.gens[w.workers[k].gen].log[j].message == Result(w.workers[k].ResultOf())
  }

  ghost predicate DeliveredOk(w: World, k: int)
    requires 0 <= k < |w.workers|
  {
    w.workers[k].phase in {Finishing, Gone} && w.workers[k].fate != Abandoned && w.workers[k].gen < |w.gens| ==>
      Offered(w, k)
  }

  // A result offered where its worker was admitted was offered after that worker had started.
  ghost predicate StartedFirst(w: World, g: int, j: int)
    requires 0 <= g < |w.gens| && 0 <= j < |w.gens[g].log|
  {
    var k := w.gens[g].log[j].source;
    w.gens[g].log[j].message.Result? && 0 <= k < |w.workers| && w.workers[k].gen == g ==>
      StartedBefore(w.gens[g].log, j, k, w.workers[k])
  }

  ghost predicate StartedBefore(log: seq<Attempt>, j: int, k: int, worker: Worker) {
    exists i :: 0 <= i < j && i < |log| && log[i].source == k && log[i].message == JobStarted(worker.job, worker.epoch)
  }

  ghost predicate SpeechInv(w: World) {
    && (forall g, j :: 0 <= g < |w.gens| && 0 <= j < |w.gens[g].log| ==> StartedFirst(w, g, j))
    && (forall k, g :: 0 <= k < |w.workers| && 0 <= g < |w.gens| ==> ReportsOk(w, k, g))
    && (forall g, k :: 0 <= g < |w.gens| && |w.workers| <= k ==> Reports(w.gens[g].log, k) == [])
    && (forall g, j :: 0 <= g < |w.gens| && 0 <= j < |w.gens[g].log| ==> ResultOk(w, g, j))
    && (forall g, item :: 0 <= g < |w.gens| ==> ResendOk(w, g, item))
    && (forall k :: 0 <= k < |w.workers| ==> DeliveredOk(w, k))
  }

  // ---------------------------------------------------------------- what a step adds to the logs

  lemma ReportsOfMore(log: seq<Attempt>, attempt: Attempt, k: int)
    ensures Reports(log + [attempt], k)
         == Reports(log, k) + if attempt.source == k && !attempt.message.Result? then [attempt.message] else []
  {
    assert (log + [attempt])[..|log|] == log;
  }

  // At most one log grows, by at most this one attempt.
  ghost predicate Grows(w: World, w': World, g: int, added: seq<Attempt>) {
    && |added| <= 1 && |w.gens| <= |w'.gens|
    && (added != [] ==> 0 <= g < |w.gens|)
    && (forall h :: 0 <= h < |w.gens| ==> w'.gens[h].log == if h == g then w.gens[h].log + added else w.gens[h].log)
    && (forall h :: |w.gens| <= h < |w'.gens| ==> w'.gens[h].log == [] && w'.gens[h].resending == {})
  }

  // Whose words they are.
  predicate Says(w: World, e: Event, g: int, attempt: Attempt) {
    || (attempt.source == NoWorker && (e.Assign? || e.AckCancellation?))
    || (e.Resend? && attempt == Attempt(Result(e.item.result), e.accepted, e.item.source))
    || (SessionProtocol.Speaks(e) && attempt.source == e.worker < |w.workers| && g == w.workers[e.worker].gen
        && attempt.message == if e.Announce? then JobAck(w.workers[e.worker].job, w.workers[e.worker].epoch)
                              else if e.Begin? then JobStarted(w.workers[e.worker].job, w.workers[e.worker].epoch)
                              else Result(w.workers[e.worker].ResultOf()))
  }

  lemma WorkerGrows(w: World, e: Event) returns (added: Attempt)
    requires Enabled(w, e) && SessionProtocol.Speaks(e)
    ensures Grows(w, Step(w, e), w.workers[e.worker].gen, [added]) && Says(w, e, w.workers[e.worker].gen, added)
  {
    var me := w.workers[e.worker];
    added := Attempt(if e.Announce? then JobAck(me.job, me.epoch) else if e.Begin? then JobStarted(me.job, me.epoch)
                     else Result(me.ResultOf()), e.accepted, e.worker);
  }

  lemma AssignGrows(w: World, e: Event) returns (added: seq<Attempt>)
    requires Enabled(w, e) && e.Assign?
    ensures Grows(w, Step(w, e), |w.gens| - 1, added)
    ensures forall a :: a in added ==> Says(w, e, |w.gens| - 1, a)
  {
    added := if AdmissionOf(w, e.job).Admitted? then []
             else Attempts(Answer(AdmissionOf(w, e.job), e.job), e.accepted);
  }

  lemma OfferGrows(w: World, e: Event) returns (added: Attempt)
    requires Enabled(w, e) && (e.AckCancellation? || e.Resend?)
    ensures Grows(w, Step(w, e), |w.gens| - 1, [added]) && Says(w, e, |w.gens| - 1, added)
  {
    added := if e.Resend? then Attempt(Result(e.item.result), e.accepted, e.item.source)
             else
               var r := w.Current().receiver;
               Attempt(CancelAck(r.job, r.epoch, r.completed), e.accepted, NoWorker);
  }

  lemma SilentGrows(w: World, e: Event)
    requires Enabled(w, e) && !SessionProtocol.Speaks(e) && !e.Assign? && !e.AckCancellation? && !e.Resend?
    ensures Grows(w, Step(w, e), 0, [])
  {
  }

  lemma StepGrows(w: World, e: Event) returns (g: int, added: seq<Attempt>)
    requires Enabled(w, e)
    ensures Grows(w, Step(w, e), g, added) && forall a :: a in added ==> Says(w, e, g, a)
    ensures SessionProtocol.Speaks(e) ==> added != []
  {
    if SessionProtocol.Speaks(e) {
      var a := WorkerGrows(w, e);
      g, added := w.workers[e.worker].gen, [a];
    } else if e.Assign? {
      g := |w.gens| - 1;
      added := AssignGrows(w, e);
    } else if e.AckCancellation? || e.Resend? {
      var a := OfferGrows(w, e);
      g, added := |w.gens| - 1, [a];
    } else {
      g, added := 0, [];
      SilentGrows(w, e);
    }
  }

  // ---------------------------------------------------------------- what a step does to a worker

  // The worker is where it was, or one step on; what it kept it keeps.
  ghost predicate Follows(w: World, e: Event, k: int, w': World)
    requires 0 <= k < |w.workers|
  {
    && k < |w'.workers| && SameJob(w.workers[k], w'.workers[k])
    && (w.workers[k].fate in {Kept, Acknowledged} ==>
          w'.workers[k].fate in {Kept, Acknowledged} && w'.workers[k].outcome == w.workers[k].outcome)
    && Script(w'.workers[k]) == Script(w.workers[k])
        + (if e == Announce(k, true) || e == Announce(k, false) then [JobAck(w.workers[k].job, w.workers[k].epoch)]
           else if e == Begin(k, true) || e == Begin(k, false) then [JobStarted(w.workers[k].job, w.workers[k].epoch)]
           else [])
    && (w'.workers[k].phase in {Finishing, Gone} && w'.workers[k].fate != Abandoned ==>
          w.workers[k].phase in {Finishing, Gone} || (e.Deliver? && e.worker == k))
  }

  lemma SpeakingFollows(w: World, e: Event, k: nat)
    requires Inv(w) && Enabled(w, e) && SessionProtocol.Speaks(e) && k < |w.workers|
    ensures Follows(w, e, k, Step(w, e))
  {
    assert WorkerOk(w, e.worker);
  }

  lemma SettlingFollows(w: World, e: Event, k: nat)
    requires Inv(w) && Enabled(w, e) && (e.Abandon? || e.Retain?) && k < |w.workers|
    ensures Follows(w, e, k, Step(w, e))
  {
    assert WorkerOk(w, e.worker);
  }

  lemma FinishingFollows(w: World, e: Event, k: nat)
    requires Inv(w) && Enabled(w, e) && e.Finish? && k < |w.workers|
    ensures Follows(w, e, k, Step(w, e))
  {
    assert WorkerOk(w, e.worker);
  }

  lemma MovingFollows(w: World, e: Event, k: nat)
    requires Inv(w) && Enabled(w, e) && (e.Return? || e.Decide? || e.Clear?) && k < |w.workers|
    ensures Follows(w, e, k, Step(w, e))
  {
    assert WorkerOk(w, e.worker);
  }

  lemma OthersFollow(w: World, e: Event, k: nat)
    requires Enabled(w, e) && !SessionProtocol.Speaks(e) && !MovesOn(e) && !e.Clear? && k < |w.workers|
    ensures Follows(w, e, k, Step(w, e))
  {
  }

  lemma StepFollows(w: World, e: Event, k: nat)
    requires Inv(w) && Enabled(w, e) && k < |w.workers|
    ensures Follows(w, e, k, Step(w, e))
  {
    if SessionProtocol.Speaks(e) {
      SpeakingFollows(w, e, k);
    } else if e.Return? || e.Decide? || e.Clear? {
      MovingFollows(w, e, k);
    } else if e.Finish? {
      FinishingFollows(w, e, k);
    } else if MovesOn(e) {
      SettlingFollows(w, e, k);
    } else {
      OthersFollow(w, e, k);
    }
  }

  lemma NewWorkerIsSilent(w: World, e: Event, k: nat)
    requires Enabled(w, e) && |w.workers| <= k < |Step(w, e).workers|
    ensures Step(w, e).workers[k].phase == Acking && !SessionProtocol.Speaks(e) && !e.Resend?
  {
    Newcomer(w, e, k);
  }

  // ---------------------------------------------------------------- preservation

  // What a step adds to one worker's reports in one log.
  function Adds(g: int, h: int, added: seq<Attempt>, k: int): seq<Message> {
    if g == h && added != [] && added[0].source == k && !added[0].message.Result? then [added[0].message] else []
  }

  lemma LogAdds(w: World, w': World, k: nat, g: nat, h: int, added: seq<Attempt>)
    requires Grows(w, w', h, added) && g < |w.gens|
    ensures Reports(w'.gens[g].log, k) == Reports(w.gens[g].log, k) + Adds(g, h, added, k)
  {
    var log := w.gens[g].log;
    assert Reports(log, k) + [] == Reports(log, k);
    if g == h && added != [] {
      assert added == [added[0]];
      ReportsOfMore(log, added[0], k);
    } else {
      assert log + [] == log;
    }
  }

  // One log, one worker.
  lemma OldReports(w: World, e: Event, w': World, k: nat, g: nat, h: int, added: seq<Attempt>)
    requires k < |w.workers| && g < |w.gens| && ReportsOk(w, k, g) && w.workers[k].gen < |w.gens|
    requires Grows(w, w', h, added) && (forall a :: a in added ==> Says(w, e, h, a)) && Follows(w, e, k, w')
    requires SessionProtocol.Speaks(e) ==> added != []
    ensures ReportsOk(w', k, g)
  {
    LogAdds(w, w', k, g, h, added);
    var script := Script(w.workers[k]);
    assert script + [] == script;
    if added != [] { assert Says(w, e, h, added[0]); }
  }

  lemma StepKeepsReports(w: World, e: Event, k: nat, g: nat)
    requires Inv(w) && SpeechInv(w) && Enabled(w, e) && k < |w.workers| && g < |Step(w, e).gens|
    ensures k < |Step(w, e).workers| && ReportsOk(Step(w, e), k, g)
  {
    var h, added := StepGrows(w, e);
    StepFollows(w, e, k);
    assert WorkerOk(w, k);
    if g < |w.gens| {
      assert ReportsOk(w, k, g);
      OldReports(w, e, Step(w, e), k, g, h, added);
    }
  }

  // Nobody has spoken for a worker yet to come.
  lemma OldSilence(w: World, e: Event, w': World, k: nat, g: nat, h: int, added: seq<Attempt>)
    requires |w.workers| <= k && g < |w'.gens| && (g < |w.gens| ==> Reports(w.gens[g].log, k) == [])
    requires Grows(w, w', h, added) && forall a :: a in added ==> Says(w, e, h, a)
    ensures Reports(w'.gens[g].log, k) == []
  {
    if g < |w.gens| {
      LogAdds(w, w', k, g, h, added);
      if added != [] { assert Says(w, e, h, added[0]); }
    }
  }

  lemma StepKeepsSilence(w: World, e: Event, k: nat, g: nat)
    requires SpeechInv(w) && Enabled(w, e) && |w.workers| <= k && g < |Step(w, e).gens|
    ensures Reports(Step(w, e).gens[g].log, k) == []
  {
    var h, added := StepGrows(w, e);
    OldSilence(w, e, Step(w, e), k, g, h, added);
  }

  lemma StepKeepsSpeaking(w: World, e: Event, result: JobResult, source: int)
    requires Inv(w) && Enabled(w, e) && SpeaksFor(w, result, source)
    ensures SpeaksFor(Step(w, e), result, source)
  {
    StepFollows(w, e, source);
  }

  // The step's own words are true of the worker they are put in the mouth of.
  lemma SaidIsTrue(w: World, e: Event, g: int, attempt: Attempt)
    requires Inv(w) && SpeechInv(w) && Enabled(w, e) && Says(w, e, g, attempt)
    requires attempt.message.Result? && attempt.source != NoWorker
    ensures SpeaksFor(w, attempt.message.result, attempt.source)
  {
    if e.Resend? {
      assert ResendOk(w, |w.gens| - 1, e.item);
    } else {
      assert WorkerOk(w, e.worker);
    }
  }

  // Whoever a result in the log speaks for was there before the step that may have put it there.
  lemma SpeakerBefore(w: World, e: Event, w': World, g: nat, j: nat, h: int, added: seq<Attempt>)
    requires Inv(w) && SpeechInv(w) && Enabled(w, e) && g < |w'.gens| && j < |w'.gens[g].log|
    requires Grows(w, w', h, added) && forall a :: a in added ==> Says(w, e, h, a)
    requires w'.gens[g].log[j].message.Result? && w'.gens[g].log[j].source != NoWorker
    ensures g < |w.gens| && w.gens[g].log <= w'.gens[g].log && j <= |w.gens[g].log|
    ensures SpeaksFor(w, w'.gens[g].log[j].message.result, w'.gens[g].log[j].source)
    ensures j < |w.gens[g].log| ==> w'.gens[g].log[j] == w.gens[g].log[j]
  {
    if j < |w.gens[g].log| {
      assert ResultOk(w, g, j);
    } else {
      assert w'.gens[g].log[j] == added[0] && added[0] in added;
      SaidIsTrue(w, e, h, added[0]);
    }
  }

  lemma StepKeepsResults(w: World, e: Event, g: nat, j: nat)
    requires Inv(w) && SpeechInv(w) && Enabled(w, e) && g < |Step(w, e).gens| && j < |Step(w, e).gens[g].log|
    ensures ResultOk(Step(w, e), g, j)
  {
    var h, added := StepGrows(w, e);
    var attempt := Step(w, e).gens[g].log[j];
    if attempt.message.Result? && attempt.source != NoWorker {
      SpeakerBefore(w, e, Step(w, e), g, j, h, added);
      StepKeepsSpeaking(w, e, attempt.message.result, attempt.source);
    }
  }

  lemma StepKeepsResends(w: World, e: Event, g: nat, item: Resent)
    requires Inv(w) && SpeechInv(w) && Enabled(w, e) && g < |Step(w, e).gens|
    ensures ResendOk(Step(w, e), g, item)
  {
    if item in Step(w, e).gens[g].resending {
      ResendsComeFrom(w, e, g, item);
      if g < |w.gens| && item in w.gens[g].resending {
        assert ResendOk(w, g, item);
      } else {
        assert RetainedOk(w, item.result.jobId);
      }
      StepKeepsSpeaking(w, e, item.result, item.source);
    }
  }

  lemma ResendsComeFrom(w: World, e: Event, g: nat, item: Resent)
    requires Inv(w) && Enabled(w, e) && g < |Step(w, e).gens| && item in Step(w, e).gens[g].resending
    ensures || (g < |w.gens| && item in w.gens[g].resending)
            || (item.result.jobId in w.core.unacked && item.result == w.core.unacked[item.result.jobId]
                && item.result.jobId in w.producer && item.source == w.producer[item.result.jobId])
  {
    if e.ResendPass? && g == |w.gens| - 1 {
      var id :| id in w.core.unacked && id in w.producer && item == Resent(w.core.unacked[id], w.producer[id]);
      assert RetainedOk(w, id);
    } else if SessionProtocol.Speaks(e) {
      SpeakingKeepsResends(w, e, g);
    } else if MovesOn(e) {
      MovingKeepsResends(w, e, g);
    }
  }

  lemma SpeakingKeepsResends(w: World, e: Event, g: nat)
    requires Enabled(w, e) && SessionProtocol.Speaks(e) && g < |Step(w, e).gens|
    ensures g < |w.gens| && Step(w, e).gens[g].resending == w.gens[g].resending
  {
  }

  lemma MovingKeepsResends(w: World, e: Event, g: nat)
    requires Enabled(w, e) && MovesOn(e) && g < |Step(w, e).gens|
    ensures g < |w.gens| && Step(w, e).gens[g].resending == w.gens[g].resending
  {
  }

  lemma OfferedStays(w: World, w': World, k: nat)
    requires k < |w.workers| && w.workers[k].gen < |w.gens| && Offered(w, k)
    requires k < |w'.workers| && SameJob(w.workers[k], w'.workers[k]) && w'.workers[k].outcome == w.workers[k].outcome
    requires w.workers[k].gen < |w'.gens| && w.gens[w.workers[k].gen].log <= w'.gens[w.workers[k].gen].log
    ensures Offered(w', k)
  {
    var g := w.workers[k].gen;
    var j :| 0 <= j < |w.gens[g].log| && w.gens[g].log[j].source == k
             && w.gens[g].log[j].message == Result(w.workers[k].ResultOf());
    assert w'.gens[g].log[j] == w.gens[g].log[j];
  }

  lemma StepKeepsDelivered(w: World, e: Event, k: nat)
    requires Inv(w) && SpeechInv(w) && Enabled(w, e) && k < |w.workers|
    ensures k < |Step(w, e).workers| && DeliveredOk(Step(w, e), k)
  {
    var w' := Step(w, e);
    StepFollows(w, e, k);
    var h, added := StepGrows(w, e);
    assert WorkerOk(w, k) && DeliveredOk(w, k);
    var g := w.workers[k].gen;
    if w'.workers[k].phase in {Finishing, Gone} && w'.workers[k].fate != Abandoned {
      if w.workers[k].phase in {Finishing, Gone} {
        FinishedStays(w, e, k);
        OfferedStays(w, w', k);
      } else {
        assert added == [added[0]] && added[0] in added;
        assert w'.gens[g].log[|w.gens[g].log|] == added[0];
      }
    }
  }

  lemma FinishedStays(w: World, e: Event, k: nat)
    requires Inv(w) && Enabled(w, e) && k < |w.workers| && w.workers[k].phase in {Finishing, Gone}
    requires Step(w, e).workers[k].fate != Abandoned
    ensures w.workers[k].fate in {Kept, Acknowledged}
  {
    assert WorkerOk(w, k);
    StepFollows(w, e, k);
  }

  lemma {:induction false} ReportedIsLogged(log: seq<Attempt>, k: int, worker: Worker)
    requires JobStarted(worker.job, worker.epoch) in Reports(log, k)
    ensures StartedBefore(log, |log|, k, worker)
  {
    var n := |log| - 1;
    if JobStarted(worker.job, worker.epoch) in Reports(log[..n], k) {
      ReportedIsLogged(log[..n], k, worker);
      var i :| 0 <= i < n && log[..n][i].source == k && log[..n][i].message == JobStarted(worker.job, worker.epoch);
      assert log[i] == log[..n][i];
    }
  }

  lemma StartedStays(log: seq<Attempt>, longer: seq<Attempt>, j: nat, k: int, worker: Worker, now: Worker)
    requires StartedBefore(log, j, k, worker) && log <= longer && SameJob(worker, now)
    ensures StartedBefore(longer, j, k, now)
  {
    var i :| 0 <= i < j && i < |log| && log[i].source == k && log[i].message == JobStarted(worker.job, worker.epoch);
    assert longer[i] == log[i];
  }

  lemma SpeakerHasStarted(w: World, k: nat)
    requires Inv(w) && SpeechInv(w) && k < |w.workers| && w.workers[k].fate in {Kept, Acknowledged}
    ensures w.workers[k].gen < |w.gens|
    ensures var log := w.gens[w.workers[k].gen].log; StartedBefore(log, |log|, k, w.workers[k])
  {
    assert WorkerOk(w, k);
    var g := w.workers[k].gen;
    assert ReportsOk(w, k, g);
    var me := w.workers[k];
    assert Script(me)[1] == JobStarted(me.job, me.epoch);
    ReportedIsLogged(w.gens[g].log, k, me);
  }

  lemma StartedAlready(w: World, e: Event, g: nat, j: nat)
    requires Inv(w) && SpeechInv(w) && Enabled(w, e) && g < |Step(w, e).gens| && j < |Step(w, e).gens[g].log|
    requires var attempt := Step(w, e).gens[g].log[j];
             && attempt.message.Result? && 0 <= attempt.source < |Step(w, e).workers|
             && Step(w, e).workers[attempt.source].gen == g
    ensures var k := Step(w, e).gens[g].log[j].source;
            && k < |w.workers| && g < |w.gens| && w.gens[g].log <= Step(w, e).gens[g].log
            && StartedBefore(w.gens[g].log, j, k, w.workers[k])
  {
    var attempt := Step(w, e).gens[g].log[j];
    var h, added := StepGrows(w, e);
    SpeakerBefore(w, e, Step(w, e), g, j, h, added);
    StepFollows(w, e, attempt.source);
    if j < |w.gens[g].log| {
      assert StartedFirst(w, g, j);
    } else {
      SpeakerHasStarted(w, attempt.source);
    }
  }

  lemma StepKeepsStarted(w: World, e: Event, g: nat, j: nat)
    requires Inv(w) && SpeechInv(w) && Enabled(w, e) && g < |Step(w, e).gens| && j < |Step(w, e).gens[g].log|
    ensures StartedFirst(Step(w, e), g, j)
  {
    var w' := Step(w, e);
    var attempt := w'.gens[g].log[j];
    var k := attempt.source;
    if attempt.message.Result? && 0 <= k < |w'.workers| && w'.workers[k].gen == g {
      StartedAlready(w, e, g, j);
      StepFollows(w, e, k);
      StartedStays(w.gens[g].log, w'.gens[g].log, j, k, w.workers[k], w'.workers[k]);
    }
  }

  lemma StepKeepsSpeech(w: World, e: Event)
    requires Inv(w) && SpeechInv(w) && Enabled(w, e)
    ensures SpeechInv(Step(w, e))
  {
    var w' := Step(w, e);
    forall g, j | 0 <= g < |w'.gens| && 0 <= j < |w'.gens[g].log| ensures StartedFirst(w', g, j) {
      StepKeepsStarted(w, e, g, j);
    }
    forall k, g | 0 <= k < |w'.workers| && 0 <= g < |w'.gens| ensures ReportsOk(w', k, g) {
      if k < |w.workers| {
        StepKeepsReports(w, e, k, g);
      } else {
        NewWorkerIsSilent(w, e, k);
        StepKeepsSilence(w, e, k, g);
      }
    }
    forall g, k | 0 <= g < |w'.gens| && |w'.workers| <= k ensures Reports(w'.gens[g].log, k) == [] {
      WorkersStay(w, e);
      StepKeepsSilence(w, e, k, g);
    }
    forall g, j | 0 <= g < |w'.gens| && 0 <= j < |w'.gens[g].log| ensures ResultOk(w', g, j) {
      StepKeepsResults(w, e, g, j);
    }
    forall g, item | 0 <= g < |w'.gens| ensures ResendOk(w', g, item) { StepKeepsResends(w, e, g, item); }
    forall k | 0 <= k < |w'.workers| ensures DeliveredOk(w', k) {
      if k < |w.workers| { StepKeepsDelivered(w, e, k); } else { NewWorkerIsSilent(w, e, k); }
    }
  }

  lemma WorkersStay(w: World, e: Event)
    requires Enabled(w, e)
    ensures |w.workers| <= |Step(w, e).workers|
  {
    if |w.workers| > 0 { JobKeepsItsName(w, e, |w.workers| - 1); }
  }

  lemma {:induction false} RunKeepsSpeech(w: World, run: seq<Event>)
    requires Inv(w) && SpeechInv(w) && ValidFrom(w, run)
    ensures Inv(After(w, run)) && SpeechInv(After(w, run))
    decreases |run|
  {
    if run != [] {
      StepKeepsSpeech(w, run[0]);
      StepKeepsInv(w, run[0]);
      RunKeepsSpeech(Step(w, run[0]), run[1..]);
    }
  }

  lemma ReachableSpeech(w: World)
    requires Reachable(w)
    ensures Inv(w) && SpeechInv(w)
  {
    var config, run :| ValidFrom(Start(config), run) && w == After(Start(config), run);
    StartInv(config);
    RunKeepsSpeech(Start(config), run);
  }

  // ---------------------------------------------------------------- what it comes to

  /** In every reachable state a worker has reported, on the connection that admitted it and
      nowhere else, first that it has the job and then that it has started, each once and only
      when it got that far; and it does not leave with a result it has not offered there. */
  lemma WorkerSpeaksInOrder(w: World, k: nat)
    requires Reachable(w) && k < |w.workers|
    ensures w.workers[k].gen < |w.gens|
    ensures var me := w.workers[k];
            && (forall g :: 0 <= g < |w.gens| && g != me.gen ==> Reports(w.gens[g].log, k) == [])
            && (me.phase == Acking ==> Reports(w.gens[me.gen].log, k) == [])
            && (me.phase == Starting ==> Reports(w.gens[me.gen].log, k) == [JobAck(me.job, me.epoch)])
            && (me.phase != Acking && me.phase != Starting ==>
                  Reports(w.gens[me.gen].log, k) == [JobAck(me.job, me.epoch), JobStarted(me.job, me.epoch)])
            && (me.phase == Gone && me.fate != Abandoned ==>
                  exists j :: 0 <= j < |w.gens[me.gen].log| && w.gens[me.gen].log[j].source == k
                              && w.gens[me.gen].log[j].message == Result(JobResult(me.job, me.epoch, me.outcome)))
  {
    ReachableSpeech(w);
    assert WorkerOk(w, k) && DeliveredOk(w, k) && ReportsOk(w, k, w.workers[k].gen);
    forall g | 0 <= g < |w.gens| && g != w.workers[k].gen ensures Reports(w.gens[g].log, k) == [] {
      assert ReportsOk(w, k, g);
    }
  }

  /** Every result offered on any connection, first or again, is the whole and unaltered result
      of the worker it came from, which never abandoned it; and on that worker's own connection
      it comes after the report that the job had started. */
  lemma ResultsAreTheirWorkers(w: World, g: nat, j: nat)
    requires Reachable(w) && g < |w.gens| && j < |w.gens[g].log|
    requires w.gens[g].log[j].message.Result? && w.gens[g].log[j].source != NoWorker
    ensures var k := w.gens[g].log[j].source;
            && 0 <= k < |w.workers| && w.workers[k].fate in {Kept, Acknowledged}
            && w.gens[g].log[j].message.result == JobResult(w.workers[k].job, w.workers[k].epoch, w.workers[k].outcome)
            && (w.workers[k].gen == g ==>
                  exists i :: 0 <= i < j && w.gens[g].log[i].source == k
                              && w.gens[g].log[i].message == JobStarted(w.workers[k].job, w.workers[k].epoch))
  {
    ReachableSpeech(w);
    assert ResultOk(w, g, j) && StartedFirst(w, g, j);
  }

  // ---------------------------------------------------------------- what Execute returned

  lemma OutcomeStep(w: World, e: Event, k: nat)
    requires Enabled(w, e) && k < |Step(w, e).workers| && Step(w, e).workers[k].phase !in {Acking, Starting, Executing}
    ensures k < |w.workers|
    ensures || e == Return(k, Step(w, e).workers[k].outcome)
            || (w.workers[k].phase !in {Acking, Starting, Executing}
                && w.workers[k].outcome == Step(w, e).workers[k].outcome)
  {
    if |w.workers| <= k { NewWorkerIsSilent(w, e, k); }
  }

  /** A worker's outcome is what its Execute returned. */
  lemma {:induction false} OutcomeWasReturned(config: Config, run: seq<Event>, k: nat)
    requires ValidFrom(Start(config), run) && k < |After(Start(config), run).workers|
    requires After(Start(config), run).workers[k].phase !in {Acking, Starting, Executing}
    ensures Return(k, After(Start(config), run).workers[k].outcome) in run
    decreases |run|
  {
    if run == [] { return; }
    var m := |run| - 1;
    LastStep(config, run);
    OutcomeStep(After(Start(config), run[..m]), run[m], k);
    if run[m] != Return(k, After(Start(config), run).workers[k].outcome) { OutcomeWasReturned(config, run[..m], k); }
  }
}
