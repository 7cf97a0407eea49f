/** Getting out of debt: when a scope that owes a baseline pays it, over every run. */
module Recovery {
  import opened Wrappers
  import opened Snapshots
  import opened Diffs
  import opened Scopes
  import opened Collecting
  import opened SyncRuns
  import opened SyncTheorems

  // The event commits a tick of this scope that reaches the end.
  predicate LandsOn(s: System, e: Event, c: string) {
    && e.CommitTick? && s.running.Some? && s.running.value.conn == c && c in s.scopes
    && Lands(s.scopes[c], s.running.value.tick, e.reading)
  }

  ghost predicate NoneLandsOn(s: System, run: seq<Event>, c: string)
    requires ValidFrom(s, run)
    decreases |run|
  {
    run == [] || (!LandsOn(s, run[0], c) && NoneLandsOn(Step(s, run[0]), run[1..], c))
  }

  // A baseline is owed and nothing is queued: what an overflow leaves.
  predicate Emptied(s: System, c: string) {
    c in s.scopes && s.scopes[c].rebaseline && s.scopes[c].pending == []
  }

  // ---------------------------------------------------------------- one landing

  /** In any reachable state, a tick that lands on a scope that owes a baseline settles the
      debt if and only if its messages fit behind what is still queued. */
  lemma LandingSettlesIff(s: System, e: Event, c: string)
    requires Inv(s) && Enabled(s, e) && LandsOn(s, e, c) && TickOf(s.scopes[c]).baseline
    ensures c in Step(s, e).scopes
    ensures var scope, after := s.scopes[c], Step(s, e).scopes[c];
            && (!after.rebaseline <==> |scope.pending| + MessagesFor(|e.reading.snapshot|) <= MAX_PENDING_DELTAS)
            && (!after.rebaseline ==>
                  after.pending == scope.pending +
                      Queued(scope, TickOf(scope), e.observedAt, e.reading.snapshot, e.ids))
            && (after.rebaseline ==> after.pending == [])
  {
    LandedStep(s, e.observedAt, e.reading, e.ids);
    DebtIsPaidIffItFits(s.scopes[c], e.observedAt, e.reading.snapshot, e.reading.truncated, e.ids);
  }

  // ---------------------------------------------------------------- until the next landing

  lemma OthersKeepEmptied(s: System, e: Event, c: string)
    requires Inv(s) && Enabled(s, e) && Emptied(s, c) && !e.CommitTick?
    ensures Emptied(Step(s, e), c)
  {
  }

  lemma StepKeepsEmptied(s: System, e: Event, c: string)
    requires Inv(s) && Enabled(s, e) && Emptied(s, c) && !LandsOn(s, e, c)
    ensures Emptied(Step(s, e), c)
  {
    if !e.CommitTick? {
      OthersKeepEmptied(s, e, c);
    } else if Lands(s.scopes[s.running.value.conn], s.running.value.tick, e.reading) {
      LandedStep(s, e.observedAt, e.reading, e.ids);
    } else {
      UnlandedStep(s, e.observedAt, e.reading, e.ids);
    }
  }

  lemma {:induction false} RunKeepsEmptied(s: System, run: seq<Event>, c: string)
    requires Inv(s) && ValidFrom(s, run) && Emptied(s, c) && NoneLandsOn(s, run, c)
    ensures Inv(After(s, run)) && Emptied(After(s, run), c)
    decreases |run|
  {
    if run != [] {
      StepKeepsEmptied(s, run[0], c);
      StepKeepsInv(s, run[0]);
      RunKeepsEmptied(Step(s, run[0]), run[1..], c);
    }
  }

  /** From an overflow on, whatever happens until the next tick lands, that tick clears the
      debt and queues a complete baseline, provided it listed at most thirteen namespaces and
      each list honoured its limit. */
  lemma ThirteenNamespacesAlwaysRecover(s: System, overflow: Event, run: seq<Event>, next: Event, c: string,
                                        reduce: Intent -> ObjectState, answers: seq<Answers>)
    requires Inv(s) && Enabled(s, overflow) && LandsOn(s, overflow, c) && Step(s, overflow).scopes[c].rebaseline
    requires ValidFrom(Step(s, overflow), run) && NoneLandsOn(Step(s, overflow), run, c)
    requires var t := After(Step(s, overflow), run);
             && Enabled(t, next) && LandsOn(t, next, c) && next.reading.snapshot == SnapshotOf(reduce, answers)
             && |answers| == |t.running.value.tick.namespaces| <= 13
    requires forall i :: 0 <= i < |answers| ==> WithinLimits(answers[i])
    ensures var after := Step(After(Step(s, overflow), run), next).scopes[c];
            !after.rebaseline && Carried(after.pending) == BaselineOf(next.reading.snapshot)
  {
    StepKeepsInv(s, overflow);
    OverflowEmpties(s, overflow, c);
    RunKeepsEmptied(Step(s, overflow), run, c);
    var t := After(Step(s, overflow), run);
    LandingPaysInFull(t, next, c, reduce, answers);
  }

  lemma OverflowEmpties(s: System, e: Event, c: string)
    requires Inv(s) && Enabled(s, e) && LandsOn(s, e, c) && Step(s, e).scopes[c].rebaseline
    ensures Emptied(Step(s, e), c)
  {
    LandedStep(s, e.observedAt, e.reading, e.ids);
  }

  lemma ThirteenFit(reduce: Intent -> ObjectState, answers: seq<Answers>)
    requires |answers| <= 13 && forall i :: 0 <= i < |answers| ==> WithinLimits(answers[i])
    ensures MessagesFor(|SnapshotOf(reduce, answers)|) <= MAX_PENDING_DELTAS
  {
    assert |SnapshotOf(reduce, answers)| <= 13 * 2500 by { SnapshotIsBounded(reduce, answers); }
    WhatFitsAnEmptyQueue(|SnapshotOf(reduce, answers)|);
  }

  lemma BaselineIsQueuedWhole(scope: Scope, observedAt: Time, current: Snapshot, ids: nat -> string)
    requires TickOf(scope).baseline
    ensures Carried([] + Queued(scope, TickOf(scope), observedAt, current, ids)) == BaselineOf(current)
  {
    var tick := TickOf(scope);
    var queued := Queued(scope, tick, observedAt, current, ids);
    PackedCarries(scope.connectionId, tick.revision, tick.baseline, observedAt, TickChanges(tick, current), ids);
    assert [] + queued == queued;
  }

  lemma LandingPaysInFull(s: System, e: Event, c: string, reduce: Intent -> ObjectState, answers: seq<Answers>)
    requires Inv(s) && Enabled(s, e) && LandsOn(s, e, c) && Emptied(s, c)
    requires e.reading.snapshot == SnapshotOf(reduce, answers) && |answers| <= 13
    requires forall i :: 0 <= i < |answers| ==> WithinLimits(answers[i])
    ensures c in Step(s, e).scopes
    ensures var after := Step(s, e).scopes[c];
            !after.rebaseline && Carried(after.pending) == BaselineOf(e.reading.snapshot)
  {
    LandingSettlesIff(s, e, c);
    ThirteenFit(reduce, answers);
    BaselineIsQueuedWhole(s.scopes[c], e.observedAt, e.reading.snapshot, e.ids);
  }

  // ---------------------------------------------------------------- a scope that never recovers

  // Every tick of this scope that lands read more than a queue of baselines can hold.
  ghost predicate AlwaysTooLarge(s: System, run: seq<Event>, c: string)
    requires ValidFrom(s, run)
    decreases |run|
  {
    run == [] ||
    ((LandsOn(s, run[0], c) ==> |run[0].reading.snapshot| > MAX_PENDING_DELTAS * MAX_CHANGES_PER_DELTA)
     && AlwaysTooLarge(Step(s, run[0]), run[1..], c))
  }

  lemma StepKeepsDebt(s: System, e: Event, c: string)
    requires Inv(s) && Enabled(s, e) && c in s.scopes && s.scopes[c].rebaseline
    requires LandsOn(s, e, c) ==> |e.reading.snapshot| > MAX_PENDING_DELTAS * MAX_CHANGES_PER_DELTA
    ensures c in Step(s, e).scopes && Step(s, e).scopes[c].rebaseline
  {
    if LandsOn(s, e, c) {
      LandingSettlesIff(s, e, c);
      WhatFitsAnEmptyQueue(|e.reading.snapshot|);
      LandedStep(s, e.observedAt, e.reading, e.ids);
    } else if e.CommitTick? {
      if Lands(s.scopes[s.running.value.conn], s.running.value.tick, e.reading) {
        LandedStep(s, e.observedAt, e.reading, e.ids);
      } else {
        UnlandedStep(s, e.observedAt, e.reading, e.ids);
      }
    }
  }

  /** A scope too large for its queue never gets out of debt, however long it runs. */
  lemma {:induction false} TooLargeNeverRecovers(s: System, run: seq<Event>, c: string)
    requires Inv(s) && ValidFrom(s, run) && c in s.scopes && s.scopes[c].rebaseline && AlwaysTooLarge(s, run, c)
    ensures c in After(s, run).scopes && After(s, run).scopes[c].rebaseline
    decreases |run|
  {
    if run != [] {
      StepKeepsDebt(s, run[0], c);
      StepKeepsInv(s, run[0]);
      TooLargeNeverRecovers(Step(s, run[0]), run[1..], c);
    }
  }
}
