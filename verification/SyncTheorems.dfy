/** What the synchronizer promises over every run. */
module SyncTheorems {
  import opened Wrappers
  import opened Snapshots
  import opened Diffs
  import opened Replay
  import opened Scopes
  import opened SyncRuns
  import opened Readers

  // ---------------------------------------------------------------- the invariants

  // The queue holds exactly what was queued and not acknowledged, in order, and is bounded.
  ghost predicate QueueOk(scope: Scope, trace: Trace, used: set<string>) {
    && scope.pending == Live(trace.queued, trace.acked)
    && DistinctIds(trace.queued) && Ids(trace.queued) <= used && trace.acked <= used
    && |scope.pending| <= MAX_PENDING_DELTAS
  }

  // The chain's statement, for any way of telling snapshots apart: from `start` on the queue
  // carried the chain of what was seen, its baseline marked as one group and nothing else.
  ghost predicate ChainHolds(diff: (Snapshot, Snapshot) -> seq<Change>, queued: seq<Delta>, start: nat,
                             seen: seq<Snapshot>, snapshot: Snapshot)
  {
    && start <= |queued| && seen != [] && seen[|seen| - 1] == snapshot && Carried(queued[start..]) == Chain(diff, seen)
    && Marked(queued, start, MessagesFor(|seen[0]|))
  }

  // With no baseline owed, what was queued since the last baseline is the chain of diffs
  // from it to the stored snapshot, collected under the namespaces now in force.
  ghost predicate ChainOkFor(diff: (Snapshot, Snapshot) -> seq<Change>, scope: Scope, trace: Trace) {
    scope.baselined && !scope.rebaseline ==>
      ChainHolds(diff, trace.queued, trace.start, trace.seen, scope.snapshot) && trace.under == scope.namespaces
  }

  ghost predicate ChainOk(scope: Scope, trace: Trace) {
    ChainOkFor(DiffOf, scope, trace)
  }

  // The tick-rate ledger, in interval units times the floor.
  ghost predicate RateOk(scope: Scope, trace: Trace, floor: int, clock: Time) {
    && scope.interval >= floor >= 0 && scope.configVersion >= 1 && trace.since <= clock
    && trace.ticks * floor <= (scope.configVersion - 1) * floor + (scope.nextDue - trace.since)
    && trace.ticks * floor <= scope.configVersion * floor + (clock - trace.since)
  }

  ghost predicate ScopeOk(s: System, c: string)
    requires c in s.scopes && c in s.traces
  {
    QueueOk(s.scopes[c], s.traces[c], s.used) && ChainOk(s.scopes[c], s.traces[c])
    && RateOk(s.scopes[c], s.traces[c], s.local.minimumInterval, s.clock)
  }

  // A tick in flight still describes its scope unless the configuration moved.
  ghost predicate RunningOk(s: System) {
    s.running.Some? ==>
      && s.running.value.conn in s.scopes
      && s.running.value.tick.configVersion <= s.scopes[s.running.value.conn].configVersion
      && (s.running.value.tick.configVersion == s.scopes[s.running.value.conn].configVersion ==>
            s.running.value.tick == TickOf(s.scopes[s.running.value.conn]))
  }

  ghost predicate Inv(s: System) {
    && s.local.minimumInterval >= 0
    && s.traces.Keys == s.scopes.Keys
    && (forall c :: c in s.scopes && c in s.traces ==> ScopeOk(s, c))
    && (forall c :: c in s.due ==> c in s.scopes)
    && RunningOk(s)
  }

  // ---------------------------------------------------------------- one critical section at a time

  lemma RateAfterAdopting(ticks: nat, version: nat, floor: int, since: Time, clock: Time, now: Time)
    requires floor >= 0 && clock <= now && ticks * floor <= version * floor + (clock - since)
    ensures ticks * floor <= version * floor + (now - since)
    ensures ticks * floor <= (version + 1) * floor + (now - since)
  {
    assert (version + 1) * floor == version * floor + floor;
  }

  lemma AdoptKeeps(scope: Scope, trace: Trace, used: set<string>, floor: int, clock: Time,
                   revision: nat, interval: int, namespaces: seq<string>, now: Time)
    requires QueueOk(scope, trace, used) && ChainOk(scope, trace) && RateOk(scope, trace, floor, clock)
    requires interval >= floor && now >= clock
    ensures var after := Adopted(scope, revision, interval, namespaces, now);
            && QueueOk(after, trace, used) && ChainOk(after, trace) && RateOk(after, trace, floor, now)
            && after.configVersion >= scope.configVersion
                && (after.configVersion == scope.configVersion ==> after == scope)
  {
    RateAfterAdopting(trace.ticks, scope.configVersion, floor, trace.since, clock, now);
  }

  lemma AckKeepsQueue(scope: Scope, trace: Trace, used: set<string>, id: string)
    requires QueueOk(scope, trace, used) && IndexOf(scope.pending, id) < |scope.pending|
    ensures QueueOk(Acked(scope, id), trace.(acked := trace.acked + {id}), used)
  {
    LiveAfterAck(trace.queued, trace.acked, id);
    LiveIdsAreQueued(trace.queued, trace.acked, IndexOf(scope.pending, id));
  }

  lemma LiveIdsAreQueued(queued: seq<Delta>, acked: set<string>, i: nat)
    requires i < |Live(queued, acked)|
    ensures Live(queued, acked)[i].id in Ids(queued)
  {
    LiveMembers(queued, acked);
    assert Live(queued, acked)[i] in Live(queued, acked);
  }

  lemma DueKeeps(scope: Scope, trace: Trace, floor: int, clock: Time, now: Time)
    requires RateOk(scope, trace, floor, clock) && now >= clock
    ensures RateOk(Rescheduled(scope, now), Counted(scope, trace, now), floor, now)
  {
    assert (trace.ticks + 1) * floor == trace.ticks * floor + floor;
    assert scope.configVersion * floor == (scope.configVersion - 1) * floor + floor;
  }

  // The fresh messages of one tick are distinct and unknown to the queue.
  lemma AddedAreNew(trace: Trace, used: set<string>, added: seq<Delta>, ids: nat -> string)
    requires DistinctIds(trace.queued) && Ids(trace.queued) <= used && trace.acked <= used && FreshIds(ids, used)
    requires forall i :: 0 <= i < |added| ==> added[i].id == ids(i)
    ensures DistinctIds(trace.queued + added)
    ensures Live(trace.queued + added, trace.acked) == Live(trace.queued, trace.acked) + added
    ensures Ids(trace.queued + added) <= used + Ids(added)
  {
    forall d | d in added ensures d.id !in used { var i :| 0 <= i < |added| && added[i] == d; }
    forall d | d in trace.queued ensures d.id in used { assert d.id in Ids(trace.queued); }
    LiveConcat(trace.queued, added, trace.acked);
    LiveAll(added, trace.acked);
    var all := trace.queued + added;
    forall i, j | 0 <= i < j < |all| ensures all[i].id != all[j].id {
      if i < |trace.queued| <= j {
        assert all[i] in trace.queued && all[j] in added;
      }
    }
    forall id | id in Ids(all) ensures id in used + Ids(added) {
      var d :| d in all && d.id == id;
      assert d in trace.queued || d in added;
    }
  }

  lemma ChainGrows(diff: (Snapshot, Snapshot) -> seq<Change>, queued: seq<Delta>, start: nat, seen: seq<Snapshot>,
                   added: seq<Delta>, current: Snapshot)
    requires start <= |queued| && seen != []
    requires Carried(queued[start..]) == Chain(diff, seen)
    requires Carried(added) == diff(seen[|seen| - 1], current)
    ensures Carried((queued + added)[start..]) == Chain(diff, seen + [current])
  {
    assert (queued + added)[start..] == queued[start..] + added;
    CarriedConcat(queued[start..], added);
    assert (seen + [current])[..|seen|] == seen;
  }

  lemma MarkedGroup(queued: seq<Delta>, added: seq<Delta>, observedAt: Time)
    requires added != [] && AllMarked(added, true, observedAt)
    ensures Marked(queued + added, |queued|, |added|)
  {
    var all, n := queued + added, |queued|;
    assert forall i :: n <= i < |all| ==> all[i] == added[i - n];
  }

  // A tick that lands, seen from its own scope.
  lemma LandingKeepsQueue(scope: Scope, trace: Trace, used: set<string>, tick: Tick, added: seq<Delta>,
                          observedAt: Time, current: Snapshot, truncated: bool, ids: nat -> string)
    requires QueueOk(scope, trace, used) && FreshIds(ids, used)
    requires forall i :: 0 <= i < |added| ==> added[i].id == ids(i)
    ensures var after := Completed(scope, added, observedAt, current, truncated);
            QueueOk(after, CommitTrace(trace, tick, added, current, after.rebaseline), used + Ids(added))
  {
    AddedAreNew(trace, used, added, ids);
  }

  lemma ChainExtends(diff: (Snapshot, Snapshot) -> seq<Change>, trace: Trace, tick: Tick, added: seq<Delta>,
                     current: Snapshot, observedAt: Time)
    requires ChainHolds(diff, trace.queued, trace.start, trace.seen, tick.previous) && !tick.baseline
    requires Carried(added) == diff(tick.previous, current) && AllMarked(added, false, observedAt)
    ensures var trace' := CommitTrace(trace, tick, added, current, false);
            ChainHolds(diff, trace'.queued, trace'.start, trace'.seen, current) && trace'.under == tick.namespaces
  {
    ChainGrows(diff, trace.queued, trace.start, trace.seen, added, current);
  }

  lemma ChainRestarts(diff: (Snapshot, Snapshot) -> seq<Change>, trace: Trace, tick: Tick, added: seq<Delta>,
                      current: Snapshot, observedAt: Time)
    requires tick.baseline && Carried(added) == diff(map[], current)
    requires AllMarked(added, true, observedAt) && 0 < |added| == MessagesFor(|current|)
    ensures var trace' := CommitTrace(trace, tick, added, current, false);
            ChainHolds(diff, trace'.queued, trace'.start, trace'.seen, current) && trace'.under == tick.namespaces
  {
    assert (trace.queued + added)[|trace.queued|..] == added;
    MarkedGroup(trace.queued, added, observedAt);
  }

  lemma LandingKeepsChainFor(diff: (Snapshot, Snapshot) -> seq<Change>, scope: Scope, trace: Trace, tick: Tick,
                             added: seq<Delta>, observedAt: Time, current: Snapshot, truncated: bool)
    requires ChainOkFor(diff, scope, trace) && tick == TickOf(scope)
    requires Carried(added) == diff(if tick.baseline then map[] else scope.snapshot, current)
    requires AllMarked(added, tick.baseline, observedAt) && (tick.baseline ==> 0 < |added| == MessagesFor(|current|))
    ensures var after := Completed(scope, added, observedAt, current, truncated);
            ChainOkFor(diff, after, CommitTrace(trace, tick, added, current, after.rebaseline))
  {
    if tick.baseline {
      ChainRestarts(diff, trace, tick, added, current, observedAt);
    } else {
      ChainExtends(diff, trace, tick, added, current, observedAt);
    }
  }

  lemma LandingKeepsChain(scope: Scope, trace: Trace, added: seq<Delta>, observedAt: Time, current: Snapshot,
                          truncated: bool)
    requires ChainOk(scope, trace) && Carried(added) == TickChanges(TickOf(scope), current)
    requires AllMarked(added, TickOf(scope).baseline, observedAt)
             && (TickOf(scope).baseline ==> 0 < |added| == MessagesFor(|current|))
    ensures var after := Completed(scope, added, observedAt, current, truncated);
            ChainOk(after, CommitTrace(trace, TickOf(scope), added, current, after.rebaseline))
  {
    BaselineIsDiffFromNothing(current);
    LandingKeepsChainFor(DiffOf, scope, trace, TickOf(scope), added, observedAt, current, truncated);
  }

  lemma LandingKeeps(scope: Scope, trace: Trace, used: set<string>, observedAt: Time, current: Snapshot,
                     truncated: bool, ids: nat -> string)
    requires QueueOk(scope, trace, used) && ChainOk(scope, trace) && FreshIds(ids, used)
    ensures var tick := TickOf(scope);
            var added := Queued(scope, tick, observedAt, current, ids);
            var after := Completed(scope, added, observedAt, current, truncated);
            var trace' := CommitTrace(trace, tick, added, current, after.rebaseline);
            QueueOk(after, trace', used + Ids(added)) && ChainOk(after, trace')
  {
    var tick := TickOf(scope);
    var added := Queued(scope, tick, observedAt, current, ids);
    PackedCarries(scope.connectionId, tick.revision, tick.baseline, observedAt, TickChanges(tick, current), ids);
    PackedMarks(scope.connectionId, tick.revision, tick.baseline, observedAt, TickChanges(tick, current), ids);
    BaselineListsEverything(current);
    LandingKeepsQueue(scope, trace, used, tick, added, observedAt, current, truncated, ids);
    LandingKeepsChain(scope, trace, added, observedAt, current, truncated);
  }

  // ---------------------------------------------------------------- every step, every run

  lemma ClockKeepsRate(scope: Scope, trace: Trace, floor: int, clock: Time, now: Time)
    requires RateOk(scope, trace, floor, clock) && clock <= now
    ensures RateOk(scope, trace, floor, now)
  {
  }

  lemma PolicyKeepsScope(s: System, policy: Policy, now: Time, c: string)
    requires Inv(s) && now >= s.clock
    requires var s' := Step(s, ApplyPolicy(policy, now)); c in s'.scopes && c in s'.traces
    ensures ScopeOk(Step(s, ApplyPolicy(policy, now)), c)
  {
    if c in s.scopes {
      assert ScopeOk(s, c);
      ClockKeepsRate(s.scopes[c], s.traces[c], s.local.minimumInterval, s.clock, now);
      AdoptKeeps(s.scopes[c], s.traces[c], s.used, s.local.minimumInterval, s.clock, policy.revision,
                 FlooredInterval(s.local, policy.requestedInterval), EffectiveNamespaces(s.local, policy.namespaces),
                     now);
    }
  }

  lemma PolicyKeepsRunning(s: System, policy: Policy, now: Time)
    requires Inv(s) && now >= s.clock
    ensures RunningOk(Step(s, ApplyPolicy(policy, now)))
  {
  }

  lemma PolicyKeepsInv(s: System, policy: Policy, now: Time)
    requires Inv(s) && now >= s.clock
    ensures Inv(Step(s, ApplyPolicy(policy, now)))
  {
    var s' := Step(s, ApplyPolicy(policy, now));
    PolicyKeepsRunning(s, policy, now);
    forall c | c in s'.scopes && c in s'.traces ensures ScopeOk(s', c) { PolicyKeepsScope(s, policy, now, c); }
  }

  lemma QueueGrowsUsed(scope: Scope, trace: Trace, used: set<string>, used': set<string>)
    requires QueueOk(scope, trace, used) && used <= used'
    ensures QueueOk(scope, trace, used')
  {
  }

  // A step that moves one scope: the others only see more identifiers used.
  lemma OneScopeMoved(s: System, after: System, conn: string)
    requires Inv(s) && conn in s.scopes && conn in after.scopes && conn in after.traces
    requires after.local == s.local && after.clock == s.clock && s.used <= after.used
             && (forall c :: c in after.due ==> c in s.scopes)
    requires after.scopes == s.scopes[conn := after.scopes[conn]]
             && after.traces == s.traces[conn := after.traces[conn]]
    requires ScopeOk(after, conn) && RunningOk(after)
    ensures Inv(after)
  {
    forall c | c in after.scopes && c in after.traces && c != conn ensures ScopeOk(after, c) {
      assert ScopeOk(s, c);
      QueueGrowsUsed(s.scopes[c], s.traces[c], s.used, after.used);
    }
  }

  lemma AckKeepsInv(s: System, conn: string, id: string)
    requires Inv(s) && Enabled(s, Ack(conn, id))
    ensures Inv(Step(s, Ack(conn, id)))
  {
    var s' := Step(s, Ack(conn, id));
    assert ScopeOk(s, conn);
    AckKeepsQueue(s.scopes[conn], s.traces[conn], s.used, id);
    OneScopeMoved(s, s', conn);
  }

  lemma RunDueKeepsInv(s: System, now: Time)
    requires Inv(s) && Enabled(s, RunDue(now))
    ensures Inv(Step(s, RunDue(now)))
  {
    var s' := Step(s, RunDue(now));
    forall c | c in s'.scopes ensures c in s'.traces && ScopeOk(s', c) {
      assert ScopeOk(s, c);
      DueKeeps(s.scopes[c], s.traces[c], s.local.minimumInterval, s.clock, now);
    }
  }

  lemma BeginKeepsInv(s: System)
    requires Inv(s) && Enabled(s, BeginTick)
    ensures Inv(Step(s, BeginTick))
  {
    var s' := Step(s, BeginTick);
    forall c | c in s'.scopes ensures c in s'.traces && ScopeOk(s', c) { assert ScopeOk(s, c); }
  }

  // What a commit that lands does to the system.
  lemma LandedStep(s: System, observedAt: Time, reading: Reading, ids: nat -> string)
    requires Inv(s) && Enabled(s, CommitTick(observedAt, reading, ids))
    requires Lands(s.scopes[s.running.value.conn], s.running.value.tick, reading)
    ensures var s' := Step(s, CommitTick(observedAt, reading, ids));
            var conn := s.running.value.conn;
            var scope := s.scopes[conn];
            var tick := TickOf(scope);
            var added := Queued(scope, tick, observedAt, reading.snapshot, ids);
            var after := Completed(scope, added, observedAt, reading.snapshot, reading.truncated);
            && conn in s.traces
            && s'.scopes == s.scopes[conn := after] && s'.used == s.used + Ids(added)
            && s'.traces == s.traces[conn := CommitTrace(s.traces[conn], tick, added, reading.snapshot,
                                                         after.rebaseline)]
  {
  }

  lemma LandedScopeIsOk(s: System, after: System, conn: string, observedAt: Time, current: Snapshot, truncated: bool,
                        ids: nat -> string)
    requires conn in s.scopes && conn in s.traces && ScopeOk(s, conn) && FreshIds(ids, s.used)
    requires conn in after.scopes && conn in after.traces && after.local == s.local && after.clock == s.clock
    requires var scope, tick := s.scopes[conn], TickOf(s.scopes[conn]);
             var added := Queued(scope, tick, observedAt, current, ids);
             && after.scopes[conn] == Completed(scope, added, observedAt, current, truncated)
                 && after.used == s.used + Ids(added)
             && after.traces[conn] == CommitTrace(s.traces[conn], tick, added, current, after.scopes[conn].rebaseline)
    ensures ScopeOk(after, conn)
  {
    LandingKeeps(s.scopes[conn], s.traces[conn], s.used, observedAt, current, truncated, ids);
    LandingKeepsRate(s.scopes[conn], s.traces[conn], after.scopes[conn], after.traces[conn], s.local.minimumInterval,
                     s.clock);
  }

  lemma LandingKeepsRate(scope: Scope, trace: Trace, scope': Scope, trace': Trace, floor: int, clock: Time)
    requires RateOk(scope, trace, floor, clock)
    requires scope'.interval == scope.interval && scope'.configVersion == scope.configVersion
             && scope'.nextDue == scope.nextDue
    requires trace'.ticks == trace.ticks && trace'.since == trace.since
    ensures RateOk(scope', trace', floor, clock)
  {
  }

  lemma LandedKeepsInv(s: System, observedAt: Time, reading: Reading, ids: nat -> string)
    requires Inv(s) && Enabled(s, CommitTick(observedAt, reading, ids))
    requires Lands(s.scopes[s.running.value.conn], s.running.value.tick, reading)
    ensures Inv(Step(s, CommitTick(observedAt, reading, ids)))
  {
    var s' := Step(s, CommitTick(observedAt, reading, ids));
    LandedStep(s, observedAt, reading, ids);
    assert ScopeOk(s, s.running.value.conn);
    LandedScopeIsOk(s, s', s.running.value.conn, observedAt, reading.snapshot, reading.truncated, ids);
    OneScopeMoved(s, s', s.running.value.conn);
  }

  // What a commit that does not land does: it may mark the scope faulted, and no more.
  lemma UnlandedStep(s: System, observedAt: Time, reading: Reading, ids: nat -> string)
    requires Enabled(s, CommitTick(observedAt, reading, ids))
    requires !Lands(s.scopes[s.running.value.conn], s.running.value.tick, reading)
    ensures var s' := Step(s, CommitTick(observedAt, reading, ids));
            var conn := s.running.value.conn;
            var scope := s.scopes[conn];
            && s' == s.(running := None, scopes := s'.scopes)
            && s'.scopes == if scope.configVersion == s.running.value.tick.configVersion
                            then s.scopes[conn := scope.(faulted := true)] else s.scopes
  {
    var conn := s.running.value.conn;
    assert s.scopes[conn := s.scopes[conn]] == s.scopes;
  }

  lemma CommitKeepsInv(s: System, observedAt: Time, reading: Reading, ids: nat -> string)
    requires Inv(s) && Enabled(s, CommitTick(observedAt, reading, ids))
    ensures Inv(Step(s, CommitTick(observedAt, reading, ids)))
  {
    if Lands(s.scopes[s.running.value.conn], s.running.value.tick, reading) {
      LandedKeepsInv(s, observedAt, reading, ids);
    } else {
      var s' := Step(s, CommitTick(observedAt, reading, ids));
      UnlandedStep(s, observedAt, reading, ids);
      forall c | c in s'.scopes && c in s'.traces ensures ScopeOk(s', c) { assert ScopeOk(s, c); }
    }
  }

  lemma StepKeepsInv(s: System, e: Event)
    requires Inv(s) && Enabled(s, e)
    ensures Inv(Step(s, e))
  {
    match e
    case ApplyPolicy(policy, now) => PolicyKeepsInv(s, policy, now);
    case Ack(conn, id) => AckKeepsInv(s, conn, id);
    case RunDue(now) => RunDueKeepsInv(s, now);
    case BeginTick => BeginKeepsInv(s);
    case CommitTick(observedAt, reading, ids) => CommitKeepsInv(s, observedAt, reading, ids);
  }

  lemma {:induction false} RunKeepsInv(s: System, run: seq<Event>)
    requires Inv(s) && ValidFrom(s, run)
    ensures Inv(After(s, run))
    decreases |run|
  {
    if run != [] {
      StepKeepsInv(s, run[0]);
      RunKeepsInv(Step(s, run[0]), run[1..]);
    }
  }

  // ---------------------------------------------------------------- the promises

  /** The stored snapshot is one of the boundary now in force whenever it may be diffed
      against, and the queue is bounded at every lock release. */
  lemma DiffsStayWithinOneBoundary(local: Local, clock: Time, run: seq<Event>, c: string)
    requires local.minimumInterval >= 0 && ValidFrom(Start(local, clock), run)
    requires var s := After(Start(local, clock), run); c in s.scopes && c in s.traces
    ensures var s := After(Start(local, clock), run);
            && (s.scopes[c].baselined && !s.scopes[c].rebaseline ==> s.traces[c].under == s.scopes[c].namespaces)
            && |s.scopes[c].pending| <= MAX_PENDING_DELTAS
  {
    RunKeepsInv(Start(local, clock), run);
    assert ScopeOk(After(Start(local, clock), run), c);
  }

  /** A tick about to land with a diff compares against the stored snapshot, and both sides
      were collected under the same namespaces. */
  lemma LandingDiffComparesOneBoundary(local: Local, clock: Time, run: seq<Event>, reading: Reading)
    requires local.minimumInterval >= 0 && ValidFrom(Start(local, clock), run)
    requires var s := After(Start(local, clock), run);
             s.running.Some? && s.running.value.conn in s.scopes && s.running.value.conn in s.traces
             && Lands(s.scopes[s.running.value.conn], s.running.value.tick, reading) && !s.running.value.tick.baseline
    ensures var s := After(Start(local, clock), run);
            var c, tick := s.running.value.conn, s.running.value.tick;
            tick.previous == s.scopes[c].snapshot && tick.namespaces == s.traces[c].under
  {
    RunKeepsInv(Start(local, clock), run);
    assert ScopeOk(After(Start(local, clock), run), After(Start(local, clock), run).running.value.conn);
  }

  /** Ticks are rate-bounded whatever the control plane sends: each change of configuration
      buys at most one tick beyond one per minimum interval. */
  lemma TickRateIsBounded(local: Local, clock: Time, run: seq<Event>, c: string)
    requires local.minimumInterval >= 0 && ValidFrom(Start(local, clock), run)
    requires var s := After(Start(local, clock), run); c in s.scopes && c in s.traces
    ensures var s := After(Start(local, clock), run);
            s.traces[c].ticks * local.minimumInterval
              <= s.scopes[c].configVersion * local.minimumInterval + (s.clock - s.traces[c].since)
  {
    RunKeepsInv(Start(local, clock), run);
    LocalStays(Start(local, clock), run);
    assert ScopeOk(After(Start(local, clock), run), c);
  }

  lemma {:induction false} LocalStays(s: System, run: seq<Event>)
    requires ValidFrom(s, run)
    ensures After(s, run).local == s.local
    decreases |run|
  {
    if run != [] { LocalStays(Step(s, run[0]), run[1..]); }
  }

  // ---------------------------------------------------------------- a policy during a tick

  // The event changes the namespaces an existing scope watches.
  ghost predicate MovesBoundary(s: System, e: Event, c: string) {
    && e.ApplyPolicy? && s.local.enabled && e.policy.connectionId == c && c != "" && c in s.scopes
    && EffectiveNamespaces(s.local, e.policy.namespaces) != s.scopes[c].namespaces
  }

  ghost predicate BoundaryMoved(s: System, run: seq<Event>, c: string)
    requires ValidFrom(s, run)
    decreases |run|
  {
    run != [] && (MovesBoundary(s, run[0], c) || BoundaryMoved(Step(s, run[0]), run[1..], c))
  }

  lemma BetweenStep(s: System, e: Event, c: string)
    requires Inv(s) && Enabled(s, e) && !e.CommitTick? && s.running.Some? && s.running.value.conn == c && c in s.scopes
    ensures var s' := Step(s, e);
            && s'.running == s.running && c in s'.scopes
            && s'.scopes[c].configVersion >= s.scopes[c].configVersion
            && (s.scopes[c].rebaseline ==> s'.scopes[c].rebaseline)
            && (MovesBoundary(s, e, c) ==>
                s'.scopes[c].rebaseline && s'.scopes[c].configVersion > s.scopes[c].configVersion)
  {
  }

  lemma {:induction false} BetweenRun(s: System, run: seq<Event>, c: string)
    requires Inv(s) && ValidFrom(s, run) && s.running.Some? && s.running.value.conn == c && c in s.scopes
    requires forall e :: e in run ==> !e.CommitTick?
    ensures var s' := After(s, run);
            && s'.running == s.running && c in s'.scopes
            && s'.scopes[c].configVersion >= s.scopes[c].configVersion
            && (s.scopes[c].rebaseline ==> s'.scopes[c].rebaseline)
            && (BoundaryMoved(s, run, c) ==>
                s'.scopes[c].rebaseline && s'.scopes[c].configVersion > s.scopes[c].configVersion)
    decreases |run|
  {
    if run != [] {
      BetweenStep(s, run[0], c);
      StepKeepsInv(s, run[0]);
      BetweenRun(Step(s, run[0]), run[1..], c);
    }
  }

  /** A request for a new boundary that arrives while a tick reads the cluster is never
      erased by that tick: its commit changes nothing, and the baseline stays owed. */
  lemma RebaselineSurvivesTheTick(s: System, run: seq<Event>, c: string, observedAt: Time, reading: Reading,
                                  ids: nat -> string)
    requires Inv(s) && ValidFrom(s, run) && s.running.Some? && s.running.value.conn == c && c in s.scopes
    requires s.running.value.tick == TickOf(s.scopes[c])
    requires (forall e :: e in run ==> !e.CommitTick?) && BoundaryMoved(s, run, c)
    requires Enabled(After(s, run), CommitTick(observedAt, reading, ids))
    ensures var before, after := After(s, run), Step(After(s, run), CommitTick(observedAt, reading, ids));
            after.scopes == before.scopes && c in after.scopes && after.scopes[c].rebaseline
  {
    BetweenRun(s, run, c);
    UnlandedStep(After(s, run), observedAt, reading, ids);
  }
}
