/** Runs of one connection, a round at a time: a policy comes in, the scope falls due, its
    tick begins and its tick commits. */
module Rounds {
  import opened Wrappers
  import opened Ordering
  import opened Snapshots
  import opened Diffs
  import opened Scopes
  import opened SyncRuns

  // No other connection has a scope, and nothing is under way.
  ghost predicate Quiet(s: System, c: string) {
    && s.local.enabled && c != "" && s.due == [] && s.running.None?
    && s.scopes.Keys == s.traces.Keys && s.scopes.Keys <= {c} && (c in s.scopes ==> s.scopes[c].connectionId == c)
  }

  // The policy is news to the scope.
  ghost predicate Moves(s: System, policy: Policy) {
    var c := policy.connectionId;
    c !in s.scopes || s.scopes[c].namespaces != EffectiveNamespaces(s.local, policy.namespaces)
  }

  // The scope as the policy leaves it.
  ghost function Configured(s: System, policy: Policy, now: Time): Scope
    requires Quiet(s, policy.connectionId)
  {
    PolicyApplied(s.local, s.scopes, policy, now)[policy.connectionId]
  }

  ghost function TraceOf(s: System, c: string, now: Time): Trace {
    if c in s.traces then s.traces[c] else Trace([], {}, 0, [], [], 0, now)
  }

  // A system with this one scope.
  function Alone(local: Local, c: string, scope: Scope, trace: Trace, due: seq<string>, running: Option<Running>,
                 clock: Time, used: set<string>): System
  {
    System(local, map[c := scope], map[c := trace], due, running, clock, used)
  }

  lemma PolicyStep(s: System, policy: Policy, now: Time)
    requires Quiet(s, policy.connectionId) && now >= s.clock && Moves(s, policy)
    ensures var c, scope := policy.connectionId, Configured(s, policy, now);
            Step(s, ApplyPolicy(policy, now)) == Alone(s.local, c, scope, TraceOf(s, c, now), [], None, now, s.used)
  {
  }

  lemma OneIsDue(scopes: map<string, Scope>, c: string, now: Time)
    requires scopes.Keys == {c} && scopes[c].nextDue == now
    ensures DueNow(scopes, now) == [c]
  {
    var due := set d | d in scopes && IsDue(scopes[d], now);
    assert due == {c};
    assert |SortedStrings(due)| == 1 && SortedStrings(due)[0] in SortedStrings(due);
  }

  lemma DueStep(local: Local, c: string, scope: Scope, trace: Trace, now: Time, used: set<string>)
    requires scope.nextDue == now
    ensures Step(Alone(local, c, scope, trace, [], None, now, used), RunDue(now))
         == Alone(local, c, Rescheduled(scope, now), trace.(ticks := trace.ticks + 1), [c], None, now, used)
  {
    OneIsDue(map[c := scope], c, now);
  }

  lemma BeginStep(local: Local, c: string, scope: Scope, trace: Trace, now: Time, used: set<string>)
    ensures Step(Alone(local, c, scope, trace, [c], None, now, used), BeginTick)
         == Alone(local, c, scope, trace, [], Some(Running(c, TickOf(scope))), now, used)
  {
  }

  // The trace of a scope whose tick has just landed.
  ghost function TraceAfter(scope: Scope, trace: Trace, observedAt: Time, reading: Reading, ids: nat -> string): Trace
    requires reading.Collected?
  {
    CommitTrace(trace, TickOf(scope), Queued(scope, TickOf(scope), observedAt, reading.snapshot, ids),
                reading.snapshot, Committed(scope, TickOf(scope), observedAt, reading, ids).rebaseline)
  }

  lemma CommitStep(s: System, c: string, observedAt: Time, reading: Reading, ids: nat -> string)
    requires c in s.scopes && c in s.traces && s.running == Some(Running(c, TickOf(s.scopes[c])))
    requires reading.Collected? && FreshIds(ids, s.used)
    ensures var s', scope := Step(s, CommitTick(observedAt, reading, ids)), s.scopes[c];
            var added := Queued(scope, TickOf(scope), observedAt, reading.snapshot, ids);
            && s' == s.(running := None, used := s.used + Ids(added), scopes := s'.scopes, traces := s'.traces)
            && s'.scopes == s.scopes[c := Committed(scope, TickOf(scope), observedAt, reading, ids)]
            && s'.traces == s.traces[c := CommitTrace(s.traces[c], TickOf(scope), added, reading.snapshot,
                                                      s'.scopes[c].rebaseline)]
  {
  }

  // The scope alone, its tick landed.
  ghost function Landed(local: Local, c: string, scope: Scope, trace: Trace, now: Time, used: set<string>,
                        observedAt: Time, reading: Reading, ids: nat -> string): System
    requires reading.Collected?
  {
    Alone(local, c, Committed(scope, TickOf(scope), observedAt, reading, ids),
          TraceAfter(scope, trace, observedAt, reading, ids), [], None, now,
          used + Ids(Queued(scope, TickOf(scope), observedAt, reading.snapshot, ids)))
  }

  lemma CommitAlone(s: System, local: Local, c: string, scope: Scope, trace: Trace, now: Time, used: set<string>,
                    observedAt: Time, reading: Reading, ids: nat -> string)
    requires s == Alone(local, c, scope, trace, [], Some(Running(c, TickOf(scope))), now, used)
    requires reading.Collected? && FreshIds(ids, used)
    ensures Step(s, CommitTick(observedAt, reading, ids))
         == Landed(local, c, scope, trace, now, used, observedAt, reading, ids)
  {
    CommitStep(s, c, observedAt, reading, ids);
    ReplacedAlone(c, scope, Committed(scope, TickOf(scope), observedAt, reading, ids));
    ReplacedAlone(c, trace, TraceAfter(scope, trace, observedAt, reading, ids));
  }

  lemma ReplacedAlone<V>(c: string, a: V, b: V)
    ensures map[c := a][c := b] == map[c := b]
  {
  }

  lemma Then(s: System, e: Event, t: System, run: seq<Event>, u: System)
    requires Enabled(s, e) && Step(s, e) == t && ValidFrom(t, run) && After(t, run) == u
    ensures ValidFrom(s, [e] + run) && After(s, [e] + run) == u
  {
    assert ([e] + run)[1..] == run;
  }

  lemma {:induction false} RunsJoin(s: System, a: seq<Event>, b: seq<Event>)
    requires ValidFrom(s, a) && ValidFrom(After(s, a), b)
    ensures ValidFrom(s, a + b) && After(s, a + b) == After(After(s, a), b)
    decreases |a|
  {
    if a == [] {
      assert a + b == b;
    } else {
      RunsJoin(Step(s, a[0]), a[1..], b);
      Then(s, a[0], Step(s, a[0]), a[1..] + b, After(After(s, a), b));
      FirstOfJoined(a, b);
    }
  }

  lemma FirstOfJoined(a: seq<Event>, b: seq<Event>)
    requires a != []
    ensures a + b == [a[0]] + (a[1..] + b)
  {
  }

  lemma OneStep(s: System, e: Event)
    requires Enabled(s, e)
    ensures ValidFrom(s, [e]) && After(s, [e]) == Step(s, e)
  {
    assert [e][1..] == [];
  }

  // A scope alone and due comes to its tick.
  lemma DueRuns(local: Local, c: string, scope: Scope, trace: Trace, now: Time, used: set<string>)
    requires scope.nextDue == now
    ensures var s, run := Alone(local, c, scope, trace, [], None, now, used), [RunDue(now)] + [BeginTick];
            var ticked := Rescheduled(scope, now);
            && ValidFrom(s, run)
            && After(s, run) == Alone(local, c, ticked, trace.(ticks := trace.ticks + 1), [],
                                      Some(Running(c, TickOf(ticked))), now, used)
  {
    var ticked, counted := Rescheduled(scope, now), trace.(ticks := trace.ticks + 1);
    var due := Alone(local, c, ticked, counted, [c], None, now, used);
    DueStep(local, c, scope, trace, now, used);
    BeginStep(local, c, ticked, counted, now, used);
    OneStep(due, BeginTick);
    Then(Alone(local, c, scope, trace, [], None, now, used), RunDue(now), due, [BeginTick], Step(due, BeginTick));
  }

  // So does one that any step leaves alone and due.
  lemma ThenDueRuns(s: System, e: Event, local: Local, c: string, scope: Scope, trace: Trace, now: Time,
                    used: set<string>)
    returns (run: seq<Event>)
    requires Enabled(s, e) && Step(s, e) == Alone(local, c, scope, trace, [], None, now, used) && scope.nextDue == now
    ensures var ticked := Rescheduled(scope, now);
            && ValidFrom(s, run)
            && After(s, run) == Alone(local, c, ticked, trace.(ticks := trace.ticks + 1), [],
                                      Some(Running(c, TickOf(ticked))), now, used)
  {
    DueRuns(local, c, scope, trace, now, used);
    run := [e] + ([RunDue(now)] + [BeginTick]);
    Then(s, e, Step(s, e), [RunDue(now)] + [BeginTick], After(Step(s, e), [RunDue(now)] + [BeginTick]));
  }

  function PendingOf(s: System, c: string): seq<Delta> {
    if c in s.scopes then s.scopes[c].pending else []
  }

  // The scope owes a baseline under this configuration, with this still queued.
  predicate Owes(scope: Scope, c: string, revision: nat, namespaces: seq<string>, pending: seq<Delta>) {
    && TickOf(scope).baseline && scope.connectionId == c && scope.policyRevision == revision
    && scope.namespaces == namespaces && scope.pending == pending
  }

  lemma NewsOwesBaseline(s: System, policy: Policy, now: Time)
    requires Quiet(s, policy.connectionId) && Moves(s, policy)
    ensures var scope := Configured(s, policy, now);
            && scope.nextDue == now
            && Owes(Rescheduled(scope, now), policy.connectionId, policy.revision,
                    EffectiveNamespaces(s.local, policy.namespaces), PendingOf(s, policy.connectionId))
  {
  }

  lemma NewsStarts(s: System, policy: Policy, now: Time) returns (e: Event, scope: Scope)
    requires Quiet(s, policy.connectionId) && now >= s.clock && Moves(s, policy)
    ensures var c := policy.connectionId;
            && Enabled(s, e) && Step(s, e) == Alone(s.local, c, scope, TraceOf(s, c, now), [], None, now, s.used)
            && scope.nextDue == now
            && Owes(Rescheduled(scope, now), c, policy.revision, EffectiveNamespaces(s.local, policy.namespaces),
                    PendingOf(s, c))
  {
    e, scope := ApplyPolicy(policy, now), Configured(s, policy, now);
    PolicyStep(s, policy, now);
    NewsOwesBaseline(s, policy, now);
  }

  /** From a quiet state, a policy that is news always comes to a tick, on a scope that owes a
      baseline under it. */
  lemma TickBegins(s: System, policy: Policy, now: Time) returns (run: seq<Event>, scope: Scope, trace: Trace)
    requires Quiet(s, policy.connectionId) && now >= s.clock && Moves(s, policy)
    ensures var c := policy.connectionId;
            && ValidFrom(s, run)
            && After(s, run) == Alone(s.local, c, scope, trace, [], Some(Running(c, TickOf(scope))), now, s.used)
            && Owes(scope, c, policy.revision, EffectiveNamespaces(s.local, policy.namespaces), PendingOf(s, c))
            && trace == TraceOf(s, c, now).(ticks := trace.ticks)
  {
    var e, adopted := NewsStarts(s, policy, now);
    var before := TraceOf(s, policy.connectionId, now);
    scope, trace := Rescheduled(adopted, now), before.(ticks := before.ticks + 1);
    run := ThenDueRuns(s, e, s.local, policy.connectionId, adopted, before, now, s.used);
  }

  /** And the tick can land. */
  lemma RoundRuns(s: System, policy: Policy, now: Time, observedAt: Time, reading: Reading, ids: nat -> string)
    returns (run: seq<Event>, scope: Scope, trace: Trace)
    requires Quiet(s, policy.connectionId) && now >= s.clock && Moves(s, policy)
    requires reading.Collected? && FreshIds(ids, s.used)
    ensures var c := policy.connectionId;
            && ValidFrom(s, run)
            && After(s, run) == Landed(s.local, c, scope, trace, now, s.used, observedAt, reading, ids)
            && Owes(scope, c, policy.revision, EffectiveNamespaces(s.local, policy.namespaces), PendingOf(s, c))
            && trace == TraceOf(s, c, now).(ticks := trace.ticks)
  {
    var begin;
    begin, scope, trace := TickBegins(s, policy, now);
    var begun, commit := After(s, begin), CommitTick(observedAt, reading, ids);
    CommitAlone(begun, s.local, policy.connectionId, scope, trace, now, s.used, observedAt, reading, ids);
    OneStep(begun, commit);
    run := begin + [commit];
    RunsJoin(s, begin, [commit]);
  }

  // ---------------------------------------------------------------- what a landed baseline leaves

  // The messages of a baseline.
  ghost function Messages(c: string, revision: nat, observedAt: Time, current: Snapshot, ids: nat -> string): seq<Delta>
  {
    Packed(c, revision, true, observedAt, BaselineOf(current), ids)
  }

  /** With room for it, the baseline is queued behind what was there and nothing is owed. */
  lemma LandedWithRoom(local: Local, c: string, scope: Scope, trace: Trace, now: Time, used: set<string>,
                       observedAt: Time, reading: Reading, ids: nat -> string)
    requires TickOf(scope).baseline && scope.connectionId == c && reading.Collected?
    requires |scope.pending| + MessagesFor(|reading.snapshot|) <= MAX_PENDING_DELTAS
    ensures var s := Landed(local, c, scope, trace, now, used, observedAt, reading, ids);
            var added := Messages(c, scope.policyRevision, observedAt, reading.snapshot, ids);
            && s.scopes[c] == scope.(pending := scope.pending + added, rebaseline := false, baselined := true,
                                     faulted := false, snapshot := reading.snapshot, truncated := reading.truncated,
                                     lastCompleted := Some(observedAt))
            && s.traces[c] == trace.(queued := trace.queued + added, start := |trace.queued|,
                                     seen := [reading.snapshot], under := scope.namespaces)
            && s.used == used + Ids(added)
  {
    DebtIsPaidIffItFits(scope, observedAt, reading.snapshot, reading.truncated, ids);
  }
}
