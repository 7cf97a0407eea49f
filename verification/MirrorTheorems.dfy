/** What a control plane that reads the deltas ends up with, over every run. */
module MirrorTheorems {
  import opened Wrappers
  import opened Snapshots
  import opened Diffs
  import opened Replay
  import opened Observations
  import opened Scopes
  import opened SyncRuns
  import opened Readers
  import opened SyncTheorems

  // The scope has a baseline and owes no other.
  predicate Current(s: System, c: string) {
    c in s.scopes && c in s.traces && s.scopes[c].baselined && !s.scopes[c].rebaseline
  }

  lemma CurrentChain(local: Local, clock: Time, run: seq<Event>, c: string)
    requires local.minimumInterval >= 0 && ValidFrom(Start(local, clock), run)
             && Current(After(Start(local, clock), run), c)
    ensures var s := After(Start(local, clock), run);
            var trace := s.traces[c];
            && ChainHolds(DiffOf, trace.queued, trace.start, trace.seen, s.scopes[c].snapshot)
            && s.scopes[c].pending == Live(trace.queued, trace.acked)
  {
    RunKeepsInv(Start(local, clock), run);
    assert ScopeOk(After(Start(local, clock), run), c);
  }

  // Reading a queue that holds a chain is replaying that chain, on nothing or on what the
  // reader had, as its first delta says.
  lemma ReadOfChain(diff: (Snapshot, Snapshot) -> seq<Change>, r: Reader, queued: seq<Delta>, start: nat,
                    seen: seq<Snapshot>, snapshot: Snapshot)
    requires ChainHolds(diff, queued, start, seen, snapshot)
    ensures start < |queued|
    ensures var before := Read(r, queued[..start]);
            Read(r, queued).mirror
                == ReplayAll(if Restarts(before, queued[start]) then map[] else before.mirror, Chain(diff, seen))
  {
    var rest, n := queued[start..], MessagesFor(|seen[0]|);
    assert queued == queued[..start] + rest;
    assert forall i :: 0 <= i < |rest| ==> rest[i] == queued[start + i];
    assert Marked(rest, 0, n);
    ReadConcat(r, queued[..start], rest);
    ReadOfBaseline(Read(r, queued[..start]), rest, n);
  }

  lemma ReaderIff(diff: (Snapshot, Snapshot) -> seq<Change>, r: Reader, queued: seq<Delta>, start: nat,
                  seen: seq<Snapshot>, snapshot: Snapshot)
    requires ChainHolds(diff, queued, start, seen, snapshot) && Telling(diff)
    ensures start < |queued|
    ensures var before := Read(r, queued[..start]);
            SameRevisions(Read(r, queued).mirror, snapshot) <==>
              Restarts(before, queued[start]) || forall key :: key in before.mirror ==>
                  Mentions(Carried(queued[start..]), key)
  {
    ReadOfChain(diff, r, queued, start, seen, snapshot);
    var before := Read(r, queued[..start]);
    ChainOnTopIff(diff, if Restarts(before, queued[start]) then map[] else before.mirror, seen);
  }

  /** The replay invariant, exactly.  Whenever a scope is baselined and owes no other
      baseline, a reader in any state that takes everything queued since the queue was last
      cleared ends with the stored snapshot's objects and revisions if and only if it
      started over at the last baseline, or everything it held by then is mentioned since.
      And every delta it took is still pending or was acknowledged. */
  lemma MirrorAgreesIff(local: Local, clock: Time, run: seq<Event>, c: string, r: Reader)
    requires local.minimumInterval >= 0 && ValidFrom(Start(local, clock), run)
             && Current(After(Start(local, clock), run), c)
    ensures var s := After(Start(local, clock), run);
            var trace := s.traces[c];
            && trace.start < |trace.queued|
            && (var before := Read(r, trace.queued[..trace.start]);
                SameRevisions(Read(r, trace.queued).mirror, s.scopes[c].snapshot) <==>
                  || Restarts(before, trace.queued[trace.start])
                  || forall key :: key in before.mirror ==> Mentions(Carried(trace.queued[trace.start..]), key))
            && forall d :: d in trace.queued ==> d in s.scopes[c].pending || d.id in trace.acked
  {
    CurrentChain(local, clock, run, c);
    var s := After(Start(local, clock), run);
    var trace := s.traces[c];
    DiffOfIsTelling();
    ReaderIff(DiffOf, r, trace.queued, trace.start, trace.seen, s.scopes[c].snapshot);
    LiveMembers(trace.queued, trace.acked);
  }

  // ---------------------------------------------------------------- when the clock moves

  // Every tick of a scope that lands was observed later than the one before it.
  ghost predicate ClockMoves(s: System, run: seq<Event>)
    requires ValidFrom(s, run)
    decreases |run|
  {
    run == [] || (Later(s, run[0]) && ClockMoves(Step(s, run[0]), run[1..]))
  }

  ghost predicate Later(s: System, e: Event)
    requires Enabled(s, e)
  {
    e.CommitTick? && Lands(s.scopes[s.running.value.conn], s.running.value.tick, e.reading) ==>
      var last := s.scopes[s.running.value.conn].lastCompleted;
      last.Some? ==> last.value < e.observedAt
  }

  // What is queued is no newer than the last tick, and older before the last baseline.
  ghost predicate TimesOk(scope: Scope, trace: Trace) {
    trace.start <= |trace.queued| && NoNewer(trace.queued, scope.lastCompleted) && Older(trace.queued, trace.start)
  }

  predicate NoNewer(queued: seq<Delta>, last: Option<Time>) {
    forall i :: 0 <= i < |queued| ==> last.Some? && queued[i].observedAt <= last.value
  }

  predicate Older(queued: seq<Delta>, start: nat) {
    forall i, j :: 0 <= i < start <= j < |queued| ==> queued[i].observedAt < queued[j].observedAt
  }

  ghost predicate TimesInv(s: System) {
    forall c :: c in s.scopes && c in s.traces ==> TimesOk(s.scopes[c], s.traces[c])
  }

  lemma LandingKeepsTimes(scope: Scope, trace: Trace, added: seq<Delta>, observedAt: Time, current: Snapshot,
                          truncated: bool)
    requires TimesOk(scope, trace) && AllMarked(added, TickOf(scope).baseline, observedAt)
    requires scope.lastCompleted.Some? ==> scope.lastCompleted.value < observedAt
    ensures var after := Completed(scope, added, observedAt, current, truncated);
            TimesOk(after, CommitTrace(trace, TickOf(scope), added, current, after.rebaseline))
  {
  }

  lemma LandedKeepsTimes(s: System, e: Event)
    requires Inv(s) && TimesInv(s) && e.CommitTick? && Enabled(s, e) && Later(s, e)
    requires Lands(s.scopes[s.running.value.conn], s.running.value.tick, e.reading)
    ensures TimesInv(Step(s, e))
  {
    var conn := s.running.value.conn;
    var scope := s.scopes[conn];
    var tick := TickOf(scope);
    LandedStep(s, e.observedAt, e.reading, e.ids);
    PackedMarks(scope.connectionId, tick.revision, tick.baseline, e.observedAt, TickChanges(tick, e.reading.snapshot),
                e.ids);
    LandingKeepsTimes(scope, s.traces[conn], Queued(scope, tick, e.observedAt, e.reading.snapshot, e.ids),
                      e.observedAt, e.reading.snapshot, e.reading.truncated);
  }

  lemma CommitKeepsTimes(s: System, e: Event)
    requires Inv(s) && TimesInv(s) && e.CommitTick? && Enabled(s, e) && Later(s, e)
    ensures TimesInv(Step(s, e))
  {
    if Lands(s.scopes[s.running.value.conn], s.running.value.tick, e.reading) {
      LandedKeepsTimes(s, e);
    } else {
      UnlandedKeepsTimes(s, e);
    }
  }

  lemma UnlandedKeepsTimes(s: System, e: Event)
    requires TimesInv(s) && e.CommitTick? && Enabled(s, e)
    requires !Lands(s.scopes[s.running.value.conn], s.running.value.tick, e.reading)
    ensures TimesInv(Step(s, e))
  {
    var s' := Step(s, e);
    UnlandedStep(s, e.observedAt, e.reading, e.ids);
    forall c | c in s'.scopes && c in s'.traces ensures TimesOk(s'.scopes[c], s'.traces[c]) {
      assert TimesOk(s.scopes[c], s.traces[c]);
      SameTimes(s.scopes[c], s.traces[c], s'.scopes[c], s'.traces[c]);
    }
  }

  // Every other step leaves what was queued and when ticks completed alone.
  lemma OthersKeepHistory(s: System, e: Event, c: string)
    requires s.traces.Keys == s.scopes.Keys && !e.CommitTick? && Enabled(s, e)
    requires c in Step(s, e).scopes && c in Step(s, e).traces
    ensures var s' := Step(s, e);
            if c in s.scopes then
              && s'.scopes[c].lastCompleted == s.scopes[c].lastCompleted
              && s'.traces[c].queued == s.traces[c].queued
              && s'.traces[c].start == s.traces[c].start && s'.traces[c].seen == s.traces[c].seen
            else s'.traces[c].queued == [] && s'.traces[c].start == 0 && s'.traces[c].seen == []
  {
  }

  lemma SameTimes(scope: Scope, trace: Trace, scope': Scope, trace': Trace)
    requires TimesOk(scope, trace) && scope'.lastCompleted == scope.lastCompleted
    requires trace'.queued == trace.queued && trace'.start == trace.start
    ensures TimesOk(scope', trace')
  {
  }

  lemma NoTimes(scope: Scope, trace: Trace)
    requires trace.queued == [] && trace.start == 0
    ensures TimesOk(scope, trace)
  {
  }

  lemma OthersKeepTimesFor(s: System, e: Event, c: string)
    requires s.traces.Keys == s.scopes.Keys && TimesInv(s) && !e.CommitTick? && Enabled(s, e)
    requires c in Step(s, e).scopes && c in Step(s, e).traces
    ensures TimesOk(Step(s, e).scopes[c], Step(s, e).traces[c])
  {
    OthersKeepHistory(s, e, c);
    if c in s.scopes {
      assert TimesOk(s.scopes[c], s.traces[c]);
      SameTimes(s.scopes[c], s.traces[c], Step(s, e).scopes[c], Step(s, e).traces[c]);
    } else {
      NoTimes(Step(s, e).scopes[c], Step(s, e).traces[c]);
    }
  }

  lemma OthersKeepTimes(s: System, e: Event)
    requires Inv(s) && TimesInv(s) && !e.CommitTick? && Enabled(s, e)
    ensures TimesInv(Step(s, e))
  {
    forall c | c in Step(s, e).scopes && c in Step(s, e).traces
      ensures TimesOk(Step(s, e).scopes[c], Step(s, e).traces[c])
    {
      OthersKeepTimesFor(s, e, c);
    }
  }

  lemma {:induction false} RunKeepsTimes(s: System, run: seq<Event>)
    requires Inv(s) && TimesInv(s) && ValidFrom(s, run) && ClockMoves(s, run)
    ensures TimesInv(After(s, run))
    decreases |run|
  {
    if run != [] {
      if run[0].CommitTick? { CommitKeepsTimes(s, run[0]); } else { OthersKeepTimes(s, run[0]); }
      StepKeepsInv(s, run[0]);
      RunKeepsTimes(Step(s, run[0]), run[1..]);
    }
  }

  lemma {:induction false} GroupIsLast(r: Reader, deltas: seq<Delta>)
    requires deltas != []
    ensures Read(r, deltas).group == if deltas[|deltas| - 1].baseline then Some(deltas[|deltas| - 1].observedAt)
                                     else None
  {
  }

  lemma NewInstantRestarts(scope: Scope, trace: Trace, r: Reader, n: nat)
    requires TimesOk(scope, trace) && Marked(trace.queued, trace.start, n)
    requires trace.start == 0 ==> r.group != Some(trace.queued[0].observedAt)
    ensures Restarts(Read(r, trace.queued[..trace.start]), trace.queued[trace.start])
  {
    if trace.start > 0 {
      GroupIsLast(r, trace.queued[..trace.start]);
      assert trace.queued[trace.start - 1].observedAt < trace.queued[trace.start].observedAt;
    }
  }

  lemma ReaderRestarts(local: Local, clock: Time, run: seq<Event>, c: string, r: Reader)
    requires local.minimumInterval >= 0 && ValidFrom(Start(local, clock), run) && ClockMoves(Start(local, clock), run)
    requires Current(After(Start(local, clock), run), c)
    requires var queued := After(Start(local, clock), run).traces[c].queued; queued != [] ==>
                 r.group != Some(queued[0].observedAt)
    ensures var trace := After(Start(local, clock), run).traces[c];
            trace.start < |trace.queued| && Restarts(Read(r, trace.queued[..trace.start]), trace.queued[trace.start])
  {
    CurrentChain(local, clock, run, c);
    RunKeepsTimes(Start(local, clock), run);
    var s := After(Start(local, clock), run);
    assert TimesOk(s.scopes[c], s.traces[c]);
    NewInstantRestarts(s.scopes[c], s.traces[c], r, MessagesFor(|s.traces[c].seen[0]|));
  }

  /** As long as the clock moves between two ticks of a scope, a reader in any state that is
      not already reading a baseline of the very instant of the first delta ends with exactly
      the stored snapshot's objects and revisions. */
  lemma MirrorAgreesWithSnapshot(local: Local, clock: Time, run: seq<Event>, c: string, r: Reader)
    requires local.minimumInterval >= 0 && ValidFrom(Start(local, clock), run) && ClockMoves(Start(local, clock), run)
    requires Current(After(Start(local, clock), run), c)
    requires var queued := After(Start(local, clock), run).traces[c].queued; queued != [] ==>
                 r.group != Some(queued[0].observedAt)
    ensures var s := After(Start(local, clock), run);
            SameRevisions(Read(r, s.traces[c].queued).mirror, s.scopes[c].snapshot)
  {
    ReaderRestarts(local, clock, run, c, r);
    MirrorAgreesIff(local, clock, run, c, r);
  }

  // ---------------------------------------------------------------- fields

  ghost predicate SeenAll(s: System, good: Snapshot -> bool) {
    forall c, i :: c in s.traces && 0 <= i < |s.traces[c].seen| ==> good(s.traces[c].seen[i])
  }

  ghost predicate AllReadings(run: seq<Event>, good: Snapshot -> bool) {
    forall e :: e in run && e.CommitTick? && e.reading.Collected? ==> good(e.reading.snapshot)
  }

  lemma CommitKeepsSeen(s: System, e: Event, good: Snapshot -> bool)
    requires Inv(s) && Enabled(s, e) && SeenAll(s, good) && e.CommitTick?
    requires e.reading.Collected? ==> good(e.reading.snapshot)
    ensures SeenAll(Step(s, e), good)
  {
    if Lands(s.scopes[s.running.value.conn], s.running.value.tick, e.reading) {
      LandedStep(s, e.observedAt, e.reading, e.ids);
    } else {
      UnlandedStep(s, e.observedAt, e.reading, e.ids);
    }
  }

  lemma StepKeepsSeen(s: System, e: Event, good: Snapshot -> bool)
    requires Inv(s) && Enabled(s, e) && SeenAll(s, good)
    requires e.CommitTick? && e.reading.Collected? ==> good(e.reading.snapshot)
    ensures SeenAll(Step(s, e), good)
  {
    if e.CommitTick? {
      CommitKeepsSeen(s, e, good);
    } else {
      var s' := Step(s, e);
      StepKeepsInv(s, e);
      forall c | c in s'.traces ensures forall i :: 0 <= i < |s'.traces[c].seen| ==> good(s'.traces[c].seen[i]) {
        OthersKeepHistory(s, e, c);
      }
    }
  }

  // What a trace has seen is what the run read.
  lemma {:induction false} RunKeepsSeen(s: System, run: seq<Event>, good: Snapshot -> bool)
    requires Inv(s) && ValidFrom(s, run) && SeenAll(s, good) && AllReadings(run, good)
    ensures SeenAll(After(s, run), good)
    decreases |run|
  {
    if run != [] {
      StepKeepsSeen(s, run[0], good);
      StepKeepsInv(s, run[0]);
      RunKeepsSeen(Step(s, run[0]), run[1..], good);
    }
  }

  lemma CollectedChainCarriesFields(digest: string -> string, cluster: Cluster, seen: seq<Snapshot>)
    requires Plain(cluster) && NoCollision(digest, cluster) && seen != []
    requires forall i :: 0 <= i < |seen| ==> CollectedFrom(digest, cluster, seen[i])
    ensures SameContents(ReplayAll(map[], Chain(DiffOf, seen)), seen[|seen| - 1])
  {
    forall i | 0 <= i < |seen| ensures AllShort(seen[i]) { CollectedIsShort(digest, cluster, seen[i]); }
    forall i | 0 < i < |seen| ensures Faithful(seen[i - 1], seen[i]) {
      CollectedIsFaithful(digest, cluster, seen[i - 1], seen[i]);
    }
    DiffOfIsTelling();
    ChainCarriesFields(DiffOf, seen);
  }

  /** And with the stored snapshot's fields, all but the template hash, when every reading
      was collected from a cluster whose workloads the digest tells apart and whose values
      hold no NUL and fit in 512 bytes. */
  lemma MirrorAgreesOnFields(local: Local, clock: Time, run: seq<Event>, c: string, r: Reader,
                             digest: string -> string, cluster: Cluster)
    requires local.minimumInterval >= 0 && ValidFrom(Start(local, clock), run) && ClockMoves(Start(local, clock), run)
    requires Current(After(Start(local, clock), run), c)
    requires var queued := After(Start(local, clock), run).traces[c].queued; queued != [] ==>
                 r.group != Some(queued[0].observedAt)
    requires Plain(cluster) && NoCollision(digest, cluster)
    requires AllReadings(run, snapshot => CollectedFrom(digest, cluster, snapshot))
    ensures var s := After(Start(local, clock), run);
            SameContents(Read(r, s.traces[c].queued).mirror, s.scopes[c].snapshot)
  {
    var s := After(Start(local, clock), run);
    var trace := s.traces[c];
    CurrentChain(local, clock, run, c);
    ReaderRestarts(local, clock, run, c, r);
    ReadOfChain(DiffOf, r, trace.queued, trace.start, trace.seen, s.scopes[c].snapshot);
    RunKeepsSeen(Start(local, clock), run, snapshot => CollectedFrom(digest, cluster, snapshot));
    CollectedChainCarriesFields(digest, cluster, trace.seen);
  }
}
