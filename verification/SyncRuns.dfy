/** The synchronizer over every interleaving.

    A tick holds the lock twice: once to read what it will compare against, once to commit.
    Between the two, policies and acknowledgements come in.  Ticks are serial.  Beside each
    scope runs a trace of what its queue has carried, which no operation reads. */
module SyncRuns {
  import opened Wrappers
  import opened Ordering
  import opened Snapshots
  import opened Diffs
  import opened Scopes

  // `queued` are the deltas queued since the queue was last cleared, `acked` the
  // identifiers acknowledged, `start` where the last baseline begins in `queued`, `seen`
  // the snapshots from that baseline on, `under` the namespaces the last one was collected
  // under, `ticks` how often the scope came due, and `since` when its first policy came.
  datatype Trace = Trace(queued: seq<Delta>, acked: set<string>, start: nat, seen: seq<Snapshot>, under: seq<string>,
                         ticks: nat, since: Time)

  datatype Running = Running(conn: string, tick: Tick)

  datatype System = System(local: Local, scopes: map<string, Scope>, traces: map<string, Trace>,
                           due: seq<string>, running: Option<Running>, clock: Time, used: set<string>)

  function Start(local: Local, clock: Time): System {
    System(local, map[], map[], [], None, clock, {})
  }

  datatype Event =
    | ApplyPolicy(policy: Policy, now: Time)
    | Ack(conn: string, id: string)
    | RunDue(now: Time)
    | BeginTick
    | CommitTick(observedAt: Time, reading: Reading, ids: nat -> string)

  predicate IsDue(scope: Scope, now: Time) {
    scope.nextDue <= now
  }

  // Identifiers are random: never minted before, and never twice.
  ghost predicate FreshIds(ids: nat -> string, used: set<string>) {
    (forall i :: ids(i) !in used) && (forall i, j :: i != j ==> ids(i) != ids(j))
  }

  ghost predicate Enabled(s: System, e: Event) {
    match e
    case ApplyPolicy(_, now) => now >= s.clock
    case Ack(conn, id) => conn in s.scopes && IndexOf(s.scopes[conn].pending, id) < |s.scopes[conn].pending|
    case RunDue(now) => now >= s.clock && s.due == [] && s.running.None?
    case BeginTick => s.running.None? && s.due != [] && s.due[0] in s.scopes
    case CommitTick(_, _, ids) => s.running.Some? && s.running.value.conn in s.scopes && FreshIds(ids, s.used)
  }

  ghost function DueNow(scopes: map<string, Scope>, now: Time): seq<string> {
    SortedStrings(set c | c in scopes && IsDue(scopes[c], now))
  }

  function Rescheduled(scope: Scope, now: Time): Scope {
    if IsDue(scope, now) then scope.(nextDue := now + scope.interval) else scope
  }

  function Counted(scope: Scope, trace: Trace, now: Time): Trace {
    if IsDue(scope, now) then trace.(ticks := trace.ticks + 1) else trace
  }

  function CommitTrace(trace: Trace, tick: Tick, added: seq<Delta>, current: Snapshot, overflow: bool): Trace {
    if overflow then trace.(queued := [], start := 0, seen := [], under := tick.namespaces)
    else if tick.baseline then
      trace.(queued := trace.queued + added, start := |trace.queued|, seen := [current], under := tick.namespaces)
    else
      trace.(queued := trace.queued + added, seen := trace.seen + [current], under := tick.namespaces)
  }

  // The commit reaches the end: the configuration did not move and the reads succeeded.
  predicate Lands(scope: Scope, tick: Tick, reading: Reading) {
    scope.configVersion == tick.configVersion && reading.Collected?
  }

  function Ids(deltas: seq<Delta>): set<string> {
    set d | d in deltas :: d.id
  }

  ghost function Step(s: System, e: Event): System
    requires Enabled(s, e)
  {
    match e
    case ApplyPolicy(policy, now) =>
      var scopes := PolicyApplied(s.local, s.scopes, policy, now);
      var id := policy.connectionId;
      s.(scopes := scopes, clock := now,
         traces := if id in scopes && id !in s.scopes then s.traces[id := Trace([], {}, 0, [], [], 0, now)]
                   else s.traces)
    case Ack(conn, id) =>
      s.(scopes := s.scopes[conn := Acked(s.scopes[conn], id)],
         traces := if conn in s.traces then s.traces[conn := s.traces[conn].(acked := s.traces[conn].acked + {id})]
                   else s.traces)
    case RunDue(now) =>
      s.(scopes := map c | c in s.scopes :: Rescheduled(s.scopes[c], now),
         traces := map c | c in s.traces && c in s.scopes :: Counted(s.scopes[c], s.traces[c], now),
         due := DueNow(s.scopes, now), clock := now)
    case BeginTick =>
      s.(due := s.due[1..], running := Some(Running(s.due[0], TickOf(s.scopes[s.due[0]]))))
    case CommitTick(observedAt, reading, ids) =>
      var conn, tick := s.running.value.conn, s.running.value.tick;
      var scope := s.scopes[conn];
      var after := s.(running := None, scopes := s.scopes[conn := Committed(scope, tick, observedAt, reading, ids)]);
      if Lands(scope, tick, reading) && conn in s.traces then
        var added := Queued(scope, tick, observedAt, reading.snapshot, ids);
        after.(used := s.used + Ids(added),
               traces := s.traces[conn := CommitTrace(s.traces[conn], tick, added, reading.snapshot,
                                                      after.scopes[conn].rebaseline)])
      else after
  }

  ghost predicate ValidFrom(s: System, run: seq<Event>)
    decreases |run|
  {
    run == [] || (Enabled(s, run[0]) && ValidFrom(Step(s, run[0]), run[1..]))
  }

  ghost function After(s: System, run: seq<Event>): System
    requires ValidFrom(s, run)
    decreases |run|
  {
    if run == [] then s else After(Step(s, run[0]), run[1..])
  }

  // ---------------------------------------------------------------- what a queue carries

  function Live(queued: seq<Delta>, acked: set<string>): seq<Delta> {
    if queued == [] then []
    else Live(queued[..|queued| - 1], acked) + if queued[|queued| - 1].id in acked then [] else [queued[|queued| - 1]]
  }

  function Carried(deltas: seq<Delta>): seq<Change> {
    if deltas == [] then [] else deltas[0].changes + Carried(deltas[1..])
  }

  predicate DistinctIds(deltas: seq<Delta>) {
    forall i, j :: 0 <= i < j < |deltas| ==> deltas[i].id != deltas[j].id
  }

  lemma {:induction false} LiveConcat(a: seq<Delta>, b: seq<Delta>, acked: set<string>)
    ensures Live(a + b, acked) == Live(a, acked) + Live(b, acked)
    decreases |b|
  {
    if b == [] {
      assert a + b == a;
    } else {
      assert (a + b)[..|a + b| - 1] == a + b[..|b| - 1];
      LiveConcat(a, b[..|b| - 1], acked);
    }
  }

  lemma {:induction false} LiveMembers(deltas: seq<Delta>, acked: set<string>)
    ensures forall d :: d in Live(deltas, acked) <==> d in deltas && d.id !in acked
  {
    if deltas != [] {
      LiveMembers(deltas[..|deltas| - 1], acked);
      assert deltas == deltas[..|deltas| - 1] + [deltas[|deltas| - 1]];
    }
  }

  lemma {:induction false} LiveAll(deltas: seq<Delta>, acked: set<string>)
    requires forall d :: d in deltas ==> d.id !in acked
    ensures Live(deltas, acked) == deltas
  {
    if deltas != [] {
      LiveAll(deltas[..|deltas| - 1], acked);
      assert deltas == deltas[..|deltas| - 1] + [deltas[|deltas| - 1]];
    }
  }

  lemma {:induction false} LiveUnmentioned(deltas: seq<Delta>, acked: set<string>, id: string)
    requires forall d :: d in deltas ==> d.id != id
    ensures Live(deltas, acked + {id}) == Live(deltas, acked)
  {
    if deltas != [] { LiveUnmentioned(deltas[..|deltas| - 1], acked, id); }
  }

  lemma IndexInConcat(a: seq<Delta>, b: seq<Delta>, id: string)
    ensures IndexOf(a + b, id) == if IndexOf(a, id) < |a| then IndexOf(a, id) else |a| + IndexOf(b, id)
  {
    var i := IndexOf(a + b, id);
    assert i < |a| ==> (a + b)[i] == a[i];
    assert |a| <= i < |a + b| ==> (a + b)[i] == b[i - |a|];
    assert IndexOf(a, id) < |a| ==> (a + b)[IndexOf(a, id)].id == id;
    assert IndexOf(b, id) < |b| ==> (a + b)[|a| + IndexOf(b, id)].id == id;
  }

  lemma WithoutLast(live: seq<Delta>, last: Delta)
    requires forall d :: d in live ==> d.id != last.id
    ensures IndexOf(live + [last], last.id) == |live|
    ensures WithoutAt(live + [last], |live|) == live
  {
    AbsentFrom(live, last.id);
    IndexInConcat(live, [last], last.id);
  }

  lemma WithoutEarlier(live: seq<Delta>, rest: seq<Delta>, id: string)
    requires IndexOf(live + rest, id) < |live + rest| && forall d :: d in rest ==> d.id != id
    ensures IndexOf(live, id) < |live| && IndexOf(live + rest, id) == IndexOf(live, id)
    ensures WithoutAt(live + rest, IndexOf(live + rest, id)) == WithoutAt(live, IndexOf(live, id)) + rest
  {
    IndexInConcat(live, rest, id);
    AbsentFrom(rest, id);
  }

  // Acknowledging a delta takes it, and only it, out of what is still live.
  lemma {:induction false} LiveAfterAck(queued: seq<Delta>, acked: set<string>, id: string)
    requires DistinctIds(queued) && IndexOf(Live(queued, acked), id) < |Live(queued, acked)|
    ensures Live(queued, acked + {id}) == WithoutAt(Live(queued, acked), IndexOf(Live(queued, acked), id))
    decreases |queued|
  {
    var n := |queued| - 1;
    if queued[n].id == id {
      LiveMembers(queued[..n], acked);
      LiveUnmentioned(queued[..n], acked, id);
      AbsentFrom(Live(queued[..n], acked), id);
      if id !in acked { WithoutLast(Live(queued[..n], acked), queued[n]); }
    } else {
      WithoutEarlier(Live(queued[..n], acked), if queued[n].id in acked then [] else [queued[n]], id);
      LiveAfterAck(queued[..n], acked, id);
    }
  }

  lemma AbsentFrom(deltas: seq<Delta>, id: string)
    requires forall d :: d in deltas ==> d.id != id
    ensures IndexOf(deltas, id) == |deltas|
  {
    assert forall i :: 0 <= i < |deltas| ==> deltas[i] in deltas;
  }

  lemma {:induction false} CarriedConcat(a: seq<Delta>, b: seq<Delta>)
    ensures Carried(a + b) == Carried(a) + Carried(b)
    decreases |a|
  {
    if a == [] {
      assert a + b == b;
    } else {
      assert (a + b)[1..] == a[1..] + b;
      CarriedConcat(a[1..], b);
    }
  }

  lemma {:induction false} CarriedFlattens(deltas: seq<Delta>, chunks: seq<seq<Change>>)
    requires |deltas| == |chunks| && forall i :: 0 <= i < |deltas| ==> deltas[i].changes == chunks[i]
    ensures Carried(deltas) == Flatten(chunks)
    decreases |deltas|
  {
    if deltas != [] { CarriedFlattens(deltas[1..], chunks[1..]); }
  }

  /** The messages of one tick carry exactly its changes, in order. */
  lemma PackedCarries(connectionId: string, revision: nat, baseline: bool, observedAt: Time, changes: seq<Change>,
                      ids: nat -> string)
    ensures Carried(Packed(connectionId, revision, baseline, observedAt, changes, ids)) == changes
  {
    var deltas := Packed(connectionId, revision, baseline, observedAt, changes, ids);
    if changes != [] || baseline {
      ChunksConserve(changes);
      CarriedFlattens(deltas, Chunks(changes));
    }
  }

  ghost predicate AllMarked(deltas: seq<Delta>, baseline: bool, observedAt: Time) {
    forall i :: 0 <= i < |deltas| ==> deltas[i].baseline == baseline && deltas[i].observedAt == observedAt
  }

  /** They all carry its mark and its time, and a baseline is never silent. */
  lemma PackedMarks(connectionId: string, revision: nat, baseline: bool, observedAt: Time, changes: seq<Change>,
                    ids: nat -> string)
    ensures var deltas := Packed(connectionId, revision, baseline, observedAt, changes, ids);
            AllMarked(deltas, baseline, observedAt) && (baseline ==> 0 < |deltas| == MessagesFor(|changes|))
  {
    ChunksCount(changes);
  }
}
