/** What the moving clock is for: two baselines of one scope observed at one instant. */
module OneInstant {
  import opened Wrappers
  import opened Snapshots
  import opened Diffs
  import opened Replay
  import opened Readers
  import opened Scopes
  import opened SyncRuns
  import opened MirrorTheorems
  import opened Rounds

  // Two policies for one connection, the one object its first tick sees (its second sees
  // none), when, and the identifiers each tick mints.
  datatype Scene = Scene(local: Local, p: Policy, q: Policy, key: ObjectKey, state: ObjectState, clock: Time, at: Time,
                         first: nat -> string, second: nat -> string)
  {
    function Conn(): string { p.connectionId }

    function Begin(): System { Start(local, clock) }

    function Seen(): Snapshot { map[key := state] }

    ghost function First(): seq<Delta> { Messages(Conn(), p.revision, at, Seen(), first) }

    ghost function Second(): seq<Delta> { Messages(Conn(), q.revision, at, map[], second) }

    // The policies draw the boundary differently, and no identifier is minted twice.
    ghost predicate Valid() {
      && local.enabled && local.minimumInterval >= 0 && p.connectionId == q.connectionId != ""
      && EffectiveNamespaces(local, p.namespaces) != EffectiveNamespaces(local, q.namespaces)
      && FreshIds(first, {}) && FreshIds(second, {}) && forall i, j :: first(i) != second(j)
    }
  }

  // ---------------------------------------------------------------- the run

  ghost predicate AfterFirst(x: Scene, s: System) {
    var c := x.Conn();
    && Quiet(s, c) && c in s.scopes && s.local == x.local && s.clock == x.clock
    && s.scopes[c].namespaces == EffectiveNamespaces(x.local, x.p.namespaces)
    && s.traces[c].queued == s.scopes[c].pending == x.First() && |x.First()| == 1 && FreshIds(x.second, s.used)
  }

  // After both, nothing is owed and both baselines are queued.
  ghost predicate AfterBoth(x: Scene, s: System) {
    var c := x.Conn();
    && Current(s, c) && s.scopes[c].snapshot == map[]
    && s.traces[c].queued == x.First() + x.Second() && s.traces[c].start == |x.First()|
  }

  lemma FirstIsOneMessage(x: Scene)
    requires x.Valid()
    ensures |x.First()| == 1 && x.First()[0].id == x.first(0)
  {
    BaselineListsEverything(x.Seen());
    PackedMarks(x.Conn(), x.p.revision, true, x.at, BaselineOf(x.Seen()), x.first);
  }

  lemma SecondStaysFresh(x: Scene)
    requires x.Valid()
    ensures FreshIds(x.second, {} + Ids(x.First()))
  {
    FirstIsOneMessage(x);
    assert forall id :: id in Ids(x.First()) ==> id == x.first(0);
  }

  lemma FirstIsQueued(x: Scene, s: System, scope: Scope)
    requires x.Valid() && Owes(scope, x.Conn(), x.p.revision, EffectiveNamespaces(x.local, x.p.namespaces), [])
    requires s.local == x.local && s.clock == x.clock && s.due == [] && s.running.None?
    requires s.scopes.Keys == s.traces.Keys == {x.Conn()} && s.used == {} + Ids(x.First())
    requires s.scopes[x.Conn()].connectionId == x.Conn() && s.scopes[x.Conn()].namespaces == scope.namespaces
    requires s.scopes[x.Conn()].pending == s.traces[x.Conn()].queued == [] + x.First()
    ensures AfterFirst(x, s)
  {
    FirstIsOneMessage(x);
    SecondStaysFresh(x);
    assert [] + x.First() == x.First();
  }

  lemma FirstLanded(x: Scene, scope: Scope, trace: Trace, s: System)
    requires x.Valid() && trace.queued == []
    requires Owes(scope, x.Conn(), x.p.revision, EffectiveNamespaces(x.local, x.p.namespaces), [])
    requires s == Landed(x.local, x.Conn(), scope, trace, x.clock, {}, x.at, Collected(x.Seen(), false), x.first)
    ensures AfterFirst(x, s)
  {
    LandedWithRoom(x.local, x.Conn(), scope, trace, x.clock, {}, x.at, Collected(x.Seen(), false), x.first);
    FirstIsQueued(x, s, scope);
  }

  lemma FirstRound(x: Scene) returns (run: seq<Event>)
    requires x.Valid()
    ensures ValidFrom(x.Begin(), run) && AfterFirst(x, After(x.Begin(), run))
  {
    var scope, trace;
    run, scope, trace := RoundRuns(x.Begin(), x.p, x.clock, x.at, Collected(x.Seen(), false), x.first);
    FirstLanded(x, scope, trace, After(x.Begin(), run));
  }

  lemma SecondRound(x: Scene, s: System) returns (run: seq<Event>)
    requires x.Valid() && AfterFirst(x, s)
    ensures ValidFrom(s, run) && AfterBoth(x, After(s, run))
  {
    var scope, trace;
    run, scope, trace := RoundRuns(s, x.q, x.clock, x.at, Collected(map[], false), x.second);
    LandedWithRoom(x.local, x.Conn(), scope, trace, x.clock, s.used, x.at, Collected(map[], false), x.second);
  }

  lemma TwoRounds(x: Scene) returns (run: seq<Event>)
    requires x.Valid()
    ensures ValidFrom(x.Begin(), run) && AfterBoth(x, After(x.Begin(), run))
  {
    var first := FirstRound(x);
    var second := SecondRound(x, After(x.Begin(), first));
    run := first + second;
    RunsJoin(x.Begin(), first, second);
  }

  // ---------------------------------------------------------------- its readers

  lemma BaselineBrings(mirror: Snapshot, snapshot: Snapshot, key: ObjectKey)
    requires key in snapshot
    ensures key in ReplayAll(mirror, BaselineOf(snapshot))
  {
    BaselineIsDiffFromNothing(snapshot);
    DiffIsExact(map[], snapshot);
    DiffAtKey(mirror, BaselineOf(snapshot), map[], snapshot, key);
  }

  // A reader that has read the one baseline does not start over at the other, and nothing
  // tells it to drop the object.
  lemma ReaderKeepsTheObject(x: Scene, r: Reader)
    ensures var a, b := x.First(), x.Second();
            && a != [] && b != [] && x.key in Read(r, a).mirror && !Restarts(Read(r, a), b[0])
            && !Mentions(Carried(b), x.key)
  {
    PackedMarks(x.Conn(), x.p.revision, true, x.at, BaselineOf(x.Seen()), x.first);
    PackedMarks(x.Conn(), x.q.revision, true, x.at, BaselineOf(map[]), x.second);
    PackedCarries(x.Conn(), x.p.revision, true, x.at, BaselineOf(x.Seen()), x.first);
    PackedCarries(x.Conn(), x.q.revision, true, x.at, BaselineOf(map[]), x.second);
    BaselineListsEverything(map[]);
    ReadOfBaseline(r, x.First(), |x.First()|);
    BaselineBrings(if Restarts(r, x.First()[0]) then map[] else r.mirror, x.Seen(), x.key);
  }

  lemma ReaderDisagrees(x: Scene, run: seq<Event>, r: Reader)
    requires x.Valid() && ValidFrom(x.Begin(), run) && AfterBoth(x, After(x.Begin(), run))
    ensures var s := After(x.Begin(), run);
            !SameRevisions(Read(r, s.traces[x.Conn()].queued).mirror, s.scopes[x.Conn()].snapshot)
  {
    var a, b := x.First(), x.Second();
    MirrorAgreesIff(x.local, x.clock, run, x.Conn(), r);
    ReaderKeepsTheObject(x, r);
    assert (a + b)[..|a|] == a && (a + b)[|a|..] == b && (a + b)[|a|] == b[0];
  }

  /** Two baselines of one scope observed at one instant are read as one.  Any two policies
      that draw the boundary differently make the synchronizer queue them, one tick after each;
      then nothing is owed, and yet every reader of all that was queued still has an object
      that the stored snapshot has not.  What fails is the clock. */
  lemma OneInstantMergesBaselines(x: Scene) returns (run: seq<Event>)
    requires x.Valid()
    ensures ValidFrom(x.Begin(), run) && !ClockMoves(x.Begin(), run)
    ensures var s, c := After(x.Begin(), run), x.Conn();
            && Current(s, c) && x.key !in s.scopes[c].snapshot
            && forall r: Reader :: !SameRevisions(Read(r, s.traces[c].queued).mirror, s.scopes[c].snapshot)
  {
    run := TwoRounds(x);
    var s, c := After(x.Begin(), run), x.Conn();
    forall r: Reader ensures !SameRevisions(Read(r, s.traces[c].queued).mirror, s.scopes[c].snapshot) {
      ReaderDisagrees(x, run, r);
    }
    if ClockMoves(x.Begin(), run) { MirrorAgreesWithSnapshot(x.local, x.clock, run, c, Reader(map[], None)); }
  }
}
