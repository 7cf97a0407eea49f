/** The synchronizer's objects.  Every method is one critical section; a tick is the two it
    is made of, and what the cluster answered in between is an argument of the second. */
module SyncObjects {
  import opened Wrappers
  import opened Ordering
  import opened Snapshots
  import opened Diffs
  import opened Scopes
  import opened SyncRuns
  import opened Resends

  predicate Holds(scope: Scope, id: string) {
    IndexOf(scope.pending, id) < |scope.pending|
  }

  /** A scope holds an identifier if some delta it queued has it, and acknowledging it drops
      the first of those and nothing else. */
  lemma AckDropsTheFirst(scope: Scope, id: string)
    ensures Holds(scope, id) <==> exists d :: d in scope.pending && d.id == id
    ensures Holds(scope, id) ==>
              exists i :: 0 <= i < |scope.pending| && scope.pending[i].id == id
                && (forall j :: 0 <= j < i ==> scope.pending[j].id != id)
                && Acked(scope, id) == scope.(pending := scope.pending[..i] + scope.pending[i + 1..])
  {
  }

  class ScopeState {
    const connectionId: string
    var policyRevision: nat
    var interval: int
    var namespaces: seq<string>
    var configVersion: nat
    var snapshot: Snapshot
    var baselined: bool
    var rebaseline: bool
    var nextDue: Time
    var lastCompleted: Option<Time>
    var faulted: bool
    var truncated: bool
    var pending: seq<Delta>

    ghost function View(): Scope
      reads this
    {
      Scope(connectionId, policyRevision, interval, namespaces, configVersion, snapshot, baselined, rebaseline,
            nextDue, lastCompleted, faulted, truncated, pending)
    }

    constructor (connectionId: string)
      ensures View() == NewScope(connectionId) && Fresh(View(), connectionId)
      ensures configVersion == 0 && !rebaseline
    {
      this.connectionId := connectionId;
      policyRevision, interval, namespaces, configVersion := 0, 0, [], 0;
      snapshot, baselined, rebaseline := map[], false, false;
      nextDue, lastCompleted, faulted, truncated, pending := 0, None, false, false, [];
    }

    method Adopt(known: bool, revision: nat, interval: int, namespaces: seq<string>, now: Time)
      modifies this
      ensures View() == if known then Adopted(old(View()), revision, interval, namespaces, now)
                        else Reconfigured(old(View()), revision, interval, namespaces, now)
      ensures policyRevision == revision && this.interval == interval && this.namespaces == namespaces
      ensures SameButConfiguration(View(), old(View()))
      ensures rebaseline <==> old(rebaseline) || (known && old(this.namespaces) != namespaces)
      ensures if known && old(policyRevision) == revision && old(this.interval) == interval
                 && old(this.namespaces) == namespaces
              then configVersion == old(configVersion) && nextDue == old(nextDue)
              else configVersion == old(configVersion) + 1 && nextDue == now
    {
      if known && policyRevision == revision && this.interval == interval && this.namespaces == namespaces {
        return;
      }
      if known && this.namespaces != namespaces {
        rebaseline := true;
      }
      policyRevision := revision;
      this.interval := interval;
      this.namespaces := namespaces;
      configVersion := configVersion + 1;
      nextDue := now;
    }

    // Drops the first pending delta of this identifier, if there is one.
    method DropPending(id: string) returns (found: bool)
      modifies this
      ensures found <==> Holds(old(View()), id)
      ensures View() == if found then Acked(old(View()), id) else old(View())
    {
      var i := 0;
      while i < |pending|
        invariant i <= |pending| && forall j :: 0 <= j < i ==> pending[j].id != id
      {
        if pending[i].id == id {
          pending := pending[..i] + pending[i + 1..];
          return true;
        }
        i := i + 1;
      }
      return false;
    }

    method TakeIfDue(now: Time) returns (due: bool)
      modifies this
      ensures due == IsDue(old(View()), now) && View() == Rescheduled(old(View()), now)
      ensures due <==> old(nextDue) <= now
      ensures View() == old(View()).(nextDue := if old(nextDue) <= now then now + interval else old(nextDue))
    {
      due := nextDue <= now;
      if due {
        nextDue := now + interval;
      }
    }

    method BeginTick() returns (tick: Tick)
      ensures tick == TickOf(View())
      ensures tick.namespaces == namespaces && tick.configVersion == configVersion && tick.previous == snapshot
      ensures tick.revision == policyRevision && (tick.baseline <==> !baselined || rebaseline)
    {
      tick := Tick(namespaces, configVersion, snapshot, !baselined || rebaseline, policyRevision);
    }

    // The locked end of a successful tick: queue what it produced, or clear the queue and
    // owe a baseline when that is too much.
    method Land(deltas: seq<Delta>, observedAt: Time, current: Snapshot, cut: bool)
      modifies this
      ensures View() == Completed(old(View()), deltas, observedAt, current, cut)
      ensures if |old(pending)| + |deltas| > 64 then pending == [] && rebaseline
              else pending == old(pending) + deltas && !rebaseline
      ensures snapshot == current && baselined && !faulted && truncated == cut && lastCompleted == Some(observedAt)
      ensures SameConfiguration(View(), old(View()))
    {
      pending := pending + deltas;
      if |pending| > MAX_PENDING_DELTAS {
        pending := [];
        rebaseline := true;
      } else {
        rebaseline := false;
      }
      snapshot := current;
      baselined := true;
      faulted := false;
      truncated := cut;
      lastCompleted := Some(observedAt);
    }

    method CommitTick(tick: Tick, observedAt: Time, reading: Reading, ids: nat -> string)
      modifies this
      ensures View() == Committed(old(View()), tick, observedAt, reading, ids)
      ensures old(configVersion) != tick.configVersion ==> View() == old(View())
      ensures old(configVersion) == tick.configVersion && reading.Faulted? ==>
                View() == old(View()).(faulted := true)
      ensures old(configVersion) == tick.configVersion && reading.Collected? ==>
                && snapshot == reading.snapshot && baselined && !faulted && truncated == reading.truncated
                && lastCompleted == Some(observedAt) && SameConfiguration(View(), old(View()))
                && var deltas := Queued(old(View()), tick, observedAt, reading.snapshot, ids);
                   if |old(pending)| + |deltas| > 64 then pending == [] && rebaseline
                   else pending == old(pending) + deltas && !rebaseline
    {
      if configVersion != tick.configVersion {
        return;
      }
      match reading
      case Faulted =>
        faulted := true;
      case Collected(current, cut) =>
        var changes := ListChanges(tick, current);
        var deltas := PackDeltas(connectionId, tick.revision, tick.baseline, observedAt, changes, ids);
        Land(deltas, observedAt, current, cut);
    }
  }

  method ListChanges(tick: Tick, current: Snapshot) returns (changes: seq<Change>)
    ensures changes == TickChanges(tick, current)
  {
    if tick.baseline {
      changes := Baseline(current);
    } else {
      changes := Diff(tick.previous, current);
    }
  }

  // The scope's connection, if it is due.
  function IfDue(scopes: map<string, Scope>, now: Time): string -> seq<string> {
    (id: string) => if id in scopes && IsDue(scopes[id], now) then [id] else []
  }

  lemma DueInOrderIsDueNow(scopes: map<string, Scope>, names: set<string>, now: Time)
    requires forall id :: id in names <==> id in scopes
    ensures Collect(IfDue(scopes, now), SortedStrings(names)) == DueNow(scopes, now)
    ensures forall c :: c in DueNow(scopes, now) <==> c in scopes && IsDue(scopes[c], now)
  {
    var ids := SortedStrings(names);
    SortedStringsAscend(names);
    StringLessIsTotal();
    FilterOfSorted(IfDue(scopes, now), ids, set c | c in scopes && IsDue(scopes[c], now));
  }

  lemma FilterOfSorted(keep: string -> seq<string>, ids: seq<string>, kept: set<string>)
    requires StrictTotal(StringLess) && Ascending(StringLess, ids)
    requires forall id :: keep(id) == if id in kept then [id] else []
    requires forall id :: id in kept ==> id in ids
    ensures Collect(keep, ids) == SortedStrings(kept)
  {
    CollectIsExact(keep, id => id, StringLess, ids);
    var items := Collect(keep, ids);
    forall x ensures x in items <==> x in kept {
      if x in items {
        var i :| 0 <= i < |items| && items[i] == x;
        assert keep(x) == [x];
      }
      if x in kept { assert keep(x)[0] in items; }
    }
    SortedIsTheAscending(StringLess, items, kept);
  }

  lemma SortedNamesDiffer(names: set<string>)
    ensures var ids := SortedStrings(names); forall i, j :: 0 <= i < j < |ids| ==> ids[i] != ids[j]
  {
    SortedStringsAscend(names);
    StringLessIsTotal();
  }

  class Synchronizer {
    const local: Local
    var scopes: map<string, ScopeState>

    ghost predicate Valid()
      reads this
    {
      forall a, b :: a in scopes && b in scopes && a != b ==> scopes[a] != scopes[b]
    }

    ghost function View(): map<string, Scope>
      reads this, scopes.Values
    {
      map id | id in scopes :: scopes[id].View()
    }

    constructor (local: Local)
      ensures Valid() && this.local == local && View() == map[]
    {
      this.local := local;
      scopes := map[];
    }

    // What a tick actually lists, resolved against every local constraint.
    method ResolveNamespaces(requested: seq<string>) returns (effective: seq<string>)
      ensures effective == EffectiveNamespaces(local, requested)
    {
      if |requested| > 0 {
        effective := [];
        var i := 0;
        while i < |requested|
          invariant i <= |requested| && effective == Filtered(local, requested[..i])
        {
          assert requested[..i + 1][..i] == requested[..i];
          if NamespaceAllowed(local, requested[i]) {
            effective := effective + [requested[i]];
          }
          i := i + 1;
        }
        assert requested[..i] == requested;
        return SortStable(StringLess, effective);
      }
      if local.namespaces.Some? {
        effective := SortNames(set n | n in local.namespaces.value && Within(local.allowed, n));
        return;
      }
      if local.allowed.Some? {
        effective := SortNames(local.allowed.value);
        return;
      }
      return [""];
    }

    // Only the scope of this connection moved.
    twostate lemma OneMoved(id: string)
      requires scopes == old(scopes) && id in scopes
      requires forall c :: c in scopes && c != id ==> scopes[c].View() == old(scopes[c].View())
      ensures View() == old(View())[id := scopes[id].View()]
    {
    }

    method AdoptAt(id: string, revision: nat, interval: int, namespaces: seq<string>, now: Time)
      requires Valid()
      modifies this, scopes.Values
      ensures Valid()
      ensures var before := old(View());
              View() == before[id := if id in before then Adopted(before[id], revision, interval, namespaces, now)
                                     else Reconfigured(NewScope(id), revision, interval, namespaces, now)]
    {
      if id in scopes {
        scopes[id].Adopt(true, revision, interval, namespaces, now);
        OneMoved(id);
      } else {
        var scope := new ScopeState(id);
        scope.Adopt(false, revision, interval, namespaces, now);
        scopes := scopes[id := scope];
      }
    }

    method ApplyPolicy(policy: Policy, now: Time)
      requires Valid()
      modifies this, scopes.Values
      ensures Valid() && View() == PolicyApplied(local, old(View()), policy, now)
    {
      if !local.enabled || policy.connectionId == "" {
        return;
      }
      var namespaces := ResolveNamespaces(policy.namespaces);
      var interval := policy.requestedInterval;
      if interval < local.minimumInterval {
        interval := local.minimumInterval;
      }
      AdoptAt(policy.connectionId, policy.revision, interval, namespaces, now);
    }

    // The scopes are searched in no particular order; at most one delta is dropped, and
    // `conn` is the scope that held it.
    method Ack(id: string) returns (ghost conn: Option<string>)
      requires Valid()
      modifies scopes.Values
      ensures Valid()
      ensures conn.None? ==> View() == old(View()) && forall c :: c in View() ==> !Holds(View()[c], id)
      ensures conn.Some? ==> conn.value in old(View()) && Holds(old(View())[conn.value], id)
      ensures conn.Some? ==> View() == old(View())[conn.value := Acked(old(View())[conn.value], id)]
    {
      var left := scopes.Keys;
      conn := None;
      while left != {}
        invariant left <= scopes.Keys
        invariant forall c :: c in scopes ==> scopes[c].View() == old(scopes[c].View())
        invariant forall c :: c in scopes && c !in left ==> !Holds(scopes[c].View(), id)
        decreases left
      {
        var c :| c in left;
        var found := scopes[c].DropPending(id);
        if found {
          conn := Some(c);
          OneMoved(c);
          return;
        }
        left := left - {c};
      }
    }

    method PendingEach(ids: seq<string>, ghost queue: string -> seq<Delta>) returns (pending: seq<Delta>)
      requires (forall c :: c in ids <==> c in scopes) && forall c :: c in scopes ==> queue(c) == scopes[c].pending
      ensures InSlices(pending, queue, ids)
      ensures forall d :: d in pending <==> exists c :: c in scopes && d in scopes[c].pending
    {
      pending := [];
      var i := 0;
      while i < |ids|
        invariant i <= |ids| && InSlices(pending, queue, ids[..i])
      {
        OneSliceMore(pending, queue, ids[..i], ids[i]);
        assert ids[..i] + [ids[i]] == ids[..i + 1];
        pending := pending + scopes[ids[i]].pending;
        i := i + 1;
      }
      assert ids[..i] == ids;
      SlicesAreQueues(pending, queue, ids);
    }

    lemma SlicesAreQueues(pending: seq<Delta>, queue: string -> seq<Delta>, ids: seq<string>)
      requires (forall c :: c in ids <==> c in scopes) && forall c :: c in scopes ==> queue(c) == scopes[c].pending
      requires InSlices(pending, queue, ids)
      ensures forall d :: d in pending <==> exists c :: c in scopes && d in scopes[c].pending
    {
      forall d ensures d in pending <==> exists c :: c in scopes && d in scopes[c].pending {
        SlicesHold(pending, queue, ids, d);
        InSomeScope(queue, ids, d);
      }
    }

    /** Everything queued and not acknowledged: each scope's queue whole and in its order, one
        right behind the other, the scopes in the order of their identifiers. */
    method Pending() returns (pending: seq<Delta>, ghost queue: string -> seq<Delta>, ghost order: seq<string>)
      ensures forall d :: d in pending <==> exists c :: c in scopes && d in scopes[c].pending
      ensures forall c :: c in order <==> c in scopes
      ensures forall i, j :: 0 <= i < j < |order| ==> StringLess(order[i], order[j])
      ensures forall c :: c in scopes ==> queue(c) == scopes[c].pending
      ensures InSlices(pending, queue, order)
    {
      var ids := SortNames(scopes.Keys);
      SortedStringsAscend(scopes.Keys);
      order, queue := ids, QueueOf();
      pending := PendingEach(ids, queue);
    }

    // What each scope has queued.
    ghost function QueueOf(): (queue: string -> seq<Delta>)
      reads this, scopes.Values
      ensures forall c :: c in scopes ==> queue(c) == scopes[c].pending
    {
      PendingIn(View())
    }

    lemma InSomeScope(queue: string -> seq<Delta>, ids: seq<string>, d: Delta)
      requires forall c :: c in ids <==> c in scopes
      requires forall c :: c in scopes ==> queue(c) == scopes[c].pending
      ensures InSome(queue, ids, d) <==> exists c :: c in scopes && d in scopes[c].pending
    {
      if c :| c in scopes && d in scopes[c].pending {
        var i :| 0 <= i < |ids| && ids[i] == c;
        assert d in queue(ids[i]);
      }
      if i :| 0 <= i < |ids| && d in queue(ids[i]) { assert ids[i] in ids; }
    }

    twostate lemma AllRescheduled(now: Time)
      requires scopes == old(scopes)
      requires forall c :: c in scopes ==> scopes[c].View() == Rescheduled(old(scopes[c].View()), now)
      ensures View() == map c | c in old(View()) :: Rescheduled(old(View())[c], now)
    {
    }

    // The scope is as this sweep leaves it, or as it was when the sweep has not reached it.
    twostate predicate Reached(c: string, done: bool, now: Time)
      requires c in scopes && c in old(scopes) && scopes[c] == old(scopes[c])
      reads this, scopes[c]
    {
      scopes[c].View() == if done then Rescheduled(old(scopes[c].View()), now) else old(scopes[c].View())
    }

    method TakeEach(ids: seq<string>, now: Time, ghost ifDue: string -> seq<string>) returns (due: seq<string>)
      requires Valid() && (forall id :: id in ids <==> id in scopes)
      requires forall i, j :: 0 <= i < j < |ids| ==> ids[i] != ids[j]
      requires forall c :: c in scopes ==> ifDue(c) == if IsDue(scopes[c].View(), now) then [c] else []
      modifies scopes.Values
      ensures forall c :: c in scopes ==> scopes[c].View() == Rescheduled(old(scopes[c].View()), now)
      ensures due == Collect(ifDue, ids)
    {
      due := [];
      ghost var done: set<string> := {};
      var i := 0;
      while i < |ids|
        invariant i <= |ids|
        invariant forall j :: 0 <= j < |ids| ==> (ids[j] in done <==> j < i)
        invariant forall c :: c in scopes ==> Reached(c, c in done, now)
        invariant due == Collect(ifDue, ids[..i])
      {
        CollectStep(ifDue, ids, i);
        assert Reached(ids[i], false, now);
        var taken := scopes[ids[i]].TakeIfDue(now);
        due := due + if taken then [ids[i]] else [];
        done := done + {ids[i]};
        i := i + 1;
      }
      assert ids[..i] == ids;
      forall c | c in scopes ensures scopes[c].View() == Rescheduled(old(scopes[c].View()), now) {
        var j :| 0 <= j < |ids| && ids[j] == c;
        assert Reached(c, c in done, now);
      }
    }

    // The locked half of RunDue: which scopes are due, each rescheduled as it is taken.
    method TakeDue(now: Time) returns (due: seq<string>)
      requires Valid()
      modifies scopes.Values
      ensures Valid()
      ensures View() == map c | c in old(View()) :: Rescheduled(old(View())[c], now)
      ensures due == DueNow(old(View()), now)
      ensures forall c :: c in due <==> c in scopes && old(scopes[c].nextDue) <= now
      ensures forall i, j :: 0 <= i < j < |due| ==> StringLess(due[i], due[j])
      ensures forall c :: c in scopes ==>
                && (c in due ==> scopes[c].nextDue == now + scopes[c].interval)
                && scopes[c].View() == old(scopes[c].View()).(nextDue := scopes[c].nextDue)
                && (c !in due ==> scopes[c].nextDue == old(scopes[c].nextDue))
    {
      ghost var before := View();
      ghost var ifDue := IfDue(before, now);
      var ids := SortNames(scopes.Keys);
      SortedNamesDiffer(scopes.Keys);
      DueInOrderIsDueNow(before, scopes.Keys, now);
      due := TakeEach(ids, now, ifDue);
      AllRescheduled(now);
      SortedStringsAscend(set c | c in before && IsDue(before[c], now));
      assert before == old(View()) && due == DueNow(before, now);
    }
  }
}
