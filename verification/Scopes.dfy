/** One scope's synchronization state, and what each critical section does to it. */
module Scopes {
  import opened Wrappers
  import opened Ordering
  import opened Snapshots
  import opened Diffs

  type Time = int

  const MAX_CHANGES_PER_DELTA := 512
  const MAX_PENDING_DELTAS := 64

  datatype Delta = Delta(id: string, connectionId: string, policyRevision: nat, baseline: bool, observedAt: Time,
                         changes: seq<Change>)

  datatype Policy = Policy(connectionId: string, revision: nat, requestedInterval: int, namespaces: seq<string>)

  // The operator's constraints: `namespaces` absent means not narrowed here, and
  // `allowed` is the process-wide allowlist.
  datatype Local = Local(enabled: bool, namespaces: Option<set<string>>, minimumInterval: int,
                         allowed: Option<set<string>>)

  datatype Scope = Scope(
    connectionId: string, policyRevision: nat, interval: int, namespaces: seq<string>, configVersion: nat,
    snapshot: Snapshot, baselined: bool, rebaseline: bool, nextDue: Time, lastCompleted: Option<Time>,
    faulted: bool, truncated: bool, pending: seq<Delta>)

  function NewScope(connectionId: string): Scope {
    Scope(connectionId, 0, 0, [], 0, map[], false, false, 0, None, false, false, [])
  }

  // ---------------------------------------------------------------- which namespaces

  predicate Within(constraint: Option<set<string>>, namespace: string) {
    constraint.None? || namespace in constraint.value
  }

  predicate NamespaceAllowed(local: Local, namespace: string) {
    Within(local.namespaces, namespace) && Within(local.allowed, namespace)
  }

  function Filtered(local: Local, requested: seq<string>): seq<string> {
    if requested == [] then []
    else
      var namespace := requested[|requested| - 1];
      Filtered(local, requested[..|requested| - 1]) + if NamespaceAllowed(local, namespace) then [namespace] else []
  }

  ghost function EffectiveNamespaces(local: Local, requested: seq<string>): seq<string> {
    if requested != [] then SortStable(StringLess, Filtered(local, requested))
    else if local.namespaces.Some? then SortedStrings(set n | n in local.namespaces.value && Within(local.allowed, n))
    else if local.allowed.Some? then SortedStrings(local.allowed.value)
    else [""]
  }

  lemma {:induction false} FilteredKeepsAllowed(local: Local, requested: seq<string>)
    ensures forall n :: multiset(Filtered(local, requested))[n]
                == if NamespaceAllowed(local, n) then multiset(requested)[n] else 0
  {
    if requested != [] {
      FilteredKeepsAllowed(local, requested[..|requested| - 1]);
      assert requested == requested[..|requested| - 1] + [requested[|requested| - 1]];
    }
  }

  lemma RequestedAreFiltered(local: Local, requested: seq<string>)
    requires requested != []
    ensures var effective := EffectiveNamespaces(local, requested);
            && (forall n :: multiset(effective)[n] == if NamespaceAllowed(local, n) then multiset(requested)[n] else 0)
            && (forall n :: n in effective <==> n in requested && NamespaceAllowed(local, n))
  {
    FilteredKeepsAllowed(local, requested);
    var effective := EffectiveNamespaces(local, requested);
    forall n ensures n in effective <==> n in requested && NamespaceAllowed(local, n) {
      assert n in effective <==> n in multiset(effective);
      assert n in requested <==> n in multiset(requested);
    }
  }

  lemma UnrequestedAreLocal(local: Local)
    requires local.namespaces.Some? || local.allowed.Some?
    ensures forall n :: n in EffectiveNamespaces(local, []) <==> NamespaceAllowed(local, n)
  {
  }

  lemma EffectiveNamespacesAscend(local: Local, requested: seq<string>)
    ensures var effective := EffectiveNamespaces(local, requested);
            NonDescending(StringLess, effective)
  {
    if requested != [] {
      StringsNeverDescend(Filtered(local, requested));
    } else if local.namespaces.Some? {
      NamesNeverDescend(set n | n in local.namespaces.value && Within(local.allowed, n));
    } else if local.allowed.Some? {
      NamesNeverDescend(local.allowed.value);
    }
  }

  /** Local configuration only narrows: a namespace is listed exactly when it was asked for
      (or nothing specific was) and every local constraint admits it.  The one exception is
      the cluster-wide list, taken only when nothing is restricted on either side. */
  lemma EffectiveNamespacesOnlyNarrow(local: Local, requested: seq<string>)
    ensures var effective := EffectiveNamespaces(local, requested);
            if requested == [] && local.namespaces.None? && local.allowed.None? then effective == [""]
            else forall n :: n in effective <==>
                   && (requested != [] ==> n in requested)
                   && (local.namespaces.Some? ==> n in local.namespaces.value)
                   && (local.allowed.Some? ==> n in local.allowed.value)
    ensures var effective := EffectiveNamespaces(local, requested);
            forall i, j :: 0 <= i < j < |effective| ==> !StringLess(effective[j], effective[i])
    ensures var effective := EffectiveNamespaces(local, requested);
            requested != [] ==> forall n :: n in effective ==> multiset(effective)[n] == multiset(requested)[n]
  {
    EffectiveNamespacesAscend(local, requested);
    if requested != [] {
      RequestedAreFiltered(local, requested);
    } else if local.namespaces.Some? || local.allowed.Some? {
      UnrequestedAreLocal(local);
    }
  }

  // ---------------------------------------------------------------- adopting a policy

  function FlooredInterval(local: Local, requested: int): int {
    if requested < local.minimumInterval then local.minimumInterval else requested
  }

  // What a policy says of its scope, as these local constraints let it.
  ghost predicate Follows(local: Local, scope: Scope, policy: Policy) {
    && scope.policyRevision == policy.revision
    && scope.interval >= policy.requestedInterval && scope.interval >= local.minimumInterval
    && scope.interval in {policy.requestedInterval, local.minimumInterval}
    && scope.namespaces == EffectiveNamespaces(local, policy.namespaces)
  }

  // The configuration of the one, and all else of the other.
  predicate SameButConfiguration(after: Scope, before: Scope) {
    && after.connectionId == before.connectionId && after.snapshot == before.snapshot
    && after.baselined == before.baselined && after.lastCompleted == before.lastCompleted
    && after.faulted == before.faulted && after.truncated == before.truncated && after.pending == before.pending
  }

  predicate SameConfiguration(after: Scope, before: Scope) {
    && after.connectionId == before.connectionId && after.policyRevision == before.policyRevision
    && after.interval == before.interval && after.namespaces == before.namespaces
    && after.configVersion == before.configVersion && after.nextDue == before.nextDue
  }

  // Nothing observed, nothing queued, and so a baseline owed.
  predicate Fresh(scope: Scope, id: string) {
    && scope.connectionId == id && scope.snapshot == map[] && !scope.baselined && scope.pending == []
    && scope.lastCompleted.None? && !scope.faulted && !scope.truncated
  }

  /** A scope follows the last policy applied to it.  One it already followed changes nothing;
      any other makes it due at once and voids the ticks under way, and a change of its
      namespaces makes it owe a baseline.  What it observed and what it queued stay. */
  lemma PolicyTakesHold(local: Local, scopes: map<string, Scope>, policy: Policy, now: Time)
    ensures var after, id := PolicyApplied(local, scopes, policy, now), policy.connectionId;
            && (!local.enabled || id == "" ==> after == scopes)
            && (forall c :: c in scopes && c != id ==> c in after && after[c] == scopes[c])
            && (forall c :: c in after && c != id ==> c in scopes)
            && (local.enabled && id != "" ==> id in after && Follows(local, after[id], policy))
            && (local.enabled && id != "" && id in scopes ==>
                  && SameButConfiguration(after[id], scopes[id])
                  && (after[id].rebaseline <==>
                        scopes[id].rebaseline || scopes[id].namespaces != after[id].namespaces)
                  && if Follows(local, scopes[id], policy) then after[id] == scopes[id]
                     else after[id].configVersion > scopes[id].configVersion && after[id].nextDue == now)
            && (local.enabled && id != "" && id !in scopes ==> Fresh(after[id], id) && after[id].nextDue == now)
  {
    var id := policy.connectionId;
    if local.enabled && id != "" {
      var namespaces := EffectiveNamespaces(local, policy.namespaces);
      var interval := FlooredInterval(local, policy.requestedInterval);
      if id in scopes {
        AdoptedFollows(local, scopes[id], policy, interval, namespaces, now);
      }
    }
  }

  lemma AdoptedFollows(local: Local, scope: Scope, policy: Policy, interval: int, namespaces: seq<string>, now: Time)
    requires namespaces == EffectiveNamespaces(local, policy.namespaces)
    requires interval == FlooredInterval(local, policy.requestedInterval)
    ensures var after := Adopted(scope, policy.revision, interval, namespaces, now);
            && Follows(local, after, policy) && SameButConfiguration(after, scope)
            && (after.rebaseline <==> scope.rebaseline || scope.namespaces != after.namespaces)
            && if Follows(local, scope, policy) then after == scope
               else after.configVersion > scope.configVersion && after.nextDue == now
  {
  }

  // A known scope under a policy that resolves to these namespaces and this interval.
  function Adopted(scope: Scope, revision: nat, interval: int, namespaces: seq<string>, now: Time): Scope {
    if scope.policyRevision == revision && scope.interval == interval && scope.namespaces == namespaces then scope
    else Reconfigured(scope.(rebaseline := scope.rebaseline || scope.namespaces != namespaces), revision, interval,
                      namespaces, now)
  }

  function Reconfigured(scope: Scope, revision: nat, interval: int, namespaces: seq<string>, now: Time): Scope {
    scope.(policyRevision := revision, interval := interval, namespaces := namespaces,
           configVersion := scope.configVersion + 1, nextDue := now)
  }

  ghost function PolicyApplied(local: Local, scopes: map<string, Scope>, policy: Policy, now: Time): map<string, Scope>
  {
    if !local.enabled || policy.connectionId == "" then scopes
    else
      var id := policy.connectionId;
      var namespaces := EffectiveNamespaces(local, policy.namespaces);
      var interval := FlooredInterval(local, policy.requestedInterval);
      scopes[id := if id in scopes then Adopted(scopes[id], policy.revision, interval, namespaces, now)
                   else Reconfigured(NewScope(id), policy.revision, interval, namespaces, now)]
  }

  /** Re-sending an unchanged policy changes no state at all, whenever it arrives. */
  lemma UnchangedPolicyChangesNothing(local: Local, scopes: map<string, Scope>, policy: Policy, now: Time, later: Time)
    ensures var adopted := PolicyApplied(local, scopes, policy, now);
            PolicyApplied(local, adopted, policy, later) == adopted
  {
    var id := policy.connectionId;
    var adopted := PolicyApplied(local, scopes, policy, now);
    var again := PolicyApplied(local, adopted, policy, later);
    if local.enabled && id != "" {
      assert again == adopted[id := again[id]];
      assert again[id] == adopted[id];
    }
  }

  // ---------------------------------------------------------------- packing changes

  function Chunks(changes: seq<Change>): (r: seq<seq<Change>>)
    ensures |r| >= 1
    decreases |changes|
  {
    if |changes| <= MAX_CHANGES_PER_DELTA then [changes]
    else [changes[..MAX_CHANGES_PER_DELTA]] + Chunks(changes[MAX_CHANGES_PER_DELTA..])
  }

  function Flatten(chunks: seq<seq<Change>>): seq<Change> {
    if chunks == [] then [] else chunks[0] + Flatten(chunks[1..])
  }

  /** Nothing is lost, repeated or reordered by chunking, and every chunk fits. */
  lemma {:induction false} ChunksConserve(changes: seq<Change>)
    ensures Flatten(Chunks(changes)) == changes
    ensures forall i :: 0 <= i < |Chunks(changes)| ==> |Chunks(changes)[i]| <= MAX_CHANGES_PER_DELTA
    decreases |changes|
  {
    if |changes| > MAX_CHANGES_PER_DELTA {
      ChunksConserve(changes[MAX_CHANGES_PER_DELTA..]);
      assert changes == changes[..MAX_CHANGES_PER_DELTA] + changes[MAX_CHANGES_PER_DELTA..];
      assert Chunks(changes)[1..] == Chunks(changes[MAX_CHANGES_PER_DELTA..]);
    }
  }

  // How many messages n changes take: one at least, and one per 512 begun.
  function MessagesFor(n: nat): nat {
    if n == 0 then 1 else (n + MAX_CHANGES_PER_DELTA - 1) / MAX_CHANGES_PER_DELTA
  }

  lemma {:induction false} ChunksCount(changes: seq<Change>)
    ensures |Chunks(changes)| == MessagesFor(|changes|)
    decreases |changes|
  {
    if |changes| > MAX_CHANGES_PER_DELTA { ChunksCount(changes[MAX_CHANGES_PER_DELTA..]); }
  }

  function Deltas(connectionId: string, revision: nat, baseline: bool, observedAt: Time, chunks: seq<seq<Change>>,
                  ids: nat -> string): (r: seq<Delta>)
    ensures |r| == |chunks|
    ensures forall i :: 0 <= i < |r| ==> r[i] == Delta(ids(i), connectionId, revision, baseline, observedAt, chunks[i])
  {
    seq(|chunks|, i requires 0 <= i < |chunks| => Delta(ids(i), connectionId, revision, baseline, observedAt,
                                                        chunks[i]))
  }

  function Packed(connectionId: string, revision: nat, baseline: bool, observedAt: Time, changes: seq<Change>,
                  ids: nat -> string): seq<Delta>
  {
    if changes == [] && !baseline then []
    else Deltas(connectionId, revision, baseline, observedAt, Chunks(changes), ids)
  }

  // Where the i-th run of 512 out of n ends.
  function Until(n: nat, i: nat): nat {
    if 512 * (i + 1) <= n then 512 * (i + 1) else n
  }

  /** The i-th chunk is the i-th run of 512 changes, the last one what is left of them. */
  lemma {:induction false} ChunkAt(changes: seq<Change>, i: nat)
    requires i < |Chunks(changes)|
    ensures 512 * i <= |changes| && Chunks(changes)[i] == changes[512 * i..Until(|changes|, i)]
    decreases i
  {
    if i > 0 { ChunkAt(changes[MAX_CHANGES_PER_DELTA..], i - 1); }
  }

  /** Nothing to say is no message, except that a baseline is always said.  Otherwise the runs
      of 512 in their order, each under its own identifier and all marked alike. */
  lemma PackedHolds(connectionId: string, revision: nat, baseline: bool, observedAt: Time, changes: seq<Change>,
                    ids: nat -> string)
    ensures var deltas := Packed(connectionId, revision, baseline, observedAt, changes, ids);
            && (|changes| == 0 ==> |deltas| == if baseline then 1 else 0)
            && (|changes| > 0 ==> 512 * (|deltas| - 1) < |changes| <= 512 * |deltas|)
            && (forall i :: 0 <= i < |deltas| ==>
                  && deltas[i].id == ids(i) && deltas[i].connectionId == connectionId
                  && deltas[i].policyRevision == revision && deltas[i].baseline == baseline
                  && deltas[i].observedAt == observedAt)
            && (forall i :: 0 <= i < |deltas| ==>
                  512 * i <= |changes| && deltas[i].changes == changes[512 * i..Until(|changes|, i)])
  {
    var deltas := Packed(connectionId, revision, baseline, observedAt, changes, ids);
    ChunksCount(changes);
    forall i | 0 <= i < |deltas|
      ensures 512 * i <= |changes| && deltas[i].changes == changes[512 * i..Until(|changes|, i)]
    {
      ChunkAt(changes, i);
    }
  }

  // The i-th identifier minted is `ids(i)`.
  method PackDeltas(connectionId: string, revision: nat, baseline: bool, observedAt: Time, changes: seq<Change>,
                    ids: nat -> string)
    returns (deltas: seq<Delta>)
    ensures deltas == Packed(connectionId, revision, baseline, observedAt, changes, ids)
  {
    if |changes| == 0 && !baseline {
      return [];
    }
    deltas := [];
    var rest := changes;
    var first := true;
    ghost var all := Chunks(changes);
    while first || |rest| > 0
      invariant |deltas| <= |all| && (first <==> |deltas| == 0)
      invariant first ==> rest == changes
      invariant forall i :: 0 <= i < |deltas| ==>
                    deltas[i] == Delta(ids(i), connectionId, revision, baseline, observedAt, all[i])
      invariant first || rest != [] ==> all[|deltas|..] == Chunks(rest)
      invariant !first && rest == [] ==> |deltas| == |all|
      decreases first, |rest|
    {
      var chunk := rest;
      if |chunk| > MAX_CHANGES_PER_DELTA {
        chunk := chunk[..MAX_CHANGES_PER_DELTA];
      }
      assert all[|deltas|] == Chunks(rest)[0] == chunk;
      assert |rest| > MAX_CHANGES_PER_DELTA ==>
                 all[|deltas| + 1..] == Chunks(rest)[1..] == Chunks(rest[MAX_CHANGES_PER_DELTA..]);
      rest := rest[|chunk|..];
      deltas := deltas + [Delta(ids(|deltas|), connectionId, revision, baseline, observedAt, chunk)];
      first := false;
    }
  }

  // ---------------------------------------------------------------- a tick

  // What a tick reads under the lock before it goes to the cluster.
  datatype Tick = Tick(namespaces: seq<string>, configVersion: nat, previous: Snapshot, baseline: bool, revision: nat)

  datatype Reading = Faulted | Collected(snapshot: Snapshot, truncated: bool)

  function TickOf(scope: Scope): Tick {
    Tick(scope.namespaces, scope.configVersion, scope.snapshot,
         !scope.baselined || scope.rebaseline, scope.policyRevision)
  }

  ghost function TickChanges(tick: Tick, current: Snapshot): seq<Change> {
    if tick.baseline then BaselineOf(current) else DiffOf(tick.previous, current)
  }

  // The queue after a successful tick, before the overflow rule.
  ghost function Queued(scope: Scope, tick: Tick, observedAt: Time, current: Snapshot, ids: nat -> string): seq<Delta> {
    Packed(scope.connectionId, tick.revision, tick.baseline, observedAt, TickChanges(tick, current), ids)
  }

  function Completed(scope: Scope, added: seq<Delta>, observedAt: Time, current: Snapshot, truncated: bool): Scope {
    var overflow := |scope.pending + added| > MAX_PENDING_DELTAS;
    scope.(pending := if overflow then [] else scope.pending + added, rebaseline := overflow,
           snapshot := current, baselined := true, faulted := false, truncated := truncated,
           lastCompleted := Some(observedAt))
  }

  ghost function Committed(scope: Scope, tick: Tick, observedAt: Time, reading: Reading, ids: nat -> string): Scope {
    if scope.configVersion != tick.configVersion then scope
    else if reading.Faulted? then scope.(faulted := true)
    else Completed(scope, Queued(scope, tick, observedAt, reading.snapshot, ids), observedAt, reading.snapshot,
                   reading.truncated)
  }

  /** When a baseline is owed, for whatever reason and with whatever still queued, the next
      successful tick settles the debt exactly when its messages fit behind the queue; then
      the whole of it is queued.  Otherwise the queue is cleared and the debt stands. */
  lemma DebtIsPaidIffItFits(scope: Scope, observedAt: Time, current: Snapshot, truncated: bool, ids: nat -> string)
    requires TickOf(scope).baseline
    ensures var after := Committed(scope, TickOf(scope), observedAt, Collected(current, truncated), ids);
            && (!after.rebaseline <==> |scope.pending| + MessagesFor(|current|) <= 64)
            && (!after.rebaseline ==>
                after.pending == scope.pending + Queued(scope, TickOf(scope), observedAt, current, ids))
            && (after.rebaseline ==> after.pending == [])
  {
    BaselineListsEverything(current);
    ChunksCount(BaselineOf(current));
  }

  // Sixty-four messages hold 32768 objects.
  lemma WhatFitsAnEmptyQueue(n: nat)
    ensures MessagesFor(n) <= 64 <==> n <= 32768
  {
  }

  // ---------------------------------------------------------------- acknowledgements

  function IndexOf(pending: seq<Delta>, id: string): (i: nat)
    ensures i <= |pending|
    ensures i < |pending| ==> pending[i].id == id
    ensures forall j :: 0 <= j < i ==> pending[j].id != id
    decreases |pending|
  {
    if pending == [] then 0 else if pending[0].id == id then 0 else 1 + IndexOf(pending[1..], id)
  }

  function WithoutAt(pending: seq<Delta>, i: nat): seq<Delta>
    requires i < |pending|
  {
    pending[..i] + pending[i + 1..]
  }

  function Acked(scope: Scope, id: string): Scope
    requires IndexOf(scope.pending, id) < |scope.pending|
  {
    scope.(pending := WithoutAt(scope.pending, IndexOf(scope.pending, id)))
  }
}
