/** A reader of deltas.  All it knows is what is on the wire: a delta marked as a baseline
    belongs to the baseline read at its observation time, and the first delta of a baseline
    makes the reader start over. */
module Readers {
  import opened Wrappers
  import opened Snapshots
  import opened Diffs
  import opened Replay
  import opened Scopes
  import opened SyncRuns

  // `group` is the observation time of the baseline being read, if one is.
  datatype Reader = Reader(mirror: Snapshot, group: Option<Time>)

  // The delta does not continue the baseline being read.
  predicate Restarts(r: Reader, d: Delta) {
    d.baseline && r.group != Some(d.observedAt)
  }

  function Take(r: Reader, d: Delta): Reader {
    Reader(ReplayAll(if Restarts(r, d) then map[] else r.mirror, d.changes),
           if d.baseline then Some(d.observedAt) else None)
  }

  function Read(r: Reader, deltas: seq<Delta>): Reader {
    if deltas == [] then r else Take(Read(r, deltas[..|deltas| - 1]), deltas[|deltas| - 1])
  }

  lemma {:induction false} ReadConcat(r: Reader, a: seq<Delta>, b: seq<Delta>)
    ensures Read(r, a + b) == Read(Read(r, a), b)
    decreases |b|
  {
    if b == [] {
      assert a + b == a;
    } else {
      assert (a + b)[..|a + b| - 1] == a + b[..|b| - 1];
      ReadConcat(r, a, b[..|b| - 1]);
    }
  }

  // From `start` on, the first n deltas are one baseline and the rest are none.
  predicate Marked(queued: seq<Delta>, start: nat, n: nat) {
    && 0 < n && start + n <= |queued|
    && (forall i :: start <= i < start + n ==> queued[i].baseline && queued[i].observedAt == queued[start].observedAt)
    && (forall i :: start + n <= i < |queued| ==> !queued[i].baseline)
  }

  lemma CarriedLast(deltas: seq<Delta>)
    requires deltas != []
    ensures Carried(deltas) == Carried(deltas[..|deltas| - 1]) + deltas[|deltas| - 1].changes
  {
    var n := |deltas| - 1;
    assert deltas == deltas[..n] + [deltas[n]];
    CarriedConcat(deltas[..n], [deltas[n]]);
    assert [deltas[n]][1..] == [];
  }

  /** A baseline and what follows it is read as one replay: from nothing when the reader
      starts over, and from what it had when it does not. */
  lemma {:induction false} ReadOfBaseline(r: Reader, deltas: seq<Delta>, n: nat)
    requires Marked(deltas, 0, n)
    ensures var base := if Restarts(r, deltas[0]) then map[] else r.mirror;
            Read(r, deltas).mirror == ReplayAll(base, Carried(deltas))
    ensures |deltas| == n ==> Read(r, deltas).group == Some(deltas[0].observedAt)
    decreases |deltas|
  {
    var m := |deltas| - 1;
    if m == 0 {
      ReadOfOne(r, deltas);
    } else {
      ReadOfBaseline(r, deltas[..m], if m < n then m else n);
      ReadOfLast(r, deltas, n, if Restarts(r, deltas[0]) then map[] else r.mirror);
    }
  }

  lemma ReadOfOne(r: Reader, deltas: seq<Delta>)
    requires |deltas| == 1
    ensures Read(r, deltas) == Take(r, deltas[0]) && Carried(deltas) == deltas[0].changes
  {
    assert deltas[..0] == [] && deltas[1..] == [];
  }

  // One delta more, once the baseline has begun.
  lemma ReadOfLast(r: Reader, deltas: seq<Delta>, n: nat, base: Snapshot)
    requires Marked(deltas, 0, n) && |deltas| > 1
    requires var some := deltas[..|deltas| - 1];
             && Read(r, some).mirror == ReplayAll(base, Carried(some))
             && (|some| <= n ==> Read(r, some).group == Some(deltas[0].observedAt))
    ensures Read(r, deltas).mirror == ReplayAll(base, Carried(deltas))
    ensures |deltas| == n ==> Read(r, deltas).group == Some(deltas[0].observedAt)
  {
    var m := |deltas| - 1;
    CarriedLast(deltas);
    ReplayConcat(base, Carried(deltas[..m]), deltas[m].changes);
  }

  // Some change is about this object.
  ghost predicate Mentions(changes: seq<Change>, key: ObjectKey) {
    exists i :: 0 <= i < |changes| && changes[i].key == key
  }

  predicate AgreesAt(mirror: Snapshot, snapshot: Snapshot, key: ObjectKey) {
    (key in mirror <==> key in snapshot) && (key in mirror ==> mirror[key].revision == snapshot[key].revision)
  }

  ghost predicate EverIn(snapshots: seq<Snapshot>, key: ObjectKey) {
    exists i :: 0 <= i < |snapshots| && key in snapshots[i]
  }

  lemma MentionsIffDiffers(changes: seq<Change>, previous: Snapshot, current: Snapshot, key: ObjectKey)
    requires Tells(changes, previous, current)
    ensures Mentions(changes, key) <==> Differs(previous, current, key)
  {
  }

  lemma MentionsEither(a: seq<Change>, b: seq<Change>, key: ObjectKey)
    ensures Mentions(a + b, key) <==> Mentions(a, key) || Mentions(b, key)
  {
    if i :| 0 <= i < |a| && a[i].key == key { assert (a + b)[i].key == key; }
    if i :| 0 <= i < |b| && b[i].key == key { assert (a + b)[|a| + i].key == key; }
  }

  lemma EverInOneMore(snapshots: seq<Snapshot>, key: ObjectKey)
    requires snapshots != []
    ensures EverIn(snapshots, key) <==> EverIn(snapshots[..|snapshots| - 1], key) || key in snapshots[|snapshots| - 1]
  {
    var n := |snapshots| - 1;
    if i :| 0 <= i < |snapshots| && key in snapshots[i] { assert i < n ==> key in snapshots[..n][i]; }
    if i :| 0 <= i < n && key in snapshots[..n][i] { assert key in snapshots[i]; }
  }

  // One diff, seen from one object.
  lemma DiffAtKey(mirror: Snapshot, changes: seq<Change>, previous: Snapshot, current: Snapshot, key: ObjectKey)
    requires Tells(changes, previous, current)
    ensures AgreesAt(mirror, previous, key) || (key !in previous && key in current) ==>
              AgreesAt(ReplayAll(mirror, changes), current, key)
    ensures key !in previous && key !in current ==> Look(ReplayAll(mirror, changes), key) == Look(mirror, key)
  {
    ReplayOfDiff(mirror, changes, previous, current, key);
  }

  // A chain replayed on any mirror: right about every object it mentions, and silent about
  // every other.
  lemma {:induction false} ChainAtKey(diff: (Snapshot, Snapshot) -> seq<Change>, mirror: Snapshot,
                                      snapshots: seq<Snapshot>, key: ObjectKey)
    requires snapshots != [] && Telling(diff)
    ensures var changes := Chain(diff, snapshots);
            && (Mentions(changes, key) <==> EverIn(snapshots, key))
            && (EverIn(snapshots, key) ==> AgreesAt(ReplayAll(mirror, changes), snapshots[|snapshots| - 1], key))
            && (!EverIn(snapshots, key) ==> Look(ReplayAll(mirror, changes), key) == Look(mirror, key))
    decreases |snapshots|
  {
    var n := |snapshots| - 1;
    var previous := if n == 0 then map[] else snapshots[n - 1];
    var changes := diff(previous, snapshots[n]);
    assert Tells(changes, previous, snapshots[n]);
    MentionsIffDiffers(changes, previous, snapshots[n], key);
    EverInOneMore(snapshots, key);
    if n == 0 {
      DiffAtKey(mirror, changes, previous, snapshots[n], key);
    } else {
      var sent := Chain(diff, snapshots[..n]);
      ChainAtKey(diff, mirror, snapshots[..n], key);
      assert previous == snapshots[..n][n - 1];
      assert key in previous ==> EverIn(snapshots[..n], key);
      MentionsEither(sent, changes, key);
      ReplayConcat(mirror, sent, changes);
      DiffAtKey(ReplayAll(mirror, sent), changes, previous, snapshots[n], key);
    }
  }

  lemma ChainTopAtKey(diff: (Snapshot, Snapshot) -> seq<Change>, mirror: Snapshot, snapshots: seq<Snapshot>,
                      key: ObjectKey)
    requires snapshots != [] && Telling(diff)
    ensures AgreesAt(ReplayAll(mirror, Chain(diff, snapshots)), snapshots[|snapshots| - 1], key) <==>
            (key in mirror ==> Mentions(Chain(diff, snapshots), key))
  {
    ChainAtKey(diff, mirror, snapshots, key);
    assert key in snapshots[|snapshots| - 1] ==> EverIn(snapshots, key);
  }

  lemma AgreeEverywhere(a: Snapshot, b: Snapshot)
    ensures SameRevisions(a, b) <==> forall key :: AgreesAt(a, b, key)
  {
    if SameRevisions(a, b) {
      forall key ensures AgreesAt(a, b, key) {}
    }
    if forall key :: AgreesAt(a, b, key) {
      forall key
        ensures (key in a <==> key in b) && (key in a ==> a[key].revision == b[key].revision)
      {
        assert AgreesAt(a, b, key);
      }
    }
  }

  /** So a chain read on top of a mirror gives the last snapshot exactly when it mentions
      everything the mirror held. */
  lemma ChainOnTopIff(diff: (Snapshot, Snapshot) -> seq<Change>, mirror: Snapshot, snapshots: seq<Snapshot>)
    requires snapshots != [] && Telling(diff)
    ensures SameRevisions(ReplayAll(mirror, Chain(diff, snapshots)), snapshots[|snapshots| - 1]) <==>
            forall key :: key in mirror ==> Mentions(Chain(diff, snapshots), key)
  {
    var sent := Chain(diff, snapshots);
    var after, last := ReplayAll(mirror, sent), snapshots[|snapshots| - 1];
    forall key ensures AgreesAt(after, last, key) <==> (key in mirror ==> Mentions(sent, key)) {
      ChainTopAtKey(diff, mirror, snapshots, key);
    }
    AgreeEverywhere(after, last);
  }

  /** In particular one read from nothing always does. */
  lemma ChainCarriesRevisions(diff: (Snapshot, Snapshot) -> seq<Change>, snapshots: seq<Snapshot>)
    requires snapshots != [] && Telling(diff)
    ensures SameRevisions(ReplayAll(map[], Chain(diff, snapshots)), snapshots[|snapshots| - 1])
  {
    ChainOnTopIff(diff, map[], snapshots);
  }
}
