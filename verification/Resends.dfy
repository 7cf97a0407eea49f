/** What is sent again: the queues of all scopes, and what stands in them over every run. */
module Resends {
  import opened Scopes
  import opened SyncRuns
  import opened SyncTheorems

  function PendingIn(scopes: map<string, Scope>): string -> seq<Delta> {
    (id: string) => if id in scopes then scopes[id].pending else []
  }

  // How many deltas these scopes have queued together.
  function Total(queue: string -> seq<Delta>, ids: seq<string>): nat {
    if ids == [] then 0 else Total(queue, ids[..|ids| - 1]) + |queue(ids[|ids| - 1])|
  }

  predicate StandsAt(pending: seq<Delta>, at: nat, queue: seq<Delta>) {
    at + |queue| <= |pending| && pending[at..at + |queue|] == queue
  }

  // Every queue whole, each right behind the one before, and nothing else.
  predicate InSlices(pending: seq<Delta>, queue: string -> seq<Delta>, ids: seq<string>) {
    && |pending| == Total(queue, ids)
    && forall i :: 0 <= i < |ids| ==> StandsAt(pending, Total(queue, ids[..i]), queue(ids[i]))
  }

  lemma OneSliceMore(pending: seq<Delta>, queue: string -> seq<Delta>, ids: seq<string>, id: string)
    requires InSlices(pending, queue, ids)
    ensures InSlices(pending + queue(id), queue, ids + [id])
  {
    var all, more := pending + queue(id), ids + [id];
    assert more[..|ids|] == ids;
    forall i | 0 <= i < |more| ensures StandsAt(all, Total(queue, more[..i]), queue(more[i])) {
      if i < |ids| {
        assert more[..i] == ids[..i] && StandsAt(pending, Total(queue, ids[..i]), queue(ids[i]));
        StillStands(pending, queue(id), Total(queue, ids[..i]), queue(ids[i]));
      }
    }
  }

  lemma StillStands(pending: seq<Delta>, more: seq<Delta>, at: nat, queue: seq<Delta>)
    requires StandsAt(pending, at, queue)
    ensures StandsAt(pending + more, at, queue)
  {
    assert (pending + more)[at..at + |queue|] == pending[at..at + |queue|];
  }

  ghost predicate InSome(queue: string -> seq<Delta>, ids: seq<string>, d: Delta) {
    exists i :: 0 <= i < |ids| && d in queue(ids[i])
  }

  lemma InOneMore(queue: string -> seq<Delta>, ids: seq<string>, d: Delta)
    requires ids != []
    ensures InSome(queue, ids, d) <==> InSome(queue, ids[..|ids| - 1], d) || d in queue(ids[|ids| - 1])
  {
    var n := |ids| - 1;
    if i :| 0 <= i < n && d in queue(ids[..n][i]) { assert d in queue(ids[i]); }
    if i :| 0 <= i < |ids| && d in queue(ids[i]) { assert i < n ==> d in queue(ids[..n][i]); }
  }

  lemma {:induction false} SlicesHold(pending: seq<Delta>, queue: string -> seq<Delta>, ids: seq<string>, d: Delta)
    requires InSlices(pending, queue, ids)
    ensures d in pending <==> InSome(queue, ids, d)
    decreases |ids|
  {
    var n := |ids| - 1;
    if n >= 0 {
      var m := Total(queue, ids[..n]);
      LastSlice(pending, queue, ids, n, m);
      SlicesBefore(pending, queue, ids, n, m);
      SlicesHold(pending[..m], queue, ids[..n], d);
      InOneMore(queue, ids, d);
    }
  }

  lemma LastSlice(pending: seq<Delta>, queue: string -> seq<Delta>, ids: seq<string>, n: nat, m: nat)
    requires InSlices(pending, queue, ids) && n == |ids| - 1 && m == Total(queue, ids[..n])
    ensures m <= |pending| && pending == pending[..m] + queue(ids[n])
  {
    assert StandsAt(pending, Total(queue, ids[..n]), queue(ids[n]));
  }

  /** So a listing of the queues of all scopes holds every pending delta of each, and no other. */
  lemma ListingHolds(pending: seq<Delta>, queue: string -> seq<Delta>, scopes: map<string, Scope>, ids: seq<string>,
                     d: Delta)
    requires InSlices(pending, queue, ids) && forall c :: c in ids <==> c in scopes
    requires forall c :: c in scopes ==> queue(c) == scopes[c].pending
    ensures d in pending <==> exists c :: c in scopes && d in scopes[c].pending
  {
    SlicesHold(pending, queue, ids, d);
    if c :| c in scopes && d in scopes[c].pending {
      var i :| 0 <= i < |ids| && ids[i] == c;
      assert d in queue(ids[i]);
    }
    if i :| 0 <= i < |ids| && d in queue(ids[i]) { assert ids[i] in ids; }
  }

  lemma {:induction false} TotalClimbs(queue: string -> seq<Delta>, ids: seq<string>, i: nat, n: nat)
    requires i < n <= |ids|
    ensures Total(queue, ids[..i]) + |queue(ids[i])| <= Total(queue, ids[..n])
    decreases n
  {
    assert ids[..n][..n - 1] == ids[..n - 1];
    if i < n - 1 { TotalClimbs(queue, ids, i, n - 1); }
  }

  lemma SlicesBefore(pending: seq<Delta>, queue: string -> seq<Delta>, ids: seq<string>, n: nat, m: nat)
    requires InSlices(pending, queue, ids) && n <= |ids| && m == Total(queue, ids[..n]) <= |pending|
    ensures InSlices(pending[..m], queue, ids[..n])
  {
    forall i | 0 <= i < n ensures StandsAt(pending[..m], Total(queue, ids[..n][..i]), queue(ids[..n][i])) {
      assert ids[..n][..i] == ids[..i] && StandsAt(pending, Total(queue, ids[..i]), queue(ids[i]));
      TotalClimbs(queue, ids, i, n);
      var at := Total(queue, ids[..i]);
      assert pending[..m][at..at + |queue(ids[i])|] == pending[at..at + |queue(ids[i])|];
    }
  }

  /** In every run, a delta stands in what is sent again if and only if some scope queued it since
      its queue was last cleared and nobody has acknowledged it. */
  lemma ResentIffUnacked(local: Local, clock: Time, run: seq<Event>, pending: seq<Delta>, queue: string -> seq<Delta>,
                         order: seq<string>, d: Delta)
    requires local.minimumInterval >= 0 && ValidFrom(Start(local, clock), run) && InSlices(pending, queue, order)
    requires var s := After(Start(local, clock), run);
             && (forall c :: c in order <==> c in s.scopes)
             && forall c :: c in s.scopes ==> queue(c) == s.scopes[c].pending
    ensures var s := After(Start(local, clock), run);
            d in pending <==>
              exists c :: c in s.traces && d in s.traces[c].queued && d.id !in s.traces[c].acked
  {
    var s := After(Start(local, clock), run);
    RunKeepsInv(Start(local, clock), run);
    ListingHolds(pending, queue, s.scopes, order, d);
    forall c | c in s.scopes
      ensures d in s.scopes[c].pending <==> d in s.traces[c].queued && d.id !in s.traces[c].acked
    {
      assert ScopeOk(s, c);
      LiveMembers(s.traces[c].queued, s.traces[c].acked);
    }
  }
}
