/** How fast a sweep works through a backlog. With User Profile up and no other writer, a
    batch of B takes B of the rows that were overdue at the first tick, until none is left:
    the ordered selection prefers them to rows that became overdue later. */
module Drain {
  import opened Domain
  import opened Table
  import opened Service
  import opened Sweeps

  /** The rows still waiting of those that were overdue by the clock `first`. */
  lemma {:induction false} TickLeaves(
      before: Rows, after: Rows, job: Job, first: Time, now: Time, configured: int, targets: seq<Row>, fates: seq<Fate>)
    requires !job.Warning? && TickedAlone(before, after, job, now, configured, targets, fates)
    ensures Matches(after, QueryFor(job, first)) == Matches(before, QueryFor(job, first)) - IdsOf(targets)
  {
    var q := QueryFor(job, first);
    forall id ensures id in Matches(after, q) <==> id in Matches(before, q) && id !in IdsOf(targets) {
      SweptElsewhere(before, job, now, targets, fates, id);
      InIds(targets, id);
      if id in IdsOf(targets) {
        var k :| 0 <= k < |targets| && targets[k].id == id;
        SweptAt(before, job, now, targets, fates, k);
      }
    }
  }

  /** If any of the first rows was left out, the whole batch was taken from them. */
  lemma {:induction false} FirstRowsFirst(t: Rows, job: Job, first: Time, now: Time, limit: nat, targets: seq<Row>, id: Id)
    requires !job.Warning? && first <= now && IsSelection(t, QueryFor(job, now), limit, targets)
    requires id in Matches(t, QueryFor(job, first)) && id !in IdsOf(targets)
    ensures |targets| == limit && IdsOf(targets) <= Matches(t, QueryFor(job, first))
  {
    assert id in Matches(t, QueryFor(job, now));
    InIds(targets, id);
    forall i | 0 <= i < |targets| ensures targets[i].id in Matches(t, QueryFor(job, first)) {
      assert targets[i].id in Matches(t, QueryFor(job, now));
    }
    forall other | other in IdsOf(targets) ensures other in Matches(t, QueryFor(job, first)) {
      InIds(targets, other);
    }
  }

  function Remaining(n: int, limit: nat): nat {
    if n <= limit then 0 else n - limit
  }

  /** One tick. */
  lemma {:induction false} TickDrains(
      before: Rows, after: Rows, job: Job, first: Time, now: Time, configured: int, targets: seq<Row>, fates: seq<Fate>)
    requires !job.Warning? && first <= now && TickedAlone(before, after, job, now, configured, targets, fates)
    ensures |Matches(after, QueryFor(job, first))| == Remaining(|Matches(before, QueryFor(job, first))|, Limit(configured))
  {
    var overdue, taken := Matches(before, QueryFor(job, first)), IdsOf(targets);
    TickLeaves(before, after, job, first, now, configured, targets, fates);
    AsManyIdsAsRows(targets);
    SizeOfRest(overdue, taken);
    if id :| id in overdue && id !in taken {
      FirstRowsFirst(before, job, first, now, Limit(configured), targets, id);
    } else {
      assert overdue <= taken;
    }
  }

  /** Of the rows matching `q`, some were served, those with the earliest keys; the others
      are as they were, and none were added. */
  ghost predicate EarliestServed(before: Rows, after: Rows, q: Query) {
    && Matches(after, q) <= Matches(before, q)
    && (forall id :: id in Matches(after, q) ==> after[id] == before[id])
    && forall gone, left :: gone in Matches(before, q) && gone !in Matches(after, q) && left in Matches(after, q) ==>
         SortKey(q, before[gone]) <= SortKey(q, before[left])
  }

  lemma {:induction false} ServedOnwards(before: Rows, mid: Rows, after: Rows, q: Query)
    requires EarliestServed(before, mid, q) && EarliestServed(mid, after, q)
    ensures EarliestServed(before, after, q)
  {
    forall gone, left | gone in Matches(before, q) && gone !in Matches(after, q) && left in Matches(after, q)
      ensures SortKey(q, before[gone]) <= SortKey(q, before[left])
    {
      assert left in Matches(mid, q);
      if gone in Matches(mid, q) {
        assert SortKey(q, mid[gone]) <= SortKey(q, mid[left]);
      }
    }
  }

  lemma {:induction false} TickServes(
      before: Rows, after: Rows, job: Job, first: Time, now: Time, configured: int, targets: seq<Row>, fates: seq<Fate>)
    requires !job.Warning? && first <= now && TickedAlone(before, after, job, now, configured, targets, fates)
    ensures EarliestServed(before, after, QueryFor(job, first))
  {
    var q := QueryFor(job, first);
    TickLeaves(before, after, job, first, now, configured, targets, fates);
    forall left | left in Matches(after, q)
      ensures after[left] == before[left]
      ensures forall gone :: gone in Matches(before, q) && gone !in Matches(after, q) ==> SortKey(q, before[gone]) <= SortKey(q, before[left])
    {
      SweptElsewhere(before, job, now, targets, fates, left);
      InIds(targets, left);
      assert left in Matches(before, QueryFor(job, now));
      forall gone | gone in Matches(before, q) && gone !in Matches(after, q)
        ensures SortKey(q, before[gone]) <= SortKey(q, before[left])
      {
        InIds(targets, gone);
      }
    }
  }

  /** The warning pass touches no overdue row and makes none. */
  lemma {:induction false} WarningsLeaveOverdueRows(
      before: Rows, after: Rows, first: Time, now: Time, configured: int, targets: seq<Row>, fates: seq<Fate>)
    requires first <= now && WarnedAlone(before, after, now, configured, targets, fates)
    ensures Matches(after, DueForAutoEnd(first)) == Matches(before, DueForAutoEnd(first))
    ensures EarliestServed(before, after, DueForAutoEnd(first))
  {
    forall id
      ensures id in Matches(after, DueForAutoEnd(first)) <==> id in Matches(before, DueForAutoEnd(first))
      ensures id in Matches(after, DueForAutoEnd(first)) ==> after[id] == before[id]
    {
      SweptElsewhere(before, Warning, now, targets, fates, id);
    }
  }

  predicate NonDecreasing(nows: seq<Time>) {
    forall i, j :: 0 <= i <= j < |nows| ==> nows[i] <= nows[j]
  }

  method Tick(w: World, job: Job, now: Time, configured: int, ghost first: Time)
    requires w.Valid() && w.alone && w.db.healthy && !job.Warning? && first <= now
    modifies w, w.db
    ensures w.Valid()
    ensures |Matches(w.db.durable.rows, QueryFor(job, first))|
         == Remaining(|Matches(old(w.db.durable.rows), QueryFor(job, first))|, Limit(configured))
    ensures EarliestServed(old(w.db.durable.rows), w.db.durable.rows, QueryFor(job, first))
  {
    ghost var before := w.db.durable.rows;
    if job.Expiring? {
      var res, err, targets, fates := Expiry(w, now, configured);
      TickDrains(before, w.db.durable.rows, job, first, now, configured, targets, fates);
      TickServes(before, w.db.durable.rows, job, first, now, configured, targets, fates);
    } else if job.Activating? {
      var res, err, targets, fates := Activation(w, now, configured);
      TickDrains(before, w.db.durable.rows, job, first, now, configured, targets, fates);
      TickServes(before, w.db.durable.rows, job, first, now, configured, targets, fates);
    } else {
      var res, err, counters, warned, warnFates, due, dueFates := ReviewSweep(w, now, configured);
      ghost var mid: Rows :|
        && WarnedAlone(before, mid, now, configured, warned, warnFates)
        && TickedAlone(mid, w.db.durable.rows, AutoEnding, now, configured, due, dueFates);
      WarningsLeaveOverdueRows(before, mid, first, now, configured, warned, warnFates);
      TickDrains(mid, w.db.durable.rows, job, first, now, configured, due, dueFates);
      TickServes(mid, w.db.durable.rows, job, first, now, configured, due, dueFates);
      ServedOnwards(before, mid, w.db.durable.rows, QueryFor(job, first));
    }
  }

  /** After k ticks at non-decreasing times, exactly max(0, n - k * B) of the n rows overdue
      at the first tick are left, those with the latest keys and unchanged, for expiry,
      activation and review auto-end alike. */
  method Drained(w: World, job: Job, nows: seq<Time>, configured: int)
    requires w.Valid() && w.alone && w.db.healthy && !job.Warning?
    requires nows != [] && NonDecreasing(nows)
    modifies w, w.db
    ensures |Matches(w.db.durable.rows, QueryFor(job, nows[0]))|
         == Remaining(|Matches(old(w.db.durable.rows), QueryFor(job, nows[0]))|, |nows| * Limit(configured))
    ensures EarliestServed(old(w.db.durable.rows), w.db.durable.rows, QueryFor(job, nows[0]))
  {
    var k := 0;
    ghost var start := w.db.durable.rows;
    ghost var n := |Matches(w.db.durable.rows, QueryFor(job, nows[0]))|;
    while k < |nows|
      invariant 0 <= k <= |nows| && w.Valid()
      invariant |Matches(w.db.durable.rows, QueryFor(job, nows[0]))| == Remaining(n, k * Limit(configured))
      invariant EarliestServed(start, w.db.durable.rows, QueryFor(job, nows[0]))
    {
      ghost var before := w.db.durable.rows;
      Tick(w, job, nows[k], configured, nows[0]);
      ServedOnwards(start, before, w.db.durable.rows, QueryFor(job, nows[0]));
      assert (k + 1) * Limit(configured) == k * Limit(configured) + Limit(configured);
      k := k + 1;
    }
  }
}
