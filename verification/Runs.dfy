/** Runs of the lifecycle: what every step keeps, and what holds after every run of any
    number of API callers, sweeps and cascade consumers. */
module Runs {
  import opened Domain
  import opened Table
  import opened EventLog
  import opened Lifecycle

  /** A step of a run; `mine` marks the steps of one observed call. */
  datatype Entry = Entry(mine: bool, step: Step)

  ghost predicate Legal(s: State, run: seq<Entry>)
    decreases |run|, 0
  {
    run == [] || (
      && Legal(s, run[..|run| - 1])
      && Enabled(Reach(s, run[..|run| - 1]), run[|run| - 1].step))
  }

  ghost function Reach(s: State, run: seq<Entry>): State
    requires Legal(s, run)
    decreases |run|, 1
  {
    if run == [] then s else Apply(Reach(s, run[..|run| - 1]), run[|run| - 1].step)
  }

  lemma {:induction false} LegalSnoc(s: State, run: seq<Entry>, e: Entry)
    requires Legal(s, run) && Enabled(Reach(s, run), e.step)
    ensures Legal(s, run + [e]) && Reach(s, run + [e]) == Apply(Reach(s, run), e.step)
  {
    assert (run + [e])[..|run + [e]| - 1] == run;
  }

  lemma {:induction false} LegalPrefix(s: State, run: seq<Entry>, k: nat)
    requires Legal(s, run) && k <= |run|
    ensures Legal(s, run[..k])
  {
    if k == |run| {
      assert run[..k] == run;
    } else {
      assert run[..|run| - 1][..k] == run[..k];
      LegalPrefix(s, run[..|run| - 1], k);
    }
  }

  // ---------------------------------------------------------------- the invariant

  ghost predicate EventOk(s: State, e: Event) {
    && e.id in s.hist
    && (e.id in s.rows ==>
          e.tenant == s.rows[e.id].tenant && e.delegator == s.rows[e.id].delegator && e.delegate == s.rows[e.id].delegate)
  }

  ghost predicate CellsOk(s: State) {
    forall id {:trigger CellOf(s, id)} :: CellInv(id, CellOf(s, id))
  }

  ghost predicate ReadsOk(s: State) {
    forall rd :: rd in s.seen ==>
      rd.row.id in s.hist && (rd.row.id in s.rows ==> RowLe(rd.row, s.rows[rd.row.id]))
  }

  ghost predicate PoliciesOk(s: State) {
    forall t :: t in s.policies ==> ValidPolicy(s.policies[t])
  }

  ghost predicate OutboxOk(s: State) {
    forall e :: e in s.outbox ==> EventOk(s, e)
  }

  ghost predicate Inv(s: State) {
    CellsOk(s) && ReadsOk(s) && PoliciesOk(s) && OutboxOk(s)
  }

  lemma {:induction false} StartOk()
    ensures Inv(EMPTY)
  {
  }

  lemma {:induction false} CellAt(s: State, id: Id)
    requires CellsOk(s)
    ensures CellInv(id, CellOf(s, id))
    ensures id in s.rows ==> id in s.hist && s.rows[id].id == id && RowOk(s.rows[id], DigestOf(s.hist[id], Project(s.outbox, id)))
    ensures id in s.hist ==> LeftOk(DigestOf(s.hist[id], Project(s.outbox, id)))
  {
    var c := CellOf(s, id);
  }

  // ---------------------------------------------------------------- a step, seen by one delegation

  lemma {:induction false} ProjectSame(r: Row, kinds: seq<Kind>, id: Id)
    ensures Project(seq(|kinds|, i requires 0 <= i < |kinds| => About(r, kinds[i])), id) == if r.id == id then kinds else []
  {
    var evs := seq(|kinds|, i requires 0 <= i < |kinds| => About(r, kinds[i]));
    if kinds != [] {
      var front := kinds[..|kinds| - 1];
      ProjectSame(r, front, id);
      assert evs[..|evs| - 1] == seq(|front|, i requires 0 <= i < |front| => About(r, front[i]));
      assert kinds == front + [kinds[|kinds| - 1]];
    }
  }

  lemma {:induction false} ListedOnce(order: seq<Id>, id: Id)
    requires order != [] && forall i, j :: 0 <= i < j < |order| ==> order[i] != order[j]
    ensures id in order <==> id in order[..|order| - 1] || id == order[|order| - 1]
    ensures order[|order| - 1] !in order[..|order| - 1]
  {
    assert order == order[..|order| - 1] + [order[|order| - 1]];
  }

  /** In a bulk end each listed row is told about once, whatever the order. */
  lemma {:induction false} BulkProject(rows: Rows, user: Id, order: seq<Id>, kinds: seq<Kind>, id: Id)
    requires forall i, j :: 0 <= i < j < |order| ==> order[i] != order[j]
    requires forall x :: x in order ==> x in rows && rows[x].id == x
    ensures Project(BulkEvents(rows, user, order, kinds), id)
         == if id in order && rows[id].delegate == user then kinds else []
  {
    if order != [] {
      var front, last := order[..|order| - 1], order[|order| - 1];
      ListedOnce(order, id);
      BulkProject(rows, user, front, kinds, id);
      var tail := if rows[last].delegate == user then seq(|kinds|, i requires 0 <= i < |kinds| => About(rows[last], kinds[i])) else [];
      assert BulkEvents(rows, user, order, kinds) == BulkEvents(rows, user, front, kinds) + tail;
      ProjectConcat(BulkEvents(rows, user, front, kinds), tail, id);
      ProjectSame(rows[last], kinds, id);
    }
  }

  lemma {:induction false} ProjectOne(e: Event, id: Id)
    ensures Project([e], id) == if e.id == id then [e.kind] else []
  {
    assert [e][..0] == [];
  }

  lemma {:induction false} EventsSeen(s: State, step: Step, id: Id)
    requires CellsOk(s) && Enabled(s, step)
    ensures Project(EventsOf(s, step), id) == KindsOf(ActOn(s, step, id))
  {
    forall x | x in s.rows ensures s.rows[x].id == x { CellAt(s, x); }
    var evs := EventsOf(s, step);
    if step.RevokeUser? {
      BulkProject(s.rows, step.user, step.order, [EndedBy(DelegateRemoved)], id);
    } else if step.DisableDelegate? {
      BulkProject(s.rows, step.user, step.order, DISABLED_KINDS, id);
    } else if |evs| == 1 {
      assert evs == [evs[0]];
      ProjectOne(evs[0], id);
    }
  }

  lemma {:induction false} ActAllowed(s: State, step: Step, id: Id)
    requires CellsOk(s) && ReadsOk(s) && Enabled(s, step)
    ensures CanAct(CellOf(s, id), ActOn(s, step, id))
    ensures ActOn(s, step, id).Born? ==> ActOn(s, step, id).row.id == id
  {
    CellAt(s, id);
    if step.Warn? && step.read.row.id == id {
      assert RowLe(step.read.row, s.rows[id]);
    }
  }

  function Lookup<T>(m: map<Id, T>, id: Id): Option<T> {
    if id in m then Some(m[id]) else None
  }

  lemma {:induction false} BulkRowSeen(s: State, step: Step, id: Id)
    requires step.RevokeUser? || step.DisableDelegate? || step.ScrubTenant? || step.Purge?
    requires Enabled(s, step)
    ensures Lookup(RowsAfter(s, step), id) == RowActed(Lookup(s.rows, id), ActOn(s, step, id))
  {
  }

  lemma {:induction false} RowSeen(s: State, step: Step, id: Id)
    requires forall x :: x in s.rows ==> s.rows[x].id == x
    requires Enabled(s, step)
    ensures Lookup(RowsAfter(s, step), id) == RowActed(Lookup(s.rows, id), ActOn(s, step, id))
  {
    if step.RevokeUser? || step.DisableDelegate? || step.ScrubTenant? || step.Purge? {
      BulkRowSeen(s, step, id);
    }
  }

  lemma {:induction false} OnlyCreateBears(s: State, step: Step, id: Id)
    requires Enabled(s, step)
    ensures ActOn(s, step, id).Born? <==> step.Create? && step.row.id == id
    ensures ActOn(s, step, id).Born? ==> ActOn(s, step, id).row == step.row
  {
  }

  lemma {:induction false} HistSeen(s: State, step: Step, id: Id)
    requires Enabled(s, step)
    ensures CellOf(Apply(s, step), id).hist == ActCell(CellOf(s, id), ActOn(s, step, id)).hist
  {
    OnlyCreateBears(s, step, id);
    var act := ActOn(s, step, id);
    if act.Born? {
      assert HistAfter(s, step)[id] == Newborn(step.row);
    } else {
      assert id in HistAfter(s, step) <==> id in s.hist;
      assert id in s.hist ==> HistAfter(s, step)[id] == Recorded(s.hist[id], act);
    }
  }

  lemma {:induction false} ActSeen(s: State, step: Step, id: Id)
    requires CellsOk(s) && Enabled(s, step)
    ensures CellOf(Apply(s, step), id) == ActCell(CellOf(s, id), ActOn(s, step, id))
  {
    forall x | x in s.rows ensures s.rows[x].id == x { CellAt(s, x); }
    RowSeen(s, step, id);
    HistSeen(s, step, id);
    EventsSeen(s, step, id);
    ProjectConcat(s.outbox, EventsOf(s, step), id);
  }

  /** `t` may come after `s`: nothing known is forgotten, rows only move forward, only
      soft-deleted rows disappear, and an id whose row is gone stays gone. */
  ghost predicate Later(s: State, t: State) {
    && s.hist.Keys <= t.hist.Keys && s.seen <= t.seen && s.up <= t.up && s.outbox <= t.outbox
    && forall id :: id in s.hist ==> RowLater(s.rows, t.rows, id)
  }

  ghost predicate RowLater(s: Rows, t: Rows, id: Id) {
    && (id !in s ==> id !in t)
    && (id in s && id in t ==> RowLe(s[id], t[id]))
  }

  lemma {:induction false} StepLater(s: State, step: Step)
    requires CellsOk(s) && ReadsOk(s) && Enabled(s, step)
    ensures Later(s, Apply(s, step)) && CellsOk(Apply(s, step))
  {
    var t := Apply(s, step);
    forall id ensures CellInv(id, CellOf(t, id)) && (id in s.hist ==> id in t.hist && RowLater(s.rows, t.rows, id)) {
      StepOne(s, step, id);
    }
  }

  lemma {:induction false} StepOne(s: State, step: Step, id: Id)
    requires CellsOk(s) && ReadsOk(s) && Enabled(s, step)
    ensures CellInv(id, CellOf(Apply(s, step), id))
    ensures id in s.hist ==> id in Apply(s, step).hist && RowLater(s.rows, Apply(s, step).rows, id)
  {
    CellAt(s, id);
    ActAllowed(s, step, id);
    ActSeen(s, step, id);
    CellKept(id, CellOf(s, id), ActOn(s, step, id));
  }

  lemma {:induction false} ReadsKept(s: State, step: Step)
    requires Inv(s) && Enabled(s, step) && Later(s, Apply(s, step)) && CellsOk(Apply(s, step))
    ensures ReadsOk(Apply(s, step))
  {
    var t := Apply(s, step);
    forall rd | rd in t.seen
      ensures rd.row.id in t.hist && (rd.row.id in t.rows ==> RowLe(rd.row, t.rows[rd.row.id]))
    {
      if rd in s.seen {
        assert RowLater(s.rows, t.rows, rd.row.id);
        if rd.row.id in t.rows {
          RowLeTransitive(rd.row, s.rows[rd.row.id], t.rows[rd.row.id]);
        }
      } else {
        var id :| id in s.rows && rd == Read(s.rows[id], step.now, step.warn);
        CellAt(s, id);
        assert RowLater(s.rows, t.rows, id);
      }
    }
  }

  lemma {:induction false} BulkAbout(rows: Rows, user: Id, order: seq<Id>, kinds: seq<Kind>, e: Event)
    requires forall x :: x in order ==> x in rows && rows[x].id == x
    requires e in BulkEvents(rows, user, order, kinds)
    ensures e.id in order && e.kind in kinds && e == About(rows[e.id], e.kind)
  {
    if order != [] && e in BulkEvents(rows, user, order[..|order| - 1], kinds) {
      BulkAbout(rows, user, order[..|order| - 1], kinds, e);
    }
  }

  /** A step's events name the parties of the row they are about. */
  lemma {:induction false} EventsAbout(s: State, step: Step, e: Event)
    requires CellsOk(s) && Enabled(s, step) && e in EventsOf(s, step)
    ensures step.Create? ==> e == About(step.row, Started)
    ensures !step.Create? ==> e.id in s.rows && e == About(s.rows[e.id], e.kind)
    ensures e.kind == Started ==> step.Create? || step.Activate?
    ensures e.kind == EndedBy(Expired) ==> step.Expire?
    ensures e.kind == EndedBy(ReviewExpired) ==> step.ReviewExpire?
  {
    forall x | x in s.rows ensures s.rows[x].id == x { CellAt(s, x); }
    if step.RevokeUser? {
      BulkAbout(s.rows, step.user, step.order, [EndedBy(DelegateRemoved)], e);
    } else if step.DisableDelegate? {
      BulkAbout(s.rows, step.user, step.order, DISABLED_KINDS, e);
    }
  }

  lemma {:induction false} EventKept(s: State, step: Step, e: Event)
    requires Inv(s) && Enabled(s, step) && Later(s, Apply(s, step)) && e in EventsOf(s, step)
    ensures EventOk(Apply(s, step), e)
  {
    EventsAbout(s, step, e);
    if !step.Create? {
      CellAt(s, e.id);
      assert RowLater(s.rows, RowsAfter(s, step), e.id);
    }
  }

  lemma {:induction false} OutboxKept(s: State, step: Step)
    requires Inv(s) && Enabled(s, step) && Later(s, Apply(s, step)) && CellsOk(Apply(s, step))
    ensures OutboxOk(Apply(s, step))
  {
    var t := Apply(s, step);
    forall e | e in t.outbox ensures EventOk(t, e) {
      if e in s.outbox {
        assert EventOk(s, e);
        assert RowLater(s.rows, t.rows, e.id);
      } else {
        EventKept(s, step, e);
      }
    }
  }

  /** Every step keeps the invariant. */
  lemma {:induction false} StepKeeps(s: State, step: Step)
    requires Inv(s) && Enabled(s, step)
    ensures Inv(Apply(s, step)) && Later(s, Apply(s, step))
  {
    StepLater(s, step);
    ReadsKept(s, step);
    OutboxKept(s, step);
  }

  lemma {:induction false} LaterTransitive(s: State, t: State, u: State)
    requires Later(s, t) && Later(t, u)
    ensures Later(s, u)
  {
    forall id | id in s.hist ensures RowLater(s.rows, u.rows, id) {
      assert RowLater(s.rows, t.rows, id) && RowLater(t.rows, u.rows, id);
      if id in s.rows && id in u.rows {
        RowLeTransitive(s.rows[id], t.rows[id], u.rows[id]);
      }
    }
  }

  /** Every run keeps the invariant, and each of its states comes after the earlier ones. */
  lemma {:induction false} RunKeeps(s: State, run: seq<Entry>, k: nat)
    requires Inv(s) && Legal(s, run) && k <= |run|
    ensures Legal(s, run[..k]) && Inv(Reach(s, run)) && Later(Reach(s, run[..k]), Reach(s, run))
  {
    if run == [] {
      assert run[..k] == run;
    } else {
      var front := run[..|run| - 1];
      RunKeeps(s, front, if k == |run| then k - 1 else k);
      StepKeeps(Reach(s, front), run[|run| - 1].step);
      if k == |run| {
        assert run[..k] == run;
      } else {
        assert front[..k] == run[..k];
        LaterTransitive(Reach(s, run[..k]), Reach(s, front), Reach(s, run));
      }
    }
  }

  /** The state after the first `k` steps of a run of the whole system. */
  ghost function At(run: seq<Entry>, k: nat): State
    requires Legal(EMPTY, run) && k <= |run|
  {
    LegalPrefix(EMPTY, run, k);
    Reach(EMPTY, run[..k])
  }

  /** The states of a run are the states of its front, and then the last one. */
  lemma {:induction false} AtFront(run: seq<Entry>, k: nat)
    requires Legal(EMPTY, run) && k < |run|
    ensures Legal(EMPTY, run[..|run| - 1]) && At(run, k) == At(run[..|run| - 1], k)
  {
    LegalPrefix(EMPTY, run, |run| - 1);
    assert run[..|run| - 1][..k] == run[..k];
  }

  lemma {:induction false} AtEnd(run: seq<Entry>)
    requires Legal(EMPTY, run)
    ensures At(run, |run|) == Reach(EMPTY, run)
  {
    assert run[..|run|] == run;
  }

  lemma {:induction false} AtOk(run: seq<Entry>, k: nat)
    requires Legal(EMPTY, run) && k <= |run|
    ensures Inv(At(run, k))
  {
    StartOk();
    LegalPrefix(EMPTY, run, k);
    RunKeeps(EMPTY, run[..k], k);
  }

  lemma {:induction false} PrefixLater(s: State, run: seq<Entry>, prefix: seq<Entry>, i: nat)
    requires Inv(s) && Legal(s, run) && i <= |run| && prefix == run[..i]
    ensures Legal(s, prefix) && Later(Reach(s, prefix), Reach(s, run))
  {
    RunKeeps(s, run, i);
  }

  lemma {:induction false} AtLater(run: seq<Entry>, i: nat, j: nat)
    requires Legal(EMPTY, run) && i <= j <= |run|
    ensures Later(At(run, i), At(run, j))
  {
    StartOk();
    LegalPrefix(EMPTY, run, j);
    LegalPrefix(EMPTY, run, i);
    assert run[..i] == run[..j][..i];
    PrefixLater(EMPTY, run[..j], run[..i], i);
  }

  lemma {:induction false} PrefixStep(s: State, front: seq<Entry>, run: seq<Entry>)
    requires run != [] && front == run[..|run| - 1] && Legal(s, run)
    ensures Legal(s, front) && Enabled(Reach(s, front), run[|run| - 1].step)
    ensures Reach(s, run) == Apply(Reach(s, front), run[|run| - 1].step)
  {
  }

  lemma {:induction false} AtStep(run: seq<Entry>, k: nat)
    requires Legal(EMPTY, run) && k < |run|
    ensures Enabled(At(run, k), run[k].step)
    ensures At(run, k + 1) == Apply(At(run, k), run[k].step)
  {
    LegalPrefix(EMPTY, run, k + 1);
    LegalPrefix(EMPTY, run, k);
    PrefixStep(EMPTY, run[..k], run[..k + 1]);
  }
}
