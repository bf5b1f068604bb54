/** CascadeService: what a revoked membership, a disabled delegate and a purged tenant do to
    the delegations. Each runs in a transaction of its own or joins the caller's. */
module Cascade {
  import opened Domain
  import opened Table
  import opened EventLog
  import opened Lifecycle
  import opened Persistence
  import opened Runs

  datatype Work =
    | RevokeMember(tenant: Id, user: Id)
    | DisableMember(tenant: Id, user: Id)
    | PurgeTenant(tenant: Id)

  predicate Keyed(t: Rows) {
    forall id | id in t :: t[id].id == id
  }

  /** The rows a piece of work ends or scrubs. */
  predicate Hits(work: Work, r: Row) {
    match work
    case RevokeMember(tenant, user) => HitByRevoke(r, tenant, user)
    case DisableMember(tenant, user) => HitByDisable(r, tenant, user)
    case PurgeTenant(tenant) => HitByScrub(r, tenant)
  }

  /** There is nothing left for this piece of work to do. */
  ghost predicate Idle(s: Store, work: Work) {
    && (forall id :: id in s.rows ==> !Hits(work, s.rows[id]))
    && (work.PurgeTenant? ==> work.tenant !in s.policies)
  }

  /** The order in which the database returned the rows of the work's UPDATE. */
  predicate Visits(t: Rows, work: Work, order: seq<Id>) {
    match work
    case RevokeMember(tenant, user) => ListsExactly(order, RevokeHits(t, tenant, user))
    case DisableMember(tenant, user) => ListsExactly(order, DisableHits(t, tenant, user))
    case PurgeTenant(_) => order == []
  }

  /** The whole effect of a piece of work. A delegator who leaves, and a purged tenant, are
      silent; a delegate who leaves is announced; a disabled one also escalated. */
  function Performed(s: Store, work: Work, now: Time, order: seq<Id>): Store
    requires Visits(s.rows, work, order)
  {
    match work
    case RevokeMember(tenant, user) =>
      s.(rows := RevokeAll(s.rows, tenant, user, now),
         outbox := s.outbox + BulkEvents(s.rows, user, order, [EndedBy(DelegateRemoved)]))
    case DisableMember(tenant, user) =>
      s.(rows := DisableAll(s.rows, tenant, user), outbox := s.outbox + BulkEvents(s.rows, user, order, DISABLED_KINDS))
    case PurgeTenant(tenant) => s.(rows := ScrubAll(s.rows, tenant, now), policies := s.policies - {tenant})
  }

  lemma {:induction false} FirstIsListed(order: seq<Id>)
    ensures order == [] || exists id :: id in order
  {
    if order != [] {
      assert order[0] in order;
    }
  }

  lemma {:induction false} WorkChangesWhatItHits(s: Store, work: Work, now: Time, order: seq<Id>, id: Id)
    requires Visits(s.rows, work, order) && id in s.rows && Hits(work, s.rows[id])
    ensures Performed(s, work, now, order).rows[id] != s.rows[id]
  {
  }

  /** Exactly then performing it changes nothing and announces nothing. */
  lemma {:induction false} IdleWork(s: Store, work: Work, now: Time, order: seq<Id>)
    requires Visits(s.rows, work, order)
    ensures Performed(s, work, now, order) == s <==> Idle(s, work)
  {
    if Idle(s, work) {
      FirstIsListed(order);
      assert Performed(s, work, now, order).rows == s.rows;
      assert s.outbox + [] == s.outbox;
    } else if id :| id in s.rows && Hits(work, s.rows[id]) {
      WorkChangesWhatItHits(s, work, now, order, id);
    } else {
      assert work.tenant in s.policies;
    }
  }

  /** Once performed, there is nothing left to do. */
  lemma {:induction false} PerformedIsIdle(s: Store, work: Work, now: Time, order: seq<Id>)
    requires Visits(s.rows, work, order)
    ensures Idle(Performed(s, work, now, order), work)
  {
  }

  /** And no other cascade gives it anything to do again. */
  lemma {:induction false} IdleStays(s: Store, work: Work, other: Work, now: Time, order: seq<Id>)
    requires Idle(s, work) && Visits(s.rows, other, order)
    ensures Idle(Performed(s, other, now, order), work)
  {
    var t := Performed(s, other, now, order);
    forall id | id in t.rows ensures !Hits(work, t.rows[id]) {
      assert !Hits(work, s.rows[id]);
    }
  }

  // ---------------------------------------------------------------- the three effects, field by field

  /** What one cascade adds to the outbox: these kinds for each of these rows, naming its parties. */
  ghost predicate Announces(s: Store, t: Store, ids: set<Id>, kinds: seq<Kind>) {
    && s.outbox <= t.outbox
    && (forall id :: Project(t.outbox[|s.outbox|..], id) == if id in ids then kinds else [])
    && (forall e :: e in t.outbox[|s.outbox|..] ==>
          e.id in s.rows && e.tenant == s.rows[e.id].tenant
          && e.delegator == s.rows[e.id].delegator && e.delegate == s.rows[e.id].delegate)
  }

  /** A member left: every live row on either side is ended and soft-deleted, and the rows in
      which the member stood in for somebody are announced, once each. */
  ghost predicate MemberGone(s: Store, t: Store, tenant: Id, user: Id, now: Time) {
    var live := set id | id in s.rows && s.rows[id].tenant == tenant && s.rows[id].deletedAt.None?
                           && (s.rows[id].status == Active || s.rows[id].status == Scheduled);
    && t.policies == s.policies && t.rows.Keys == s.rows.Keys
    && (forall id :: id in s.rows ==>
          t.rows[id] == if id in live && (s.rows[id].delegator == user || s.rows[id].delegate == user)
                        then s.rows[id].(status := Ended, deletedAt := Some(now), version := s.rows[id].version + 1)
                        else s.rows[id])
    && Announces(s, t, set id | id in live && s.rows[id].delegate == user, [EndedBy(DelegateRemoved)])
  }

  /** A delegate was disabled: the live rows in which they stand in are ended, not deleted,
      announced and then escalated. */
  ghost predicate DelegateOut(s: Store, t: Store, tenant: Id, user: Id) {
    var live := set id | id in s.rows && s.rows[id].tenant == tenant && s.rows[id].delegate == user && s.rows[id].deletedAt.None?
                           && (s.rows[id].status == Active || s.rows[id].status == Scheduled);
    && t.policies == s.policies && t.rows.Keys == s.rows.Keys
    && (forall id :: id in s.rows ==>
          t.rows[id] == if id in live then s.rows[id].(status := Ended, version := s.rows[id].version + 1) else s.rows[id])
    && Announces(s, t, live, [EndedBy(DelegateDisabled), EscalationRequested])
  }

  /** A tenant was purged: its rows are soft-deleted whatever their status, its policy is
      dropped, and nobody is told. */
  ghost predicate TenantGone(s: Store, t: Store, tenant: Id, now: Time) {
    && t.policies == s.policies - {tenant} && t.outbox == s.outbox && t.rows.Keys == s.rows.Keys
    && (forall id :: id in s.rows ==>
          t.rows[id] == if s.rows[id].tenant == tenant && s.rows[id].deletedAt.None?
                        then s.rows[id].(deletedAt := Some(now), version := s.rows[id].version + 1)
                        else s.rows[id])
  }

  lemma {:induction false} BulkAnnounces(s: Store, t: Store, user: Id, order: seq<Id>, kinds: seq<Kind>, ids: set<Id>)
    requires Keyed(s.rows) && forall i, j :: 0 <= i < j < |order| ==> order[i] != order[j]
    requires forall id :: id in order ==> id in s.rows
    requires forall id :: id in ids <==> id in order && s.rows[id].delegate == user
    requires t.outbox == s.outbox + BulkEvents(s.rows, user, order, kinds)
    ensures Announces(s, t, ids, kinds)
  {
    var more := BulkEvents(s.rows, user, order, kinds);
    assert t.outbox[|s.outbox|..] == more;
    forall id ensures Project(more, id) == if id in ids then kinds else [] {
      BulkProject(s.rows, user, order, kinds, id);
    }
    forall e | e in more
      ensures e.id in s.rows && e.tenant == s.rows[e.id].tenant
      ensures e.delegator == s.rows[e.id].delegator && e.delegate == s.rows[e.id].delegate
    {
      BulkAbout(s.rows, user, order, kinds, e);
    }
  }

  lemma {:induction false} RevokedRow(t: Rows, tenant: Id, user: Id, now: Time, id: Id)
    requires id in t
    ensures RevokeAll(t, tenant, user, now)[id]
         == if t[id].tenant == tenant && t[id].deletedAt.None? && (t[id].status == Active || t[id].status == Scheduled)
               && (t[id].delegator == user || t[id].delegate == user)
            then t[id].(status := Ended, deletedAt := Some(now), version := t[id].version + 1)
            else t[id]
  {
  }

  lemma {:induction false} RevocationEffect(s: Store, tenant: Id, user: Id, now: Time, order: seq<Id>)
    requires Keyed(s.rows) && Visits(s.rows, RevokeMember(tenant, user), order)
    ensures MemberGone(s, Performed(s, RevokeMember(tenant, user), now, order), tenant, user, now)
  {
    var t := Performed(s, RevokeMember(tenant, user), now, order);
    var live := set id | id in s.rows && s.rows[id].tenant == tenant && s.rows[id].deletedAt.None?
                           && (s.rows[id].status == Active || s.rows[id].status == Scheduled);
    var told := set id | id in live && s.rows[id].delegate == user;
    assert forall id :: id in told <==> id in order && s.rows[id].delegate == user;
    BulkAnnounces(s, t, user, order, [EndedBy(DelegateRemoved)], told);
    forall id | id in s.rows
      ensures t.rows[id] == if id in live && (s.rows[id].delegator == user || s.rows[id].delegate == user)
                            then s.rows[id].(status := Ended, deletedAt := Some(now), version := s.rows[id].version + 1)
                            else s.rows[id]
    {
      RevokedRow(s.rows, tenant, user, now, id);
    }
  }

  lemma {:induction false} DisablingEffect(s: Store, tenant: Id, user: Id, now: Time, order: seq<Id>)
    requires Keyed(s.rows) && Visits(s.rows, DisableMember(tenant, user), order)
    ensures DelegateOut(s, Performed(s, DisableMember(tenant, user), now, order), tenant, user)
  {
    var live := set id | id in s.rows && s.rows[id].tenant == tenant && s.rows[id].delegate == user && s.rows[id].deletedAt.None?
                           && (s.rows[id].status == Active || s.rows[id].status == Scheduled);
    BulkAnnounces(s, Performed(s, DisableMember(tenant, user), now, order), user, order,
                  [EndedBy(DelegateDisabled), EscalationRequested], live);
  }

  lemma {:induction false} PurgeEffect(s: Store, tenant: Id, now: Time)
    ensures TenantGone(s, Performed(s, PurgeTenant(tenant), now, []), tenant, now)
  {
  }

  function StepOf(work: Work, now: Time, order: seq<Id>): Step {
    match work
    case RevokeMember(tenant, user) => Step.RevokeUser(tenant, user, now, order)
    case DisableMember(tenant, user) => Step.DisableDelegate(tenant, user, order)
    case PurgeTenant(tenant) => Step.ScrubTenant(tenant, now)
  }

  /** A cascade is one step of the lifecycle, so the theorems about runs cover it. */
  lemma {:induction false} WorkIsAStep(s: State, ledger: set<LedgerKey>, work: Work, now: Time, order: seq<Id>)
    requires Visits(s.rows, work, order)
    ensures Enabled(s, StepOf(work, now, order))
    ensures var t := Apply(s, StepOf(work, now, order));
            Performed(Store(s.rows, s.outbox, s.policies, ledger), work, now, order) == Store(t.rows, t.outbox, t.policies, ledger)
  {
    assert s.outbox + [] == s.outbox;
  }

  /** How a call in or out of a transaction leaves it: joined calls commit nothing, and a
      failed call of its own leaves no trace. */
  ghost predicate Settled(err: bool, tx: Option<Store>, durable: Store, tx': Option<Store>, durable': Store) {
    && (tx'.Some? <==> tx.Some?)
    && (tx.Some? || err ==> durable' == durable)
  }

  /** The pointer clears that follow a revocation: one for the delegator of each ended row,
      unless that is the member who left. */
  function ClearsOf(t: Rows, tenant: Id, user: Id, order: seq<Id>): seq<UpCall>
    requires forall id :: id in order ==> id in t
  {
    if order == [] then []
    else
      var d := t[order[|order| - 1]];
      ClearsOf(t, tenant, user, order[..|order| - 1]) + if d.delegator == user then [] else [ClearPointer(tenant, d.delegator)]
  }

  lemma {:induction false} ClearsOfOthers(t: Rows, tenant: Id, user: Id, order: seq<Id>, call: UpCall)
    requires forall id :: id in order ==> id in t
    ensures call in ClearsOf(t, tenant, user, order) <==>
              exists id :: id in order && t[id].delegator != user && call == ClearPointer(tenant, t[id].delegator)
  {
    if order != [] {
      var front, last := order[..|order| - 1], order[|order| - 1];
      assert order == front + [last];
      ClearsOfOthers(t, tenant, user, front, call);
      if id :| id in order && t[id].delegator != user && call == ClearPointer(tenant, t[id].delegator) {
        assert id in front || id == last;
      }
    }
  }

  class CascadeService {
    const db: Database
    ghost var attempted: seq<UpCall>

    constructor (db: Database)
      ensures this.db == db && attempted == []
    {
      this.db, attempted := db, [];
    }

    /** Announces the listed rows, one after the other, with these kinds. */
    method EnqueueEach(tenant: Id, user: Id, order: seq<Id>, kinds: seq<Kind>, ghost before: Rows) returns (failed: bool)
      requires db.tx.Some? && Keyed(before)
      requires forall id :: id in order ==> id in before && id in db.tx.value.rows && SameTerms(before[id], db.tx.value.rows[id])
      requires forall id :: id in order ==> before[id].tenant == tenant
      modifies db`tx
      ensures db.tx.Some?
      ensures !failed ==> db.tx.value == old(db.tx.value).(outbox := old(db.tx.value.outbox) + BulkEvents(before, user, order, kinds))
      ensures db.healthy ==> !failed
    {
      failed := false;
      var i := 0;
      while i < |order| && !failed
        invariant 0 <= i <= |order| && db.tx.Some? && (db.healthy ==> !failed)
        invariant !failed ==>
                    db.tx.value == old(db.tx.value).(outbox := old(db.tx.value.outbox) + BulkEvents(before, user, order[..i], kinds))
      {
        var d := db.tx.value.rows[order[i]];
        assert order[..i + 1][..i] == order[..i];
        if d.delegate == user {
          failed := EnqueueKinds(tenant, d, kinds, before[order[i]]);
        }
        i := i + 1;
      }
      assert order[..|order|] == order;
    }

    method EnqueueKinds(tenant: Id, d: Row, kinds: seq<Kind>, ghost before: Row) returns (failed: bool)
      requires db.tx.Some? && SameTerms(before, d) && d.tenant == tenant
      modifies db`tx
      ensures db.tx.Some?
      ensures !failed ==> db.tx.value == old(db.tx.value).(
                outbox := old(db.tx.value.outbox) + seq(|kinds|, i requires 0 <= i < |kinds| => About(before, kinds[i])))
      ensures db.healthy ==> !failed
    {
      failed := false;
      var k := 0;
      while k < |kinds| && !failed
        invariant 0 <= k <= |kinds| && db.tx.Some? && (db.healthy ==> !failed)
        invariant !failed ==>
                    db.tx.value == old(db.tx.value).(outbox := old(db.tx.value.outbox) + seq(k, i requires 0 <= i < k => About(before, kinds[i])))
      {
        failed := db.Enqueue(Event(d.id, tenant, kinds[k], d.delegator, d.delegate));
        k := k + 1;
      }
    }

    /** Tells User Profile about each ended row; whether a call succeeds does not matter. */
    method ClearPointers(tenant: Id, user: Id, order: seq<Id>, ghost before: Rows)
      requires forall id :: id in order ==> id in before && id in db.View().rows && SameTerms(before[id], db.View().rows[id])
      modifies this`attempted
      ensures attempted == old(attempted) + ClearsOf(before, tenant, user, order)
    {
      var i := 0;
      while i < |order|
        invariant 0 <= i <= |order|
        invariant attempted == old(attempted) + ClearsOf(before, tenant, user, order[..i])
      {
        var d := db.View().rows[order[i]];
        assert order[..i + 1][..i] == order[..i];
        if d.delegator != user {
          attempted := attempted + [ClearPointer(tenant, d.delegator)];
        }
        i := i + 1;
      }
      assert order[..|order|] == order;
    }

    method EndForUser(tenant: Id, user: Id, now: Time) returns (err: bool, ghost order: seq<Id>)
      requires Keyed(db.View().rows)
      modifies db, this`attempted
      ensures Settled(err, old(db.tx), old(db.durable), db.tx, db.durable)
      ensures !err ==>
                && Visits(old(db.View()).rows, RevokeMember(tenant, user), order)
                && db.View() == Performed(old(db.View()), RevokeMember(tenant, user), now, order)
                && attempted == old(attempted) + ClearsOf(old(db.View()).rows, tenant, user, order)
      // exactly the other delegators' pointers are cleared
      ensures !err ==> old(attempted) <= attempted && forall call :: call in attempted[|old(attempted)|..] <==>
                exists id :: id in old(db.View()).rows && HitByRevoke(old(db.View()).rows[id], tenant, user)
                  && old(db.View()).rows[id].delegator != user && call == ClearPointer(tenant, old(db.View()).rows[id].delegator)
      ensures err ==> attempted == old(attempted)
      ensures db.healthy ==> !err
    {
      order := [];
      var joined := db.Enter();
      ghost var before := db.tx.value;
      var rows := db.EndForUser(tenant, user, now);
      err := rows.Err?;
      if rows.Ok? {
        order := rows.value;
        err := EnqueueEach(tenant, user, rows.value, [EndedBy(DelegateRemoved)], before.rows);
      }
      err := db.Leave(joined, err);
      if !err {
        ClearPointers(tenant, user, rows.value, before.rows);
        assert attempted[|old(attempted)|..] == ClearsOf(before.rows, tenant, user, order);
        forall call ensures call in ClearsOf(before.rows, tenant, user, order) <==>
          exists id :: id in before.rows && HitByRevoke(before.rows[id], tenant, user)
            && before.rows[id].delegator != user && call == ClearPointer(tenant, before.rows[id].delegator)
        {
          ClearsOfOthers(before.rows, tenant, user, order, call);
        }
      }
    }

    /** Neither soft-deletes nor clears pointers: the delegate is still a member, and User
        Profile has already cleared them. */
    method EndForDisabledDelegate(tenant: Id, user: Id, now: Time) returns (err: bool, ghost order: seq<Id>)
      requires Keyed(db.View().rows)
      modifies db
      ensures Settled(err, old(db.tx), old(db.durable), db.tx, db.durable)
      ensures !err ==>
                && Visits(old(db.View()).rows, DisableMember(tenant, user), order)
                && db.View() == Performed(old(db.View()), DisableMember(tenant, user), now, order)
      ensures db.healthy ==> !err
    {
      order := [];
      var joined := db.Enter();
      ghost var before := db.tx.value;
      var rows := db.EndForDisabledDelegate(tenant, user);
      err := rows.Err?;
      if rows.Ok? {
        order := rows.value;
        err := EnqueueEach(tenant, user, rows.value, DISABLED_KINDS, before.rows);
      }
      err := db.Leave(joined, err);
    }

    method ScrubTenant(tenant: Id, now: Time) returns (err: bool)
      modifies db
      ensures Settled(err, old(db.tx), old(db.durable), db.tx, db.durable)
      ensures !err ==> db.View() == Performed(old(db.View()), PurgeTenant(tenant), now, [])
      ensures db.healthy ==> !err
    {
      var joined := db.Enter();
      err := db.SoftDeleteTenant(tenant, now);
      if !err {
        err := db.SoftDeletePolicy(tenant);
      }
      err := db.Leave(joined, err);
    }
  }
}
