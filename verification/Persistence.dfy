/** The Postgres side: join-or-begin transactions and the repository statements, each an
    in-place change of the store and each proved against Table. Any statement, enqueue or
    commit may fail; a `healthy` database never does. */
module Persistence {
  import opened Domain
  import opened Table

  datatype Consumer = Cascade | Offboarding | DelegateDisable

  datatype LedgerKey = LedgerKey(consumer: Consumer, event: string)

  datatype Store = Store(rows: Rows, outbox: seq<Event>, policies: map<Id, Policy>, ledger: set<LedgerKey>)

  const EMPTY_STORE := Store(map[], [], map[], {})

  function PolicyOf(policies: map<Id, Policy>, tenant: Id): Policy {
    if tenant in policies then policies[tenant] else DEFAULT_POLICY
  }

  class Database {
    const healthy: bool
    var durable: Store
    var tx: Option<Store>

    constructor (healthy: bool)
      ensures tx.None? && durable == EMPTY_STORE && this.healthy == healthy
    {
      this.healthy := healthy;
      tx := None;
      durable := EMPTY_STORE;
    }

    /** What a statement issued now sees: the ambient transaction, or else what is durable. */
    function View(): Store
      reads this
    {
      if tx.Some? then tx.value else durable
    }

    /** Whether the next database round trip fails. */
    method Fault() returns (down: bool)
      ensures healthy ==> !down
    {
      down := *;
      if healthy {
        down := false;
      }
    }

    /** The opening half of RunInTx and withPool: join the ambient transaction or begin one. */
    method Enter() returns (joined: bool)
      modifies this`tx
      ensures joined <==> old(tx).Some?
      ensures tx == Some(if old(tx).Some? then old(tx).value else durable)
    {
      joined := tx.Some?;
      if !joined {
        tx := Some(durable);
      }
    }

    /** The closing half: a joined call passes its error on; the outermost one commits or
        rolls back, and a failed commit is reported. */
    method Leave(joined: bool, failed: bool) returns (err: bool)
      requires tx.Some?
      modifies this
      ensures joined ==> err == failed && tx == old(tx) && durable == old(durable)
      ensures !joined ==> tx.None? && durable == if err then old(durable) else old(tx).value
      ensures failed ==> err
      ensures healthy && !failed ==> !err
    {
      err := failed;
      if !joined {
        if !failed {
          err := Fault();
        }
        if !err {
          durable := tx.value;
        }
        tx := None;
      }
    }

    /** EnqueueCtx: one more outbox entry in the ambient transaction. */
    method Enqueue(e: Event) returns (failed: bool)
      requires tx.Some?
      modifies this`tx
      ensures tx == if failed then old(tx) else Some(old(tx).value.(outbox := old(tx).value.outbox + [e]))
      ensures healthy ==> !failed
    {
      failed := Fault();
      if !failed {
        tx := Some(tx.value.(outbox := tx.value.outbox + [e]));
      }
    }

    method Insert(row: Row) returns (r: Result<Row>)
      requires tx.Some?
      modifies this`tx
      ensures r == Err(DbUnavailable)
           || r == if row.id !in old(tx).value.rows && Checks(row) then Ok(row) else Err(ConstraintViolation)
      ensures tx == if r.Ok? then Some(old(tx).value.(rows := old(tx).value.rows[row.id := row])) else old(tx)
      ensures healthy ==> r != Err(DbUnavailable)
    {
      var down := Fault();
      if down { return Err(DbUnavailable); }
      if row.id in tx.value.rows || !Checks(row) { return Err(ConstraintViolation); }
      tx := Some(tx.value.(rows := tx.value.rows[row.id := row]));
      r := Ok(row);
    }

    method End(tenant: Id, id: Id, status: Status, version: int) returns (r: Result<Row>)
      requires tx.Some?
      modifies this`tx
      ensures r != Err(DbUnavailable) ==> (r.Ok? <==> Endable(old(tx).value.rows, tenant, id, version))
      ensures r.Ok? ==>
                && r.value == Close(old(tx).value.rows[id], status)
                && tx == Some(old(tx).value.(rows := old(tx).value.rows[id := r.value]))
      ensures r.Err? ==> tx == old(tx)
      ensures r.Err? && r != Err(DbUnavailable) ==> r.error == Probe(old(tx).value.rows, tenant, id)
      ensures healthy ==> r != Err(DbUnavailable)
    {
      var down := Fault();
      if down { return Err(DbUnavailable); }
      var rows := tx.value.rows;
      if id in rows && rows[id].tenant == tenant && rows[id].version == version && rows[id].deletedAt.None?
         && rows[id].status in {Active, Scheduled}
      {
        rows := Put(rows, id, rows[id].(status := status));
        tx := Some(tx.value.(rows := rows));
        r := Ok(rows[id]);
      } else {
        r := Err(Probe(rows, tenant, id));
      }
    }

    /** Unlike End, a statement that matched nothing is not an error. */
    method ActivateRow(tenant: Id, id: Id, version: int) returns (r: Result<Option<Row>>)
      requires tx.Some?
      modifies this`tx
      ensures r.Err? ==> r.error == DbUnavailable && tx == old(tx)
      ensures r.Ok? ==> (r.value.Some? <==> Activatable(old(tx).value.rows, tenant, id, version))
      ensures r.Ok? && r.value.None? ==> tx == old(tx)
      ensures r.Ok? && r.value.Some? ==>
                r.value.value == Activated(old(tx).value.rows[id])
                && tx == Some(old(tx).value.(rows := old(tx).value.rows[id := r.value.value]))
      ensures healthy ==> r.Ok?
    {
      var down := Fault();
      if down { return Err(DbUnavailable); }
      var rows := tx.value.rows;
      if id in rows && rows[id].tenant == tenant && rows[id].version == version && rows[id].deletedAt.None?
         && rows[id].status == Scheduled
      {
        rows := Put(rows, id, rows[id].(status := Active));
        tx := Some(tx.value.(rows := rows));
        r := Ok(Some(rows[id]));
      } else {
        r := Ok(None);
      }
    }

    method ExtendReview(tenant: Id, id: Id, days: int, version: int) returns (r: Result<Row>)
      requires tx.Some?
      modifies this`tx
      ensures r != Err(DbUnavailable) ==> (r.Ok? <==> Extendable(old(tx).value.rows, tenant, id, version) && 1 <= days <= 180)
      ensures r.Ok? ==>
                && r.value == Extended(old(tx).value.rows[id], days)
                && tx == Some(old(tx).value.(rows := old(tx).value.rows[id := r.value]))
      ensures r.Err? ==> tx == old(tx)
      ensures r.Err? && r != Err(DbUnavailable) ==>
                r.error == if Extendable(old(tx).value.rows, tenant, id, version) then ConstraintViolation else ProbeExtend(old(tx).value.rows, tenant, id)
      ensures healthy ==> r != Err(DbUnavailable)
    {
      var down := Fault();
      if down { return Err(DbUnavailable); }
      var rows := tx.value.rows;
      if id in rows && rows[id].tenant == tenant && rows[id].version == version && rows[id].deletedAt.None?
         && rows[id].status == Active && rows[id].endsAt.None?
      {
        if days < 1 || days > 180 { return Err(ConstraintViolation); }
        var due := PushedBack(rows[id].reviewDueAt, days);
        rows := Put(rows, id, rows[id].(reviewDueAt := due, bucket := None, windowDays := Some(days)));
        tx := Some(tx.value.(rows := rows));
        r := Ok(rows[id]);
      } else {
        r := Err(ProbeExtend(rows, tenant, id));
      }
    }

    method MarkReviewWarned(tenant: Id, id: Id, days: int, version: int) returns (r: Option<Error>)
      requires tx.Some?
      modifies this`tx
      ensures r != Some(DbUnavailable) ==> (r.None? <==> Warnable(old(tx).value.rows, tenant, id, version) && 1 <= days <= 3)
      ensures r.None? ==> tx == Some(old(tx).value.(rows := old(tx).value.rows[id := Warned(old(tx).value.rows[id], days)]))
      ensures r.Some? ==> tx == old(tx)
      ensures r.Some? && r.value != DbUnavailable ==>
                r.value == if Warnable(old(tx).value.rows, tenant, id, version) then ConstraintViolation else Probe(old(tx).value.rows, tenant, id)
      ensures healthy ==> r != Some(DbUnavailable)
    {
      var down := Fault();
      if down { return Some(DbUnavailable); }
      var rows := tx.value.rows;
      if id in rows && rows[id].tenant == tenant && rows[id].version == version && rows[id].deletedAt.None?
         && rows[id].status == Active
      {
        if days < 1 || days > 3 { return Some(ConstraintViolation); }
        tx := Some(tx.value.(rows := Put(rows, id, rows[id].(bucket := Some(days)))));
        r := None;
      } else {
        r := Some(Probe(rows, tenant, id));
      }
    }

    /** Ends and soft-deletes every live delegation the user takes part in; the ids come back
        in the order the database visited them. */
    method EndForUser(tenant: Id, user: Id, now: Time) returns (r: Result<seq<Id>>)
      requires tx.Some?
      modifies this`tx
      ensures r.Err? ==> r.error == DbUnavailable && tx == old(tx)
      ensures r.Ok? ==> ListsExactly(r.value, RevokeHits(old(tx).value.rows, tenant, user))
      ensures r.Ok? ==> tx == Some(old(tx).value.(rows := RevokeAll(old(tx).value.rows, tenant, user, now)))
      ensures healthy ==> r.Ok?
    {
      var down := Fault();
      if down { return Err(DbUnavailable); }
      var rows, out, todo := tx.value.rows, [], RevokeHits(tx.value.rows, tenant, user);
      ghost var was, hits := rows, todo;
      while todo != {}
        invariant todo <= hits && rows.Keys == was.Keys
        invariant forall id :: id in was ==>
                    rows[id] == if id in hits && id !in todo then Revoked(was[id], now) else was[id]
        invariant ListsExactly(out, hits - todo)
        decreases todo
      {
        var id :| id in todo;
        rows := Put(rows, id, rows[id].(status := Ended, deletedAt := Some(now)));
        out, todo := out + [id], todo - {id};
      }
      assert rows == RevokeAll(was, tenant, user, now);
      tx := Some(tx.value.(rows := rows));
      r := Ok(out);
    }

    /** Ends, without soft-deleting, every live delegation the user was to stand in for. */
    method EndForDisabledDelegate(tenant: Id, user: Id) returns (r: Result<seq<Id>>)
      requires tx.Some?
      modifies this`tx
      ensures r.Err? ==> r.error == DbUnavailable && tx == old(tx)
      ensures r.Ok? ==> ListsExactly(r.value, DisableHits(old(tx).value.rows, tenant, user))
      ensures r.Ok? ==> tx == Some(old(tx).value.(rows := DisableAll(old(tx).value.rows, tenant, user)))
      ensures healthy ==> r.Ok?
    {
      var down := Fault();
      if down { return Err(DbUnavailable); }
      var rows, out, todo := tx.value.rows, [], DisableHits(tx.value.rows, tenant, user);
      ghost var was, hits := rows, todo;
      while todo != {}
        invariant todo <= hits && rows.Keys == was.Keys
        invariant forall id :: id in was ==>
                    rows[id] == if id in hits && id !in todo then Close(was[id], Ended) else was[id]
        invariant ListsExactly(out, hits - todo)
        decreases todo
      {
        var id :| id in todo;
        rows := Put(rows, id, rows[id].(status := Ended));
        out, todo := out + [id], todo - {id};
      }
      assert rows == DisableAll(was, tenant, user);
      tx := Some(tx.value.(rows := rows));
      r := Ok(out);
    }

    method SoftDeleteTenant(tenant: Id, now: Time) returns (failed: bool)
      requires tx.Some?
      modifies this`tx
      ensures tx == if failed then old(tx) else Some(old(tx).value.(rows := ScrubAll(old(tx).value.rows, tenant, now)))
      ensures healthy ==> !failed
    {
      failed := Fault();
      if failed { return; }
      var rows, todo := tx.value.rows, set id | id in tx.value.rows && HitByScrub(tx.value.rows[id], tenant);
      ghost var was, hits := rows, todo;
      while todo != {}
        invariant todo <= hits && rows.Keys == was.Keys
        invariant forall id :: id in was ==>
                    rows[id] == if id in hits && id !in todo then Scrubbed(was[id], now) else was[id]
        decreases todo
      {
        var id :| id in todo;
        rows := Put(rows, id, rows[id].(deletedAt := Some(now)));
        todo := todo - {id};
      }
      assert rows == ScrubAll(was, tenant, now);
      tx := Some(tx.value.(rows := rows));
    }

    /** The policy table has no deleted_at: purging a tenant deletes its row. */
    method SoftDeletePolicy(tenant: Id) returns (failed: bool)
      requires tx.Some?
      modifies this`tx
      ensures tx == if failed then old(tx) else Some(old(tx).value.(policies := old(tx).value.policies - {tenant}))
      ensures healthy ==> !failed
    {
      failed := Fault();
      if !failed {
        tx := Some(tx.value.(policies := tx.value.policies - {tenant}));
      }
    }

    method UpsertPolicy(tenant: Id, policy: Policy) returns (failed: bool)
      requires tx.Some?
      modifies this`tx
      ensures tx == if failed then old(tx) else Some(old(tx).value.(policies := old(tx).value.policies[tenant := policy]))
      ensures healthy ==> !failed
    {
      failed := Fault();
      if !failed {
        tx := Some(tx.value.(policies := tx.value.policies[tenant := policy]));
      }
    }

    /** INSERT ... ON CONFLICT DO NOTHING. */
    method MarkProcessed(key: LedgerKey) returns (failed: bool)
      requires tx.Some?
      modifies this`tx
      ensures tx == if failed then old(tx) else Some(old(tx).value.(ledger := old(tx).value.ledger + {key}))
      ensures healthy ==> !failed
    {
      failed := Fault();
      if !failed && key !in tx.value.ledger {
        tx := Some(tx.value.(ledger := tx.value.ledger + {key}));
      } else if !failed {
        assert tx.value.ledger + {key} == tx.value.ledger;
      }
    }

    method IsProcessed(key: LedgerKey) returns (r: Result<bool>)
      ensures r.Ok? ==> r.value == (key in View().ledger)
      ensures healthy ==> r.Ok?
    {
      var down := Fault();
      r := if down then Err(DbUnavailable) else Ok(key in View().ledger);
    }

    method FindByID(tenant: Id, id: Id) returns (r: Result<Row>)
      ensures r == Err(DbUnavailable) || r == Find(View().rows, tenant, id)
      ensures healthy ==> r != Err(DbUnavailable)
    {
      var down := Fault();
      r := if down then Err(DbUnavailable) else Find(View().rows, tenant, id);
    }

    /** The policy row of the tenant, or the 90/90 default. */
    method GetPolicy(tenant: Id) returns (r: Result<Policy>)
      ensures r == Err(DbUnavailable) || r == Ok(PolicyOf(View().policies, tenant))
      ensures healthy ==> r.Ok?
    {
      var down := Fault();
      r := if down then Err(DbUnavailable) else Ok(PolicyOf(View().policies, tenant));
    }

    /** A sweep's ordered, bounded selection: repeatedly the earliest row not taken yet. */
    method Select(q: Query, limit: nat) returns (out: seq<Row>)
      requires forall id :: id in View().rows ==> View().rows[id].id == id
      ensures IsSelection(View().rows, q, limit, out)
    {
      var rows, todo := View().rows, Matches(View().rows, q);
      out := [];
      while |out| < limit && todo != {}
        invariant Taken(rows, Matches(rows, q), todo, out) && SortedSoFar(rows, q, todo, out)
        invariant |out| <= limit
        decreases todo
      {
        var best := Earliest(rows, q, todo);
        TakeOne(rows, Matches(rows, q), todo, out, best);
        SortedOne(rows, q, todo, out, best);
        out, todo := out + [rows[best]], todo - {best};
      }
      SelectionDone(rows, q, limit, todo, out);
    }

    method ListByDelegator(tenant: Id, delegator: Id) returns (r: Result<seq<Row>>)
      requires forall id :: id in View().rows ==> View().rows[id].id == id
      ensures r.Ok? ==> IsListing(View().rows, tenant, delegator, r.value)
      ensures healthy ==> r.Ok?
    {
      var down := Fault();
      if down { return Err(DbUnavailable); }
      var rows, todo := View().rows, Listed(View().rows, tenant, delegator);
      var out: seq<Row> := [];
      while todo != {}
        invariant Taken(rows, Listed(rows, tenant, delegator), todo, out) && LatestSoFar(rows, todo, out)
        decreases todo
      {
        var latest := Latest(rows, todo);
        TakeOne(rows, Listed(rows, tenant, delegator), todo, out, latest);
        out, todo := out + [rows[latest]], todo - {latest};
      }
      r := Ok(out);
    }
  }

  /** `out` holds the rows of `all` that are no longer in `todo`, each once. */
  ghost predicate Taken(rows: Rows, all: set<Id>, todo: set<Id>, out: seq<Row>) {
    && todo <= all <= rows.Keys
    && (forall i :: 0 <= i < |out| ==> out[i].id in all - todo && rows[out[i].id] == out[i])
    && (forall i, j :: 0 <= i < j < |out| ==> out[i].id != out[j].id)
    && (forall id :: id in all - todo ==> Has(out, id))
  }

  lemma {:induction false} TakeOne(rows: Rows, all: set<Id>, todo: set<Id>, out: seq<Row>, id: Id)
    requires Taken(rows, all, todo, out) && id in todo && rows[id].id == id
    ensures Taken(rows, all, todo - {id}, out + [rows[id]])
  {
    forall x | x in all - (todo - {id}) ensures Has(out + [rows[id]], x) {
      HasSnoc(out, rows[id], x);
    }
  }

  ghost predicate SortedSoFar(rows: Rows, q: Query, todo: set<Id>, out: seq<Row>)
    requires todo <= rows.Keys
  {
    && (forall i, j :: 0 <= i < j < |out| ==> SortKey(q, out[i]) <= SortKey(q, out[j]))
    && (forall i, id :: 0 <= i < |out| && id in todo ==> SortKey(q, out[i]) <= SortKey(q, rows[id]))
  }

  lemma {:induction false} SortedOne(rows: Rows, q: Query, todo: set<Id>, out: seq<Row>, best: Id)
    requires todo <= rows.Keys && SortedSoFar(rows, q, todo, out) && best in todo
    requires forall id :: id in todo ==> SortKey(q, rows[best]) <= SortKey(q, rows[id])
    ensures SortedSoFar(rows, q, todo - {best}, out + [rows[best]])
  {
  }

  lemma {:induction false} SelectionDone(rows: Rows, q: Query, limit: nat, todo: set<Id>, out: seq<Row>)
    requires Taken(rows, Matches(rows, q), todo, out) && SortedSoFar(rows, q, todo, out)
    requires |out| == limit || (|out| <= limit && todo == {})
    ensures IsSelection(rows, q, limit, out)
  {
    forall id | id in Matches(rows, q) && !Has(out, id) ensures id in todo {}
  }

  ghost predicate LatestSoFar(rows: Rows, todo: set<Id>, out: seq<Row>)
    requires todo <= rows.Keys
  {
    && (forall i, j :: 0 <= i < j < |out| ==> out[i].startsAt >= out[j].startsAt)
    && (forall i, id :: 0 <= i < |out| && id in todo ==> out[i].startsAt >= rows[id].startsAt)
  }

  method Earliest(rows: Rows, q: Query, ids: set<Id>) returns (best: Id)
    requires ids != {} && ids <= rows.Keys
    ensures best in ids && forall id :: id in ids ==> SortKey(q, rows[best]) <= SortKey(q, rows[id])
  {
    best :| best in ids;
    var todo := ids - {best};
    while todo != {}
      invariant todo <= ids && best in ids
      invariant forall id :: id in ids - todo ==> SortKey(q, rows[best]) <= SortKey(q, rows[id])
      decreases todo
    {
      var id :| id in todo;
      if SortKey(q, rows[id]) < SortKey(q, rows[best]) {
        best := id;
      }
      todo := todo - {id};
    }
  }

  method Latest(rows: Rows, ids: set<Id>) returns (best: Id)
    requires ids != {} && ids <= rows.Keys
    ensures best in ids && forall id :: id in ids ==> rows[best].startsAt >= rows[id].startsAt
  {
    best :| best in ids;
    var todo := ids - {best};
    while todo != {}
      invariant todo <= ids && best in ids
      invariant forall id :: id in ids - todo ==> rows[best].startsAt >= rows[id].startsAt
      decreases todo
    {
      var id :| id in todo;
      if rows[id].startsAt > rows[best].startsAt {
        best := id;
      }
      todo := todo - {id};
    }
  }
}
