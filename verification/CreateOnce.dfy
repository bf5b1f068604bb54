/** The idempotency envelope of DelegationService.Create, step by step: every path of the
    code is a path of the protocol in Idempotency, so its bounds hold of this code. */
module CreateOnce {
  import opened Domain
  import opened Lifecycle
  import opened Runs
  import opened Service
  import I = Idempotency

  /** A row the observed call inserts was never known before. */
  lemma {:induction false} InsertedIsNew(before: seq<Mark>, log: seq<Mark>, row: Row, pred: Option<(Id, Caller)>)
    requires TrueLog(log) && before <= log
    requires Commits(log) == Commits(before) + [Step.Create(row, pred)]
    ensures row.id !in Before(log, |before|).hist && row.id in Before(log, |log|).hist
  {
    if |before| == |log| {
      SameLengthPrefix(before, log);
    } else {
      var front, last := log[..|log| - 1], log[|log| - 1];
      forall k | 0 <= k < |front| ensures StepAt(front, k) { assert StepAt(log, k); }
      assert StepAt(log, |log| - 1);
      LogLater(front, |before|);
      if last.mine && Committing(last.step) {
        assert Commits(log)[|Commits(log)| - 1] == last.step;
      } else {
        InsertedIsNew(before, front, row, pred);
        StepKeeps(Before(front, |front|), last.step);
      }
    }
  }

  datatype Claim = Replay(row: Row) | InFlight | Go(holding: bool)

  class Envelope {
    const w: World
    const store: I.IdempotencyStore
    const key: I.StoreKey
    const self: I.Call
    var s: I.State
    ghost var run: seq<I.Step>

    constructor (w: World, store: I.IdempotencyStore, key: I.StoreKey, self: I.Call)
      requires w.Valid() && key !in store.records
      ensures Valid() && this.w == w && this.store == store && this.key == key && this.self == self && run == []
    {
      this.w, this.store, this.key, this.self := w, store, key, self;
      s, run := I.START, [];
    }

    /** The protocol state is where a run of the protocol has led, the store holds its key,
        and the rows it counts are rows of the database. */
    ghost predicate Valid()
      reads this, w, w.db, store
    {
      && w.Valid()
      && I.Legal(run) && s == I.Reach(run)
      && s.key == I.Stored(store.records, key)
      && I.Rows(s) <= w.hist.Keys
    }

    /** Accounts for a protocol step whose effect on the store has just happened. */
    method Take(step: I.Step)
      requires I.Legal(run) && s == I.Reach(run) && I.Enabled(s, step)
      modifies this
      ensures I.Legal(run) && s == I.Reach(run) && s == I.Apply(old(s), step)
    {
      run := I.Then(run, step);
      s := I.Apply(s, step);
    }

    predicate ByOthers(step: I.Step)
      reads this, w
    {
      match step
      case Expire => true
      case Commit(c, id, _) => c != self && id in w.hist
      case _ => step.c != self
    }

    method OtherStep(step: I.Step)
      requires Valid() && I.Enabled(s, step) && ByOthers(step)
      modifies this, store
      ensures Valid() && s == I.Apply(old(s), step)
    {
      Take(step);
      store.records := I.With(store.records, key, s.key);
    }

    /** What the protocol steps of others leave alone. */
    ghost predicate Since(before: I.State)
      reads this
    {
      self in before.calls && self in s.calls && s.calls[self] == before.calls[self] && I.Rows(before) <= I.Rows(s)
    }

    /** Any number of protocol steps of other calls, and expiries. */
    method Others()
      requires Valid() && self in s.calls
      modifies this, w, w.db, store
      ensures Valid() && old(w.log) <= w.log && Commits(w.log) == Commits(old(w.log)) && Since(old(s))
    {
      w.Interfere();
      OtherSteps();
    }

    method OtherSteps()
      requires Valid() && self in s.calls
      modifies this, store
      ensures Valid() && Since(old(s))
    {
      var n: nat := *;
      while n > 0
        invariant Valid() && Since(old(s))
      {
        var step: I.Step := *;
        if I.Enabled(s, step) && ByOthers(step) {
          OtherStep(step);
        }
        n := n - 1;
      }
    }

    /** Get, and for a finished key the replay of its delegation; None to go on. */
    method LookUp(tenant: Id) returns (claim: Option<Claim>)
      requires Valid() && I.IsAt(s, self, I.Arrived) && tenant == key.0
      modifies this, w, w.db, store
      ensures Valid() && old(w.log) <= w.log && Commits(w.log) == Commits(old(w.log))
      ensures claim.None? ==> I.IsAt(s, self, I.Reserving)
      ensures claim.Some? ==> Claimed(claim.value) && !claim.value.Go?
    {
      var err, rec, how := store.Get(key);
      Take(I.Get(self, how));
      if err || rec.None? { return None; }
      if rec.value.Pending? { return Some(InFlight); }
      Others();
      w.KeyedById();
      I.RunKeeps(run);
      assert I.Names(s.calls[self], rec.value.id);
      var found := w.db.FindByID(tenant, rec.value.id);
      Take(I.Find(self, found.Ok?));
      claim := if found.Ok? then Some(Replay(found.value)) else None;
    }

    ghost predicate Claimed(claim: Claim)
      reads this
    {
      match claim
      case Replay(row) => I.Succeeded(s, self, row.id)
      case InFlight => I.IsAt(s, self, I.Refused)
      case Go(holding) => I.IsAt(s, self, I.Creating(holding))
    }

    method Arrive()
      requires Valid() && self !in s.calls
      modifies this, w, w.db, store
      ensures Valid() && old(w.log) <= w.log && Commits(w.log) == Commits(old(w.log)) && I.IsAt(s, self, I.Arrived)
    {
      Take(I.Arrive(self));
      Others();
    }

    /** The front of Create: replay, refuse, or go on with or without the reservation. */
    method ClaimKey(tenant: Id) returns (claim: Claim)
      requires Valid() && self !in s.calls && tenant == key.0
      modifies this, w, w.db, store
      ensures Valid() && old(w.log) <= w.log && Commits(w.log) == Commits(old(w.log)) && Claimed(claim)
    {
      Arrive();
      var early := LookUp(tenant);
      if early.Some? { return early.value; }
      Others();
      claim := ReserveKey();
    }

    /** An unreachable store does not stop the create; a key somebody holds does. */
    method ReserveKey() returns (claim: Claim)
      requires Valid() && I.IsAt(s, self, I.Reserving)
      modifies this, store
      ensures Valid() && Claimed(claim)
    {
      var err, reserved, how := store.Reserve(key);
      Take(I.Reserve(self, how));
      claim := if !err && !reserved then InFlight else Go(!err);
    }

    /** The back of Create: remember the delegation, or give the reservation back. Neither
        can fail the call. */
    method Settle(r: Result<Row>, holding: bool)
      requires Valid() && self in s.calls
      requires s.calls[self] == if r.Ok? then I.Saving(r.value.id) else I.Abandon(holding)
      modifies this, w, w.db, store
      ensures Valid() && old(w.log) <= w.log && Commits(w.log) == Commits(old(w.log))
      ensures r.Ok? ==> I.Succeeded(s, self, r.value.id)
      ensures r.Err? ==> I.IsAt(s, self, I.Refused)
    {
      Others();
      if r.Ok? {
        var _, how := store.Save(key, r.value.id);
        Take(I.Save(self, how));
      } else if holding {
        var _, how := store.Release(key);
        Take(I.Release(self, how));
      }
    }

    /** World.Create as a protocol step. */
    method CreateStep(tenant: Id, delegator: Id, req: CreateInput, a: Answers, holding: bool) returns (r: Result<Row>)
      requires Valid() && I.IsAt(s, self, I.Creating(holding))
      modifies this, w, w.db
      ensures Valid() && old(w.log) <= w.log
      ensures Commits(w.log) == Commits(old(w.log)) + if r.Ok? then [Step.Create(r.value, None)] else []
      ensures self in s.calls && s.calls[self] == if r.Ok? then I.Saving(r.value.id) else I.Abandon(holding)
    {
      ghost var before := w.log;
      r := w.Create(tenant, delegator, req, a, None);
      w.HistoryGrows(|before|);
      if r.Ok? {
        InsertedIsNew(before, w.log, r.value, None);
        Take(I.Commit(self, r.value.id, false));
      } else {
        Take(I.GiveUp(self));
      }
    }

    /** DelegationService.Create with its Idempotency-Key. A success is a replay of a
        delegation committed under this key or the one row this call commits; whatever the
        outcome, the protocol state is where a run of the protocol leads, so the bounds on
        rows per key hold after it. */
    method Create(tenant: Id, delegator: Id, req: CreateInput, a: Answers) returns (r: Result<Row>)
      requires Valid() && self !in s.calls && tenant == key.0
      modifies this, w, w.db, store
      ensures Valid() && old(w.log) <= w.log
      ensures r.Ok? ==> I.Succeeded(s, self, r.value.id)
      ensures r.Err? ==> I.IsAt(s, self, I.Refused)
      ensures (|| Commits(w.log) == Commits(old(w.log))
               || (r.Ok? && Commits(w.log) == Commits(old(w.log)) + [Step.Create(r.value, None)]))
      ensures |I.Rows(s)| <= 1 + s.expiries + s.reserveErrors + s.lostCommits
    {
      var claim := ClaimKey(tenant);
      match claim {
        case Replay(row) => r := Ok(row);
        case InFlight => r := Err(KeyInFlight);
        case Go(holding) =>
          Others();
          r := CreateStep(tenant, delegator, req, a, holding);
          Settle(r, holding);
      }
      I.RowsPerKey(run);
    }
  }
}
