/** Nested RunInTx. A nested call joins the transaction already bound to the context, so
    however callbacks are nested the whole behaves as one flat transaction. */
module Transactions {
  import opened Domain
  import opened Persistence

  /** A callback that propagates errors: statements and nested RunInTx calls, in order. */
  datatype Callback =
    | ReturnNil
    | ReturnError
    | Statement(apply: Store -> Store, next: Callback)
    | RunInTx(inner: Callback, next: Callback)

  /** The statements of a callback in the order they run, nesting forgotten. */
  function Flat(body: Callback): seq<Store -> Store> {
    match body
    case ReturnNil => []
    case ReturnError => []
    case Statement(apply, next) => [apply] + Flat(next)
    case RunInTx(inner, next) => if Succeeds(inner) then Flat(inner) + Flat(next) else Flat(inner)
  }

  predicate Succeeds(body: Callback) {
    match body
    case ReturnNil => true
    case ReturnError => false
    case Statement(_, next) => Succeeds(next)
    case RunInTx(inner, next) => Succeeds(inner) && Succeeds(next)
  }

  function Replay(statements: seq<Store -> Store>, s: Store): Store {
    if statements == [] then s else Replay(statements[1..], statements[0](s))
  }

  lemma {:induction false} ReplayConcat(a: seq<Store -> Store>, b: seq<Store -> Store>, s: Store)
    ensures Replay(a + b, s) == Replay(b, Replay(a, s))
  {
    if a == [] {
      assert a + b == b;
    } else {
      assert (a + b)[1..] == a[1..] + b;
      ReplayConcat(a[1..], b, a[0](s));
    }
  }

  /** The statements and nested returns a callback passes when no statement fails. */
  function Moments(body: Callback): (m: nat)
    ensures |Flat(body)| <= m
  {
    match body
    case ReturnNil => 0
    case ReturnError => 0
    case Statement(_, next) => 1 + Moments(next)
    case RunInTx(inner, next) => Moments(inner) + 1 + if Succeeds(inner) then Moments(next) else 0
  }

  /** Nothing became durable at any of these moments. */
  ghost predicate AllAre(seen: seq<Store>, s: Store) {
    forall i :: 0 <= i < |seen| ==> seen[i] == s
  }

  /** How far a callback came: `done` of its statements took effect, `seen` is the durable
      store after each statement and each nested return. A callback that was not stopped by
      a failing statement has passed all its moments; any other at least one per statement. */
  ghost predicate CameTo(body: Callback, stopped: bool, done: nat, seen: seq<Store>) {
    && done <= |Flat(body)|
    && if stopped then done < |seen| <= Moments(body) else done == |Flat(body)| && |seen| == Moments(body)
  }

  /** A nested call that returned nil, and the rest of the callback after it. */
  lemma {:induction false} NestedThenRest(
      inner: Callback, next: Callback, stopped: bool, d: nat, before: seq<Store>, more: nat, after: seq<Store>, s: Store, here: Store)
    requires Succeeds(inner) && CameTo(inner, false, d, before) && CameTo(next, stopped, more, after)
    ensures CameTo(RunInTx(inner, next), stopped, d + more, before + [here] + after)
    ensures Replay(Flat(RunInTx(inner, next))[..d + more], s) == Replay(Flat(next)[..more], Replay(Flat(inner)[..d], s))
  {
    assert Flat(inner)[..d] == Flat(inner);
    assert Flat(RunInTx(inner, next))[..d + more] == Flat(inner) + Flat(next)[..more];
    ReplayConcat(Flat(inner), Flat(next)[..more], s);
  }

  /** One repository statement inside the ambient transaction. */
  method Execute(db: Database, apply: Store -> Store) returns (err: bool)
    requires db.tx.Some?
    modifies db
    ensures db.tx == if err then old(db.tx) else Some(apply(old(db.tx.value)))
    ensures db.durable == old(db.durable)
    ensures db.healthy ==> !err
  {
    var joined := db.Enter();
    err := db.Fault();
    if !err {
      db.tx := Some(apply(db.tx.value));
    }
    err := db.Leave(joined, err);
  }

  /** Runs a callback inside the ambient transaction; `stopped` tells whether a statement failed. */
  method Call(db: Database, body: Callback) returns (err: bool, ghost stopped: bool, ghost done: nat, ghost seen: seq<Store>)
    requires db.tx.Some?
    modifies db
    ensures db.durable == old(db.durable) && AllAre(seen, old(db.durable)) && CameTo(body, stopped, done, seen)
    ensures db.tx == Some(Replay(Flat(body)[..done], old(db.tx.value)))
    ensures err <==> stopped || !Succeeds(body)
    ensures db.healthy ==> !stopped
    decreases body, 0
  {
    err, stopped, done, seen := body.ReturnError?, false, 0, [];
    match body {
      case ReturnNil =>
      case ReturnError =>
      case Statement(apply, next) =>
        err := Execute(db, apply);
        seen := [db.durable];
        if err {
          stopped := true;
          return;
        }
        ghost var more;
        err, stopped, done, more := Call(db, next);
        assert Flat(body)[..done + 1][1..] == Flat(next)[..done];
        done, seen := done + 1, seen + more;
      case RunInTx(inner, next) =>
        err, stopped, done, seen := Transact(db, inner);
        assert Flat(inner)[..done] == Flat(body)[..done];
        seen := seen + [db.durable];
        if err { return; }
        ghost var innerDone, innerSeen, here := done, seen[..|seen| - 1], db.durable;
        ghost var more;
        err, stopped, done, more := Call(db, next);
        NestedThenRest(inner, next, stopped, innerDone, innerSeen, done, more, old(db.tx.value), here);
        done, seen := innerDone + done, innerSeen + [here] + more;
    }
  }

  /** TxRunner.RunInTx, join or begin. Outermost, it makes all statements of all nesting
      levels durable together or none, and nothing before the callback has returned nil;
      nested, it commits nothing and passes the error on. */
  method Transact(db: Database, body: Callback) returns (err: bool, ghost stopped: bool, ghost done: nat, ghost seen: seq<Store>)
    modifies db
    ensures AllAre(seen, old(db.durable)) && CameTo(body, stopped, done, seen)
    ensures old(db.tx).None? ==>
              && db.tx.None?
              && db.durable == if err then old(db.durable) else Replay(Flat(body), old(db.durable))
    ensures old(db.tx).Some? ==>
              && db.tx == Some(Replay(Flat(body)[..done], old(db.tx.value))) && db.durable == old(db.durable)
              && (err <==> stopped || !Succeeds(body))
    ensures stopped || !Succeeds(body) ==> err
    ensures db.healthy ==> !stopped && (err <==> !Succeeds(body))
    decreases body, 1
  {
    var joined := db.Enter();
    err, stopped, done, seen := Call(db, body);
    assert !err ==> Flat(body)[..done] == Flat(body);
    err := db.Leave(joined, err);
  }
}
