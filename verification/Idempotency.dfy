/** Create's idempotency key, for one (tenant, key) pair: any number of concurrent calls,
    each Get, Find, Reserve (SET NX), create, then Save or Release. Any store operation may
    fail, with or without having taken effect; a call may crash anywhere; the key may expire. */
module Idempotency {
  import opened Domain

  type Call = nat

  datatype Record = Pending | Created(id: Id)

  /** Where one call is. Holding: its reservation succeeded, so it will release on failure. */
  datatype Stage =
    | Arrived
    | Looking(id: Id)
    | Reserving
    | Creating(holding: bool)
    | Saving(id: Id)
    | Releasing
    | Returned(id: Id)
    | Refused
    | Crashed

  /** `own` rows were committed by calls holding the key; `loose` rows by calls that could not
      reserve, or by a commit that went through although an error was reported. */
  datatype State = State(
    key: Option<Record>,
    calls: map<Call, Stage>,
    own: set<Id>,
    loose: set<Id>,
    expiries: nat,
    reserveErrors: nat,
    lostCommits: nat)

  const START := State(None, map[], {}, {}, 0, 0, 0)

  /** How a store operation went: done, failed without effect, or failed after its effect. */
  datatype Outcome = Fine | Failed | FailedLate

  datatype Step =
    | Arrive(c: Call)
    | Get(c: Call, how: Outcome)
    | Find(c: Call, found: bool)
    | Reserve(c: Call, how: Outcome)
    | GiveUp(c: Call)
    | Commit(c: Call, id: Id, lost: bool)
    | Save(c: Call, how: Outcome)
    | Release(c: Call, how: Outcome)
    | Crash(c: Call)
    | Expire

  predicate IsAt(s: State, c: Call, stage: Stage) {
    c in s.calls && s.calls[c] == stage
  }

  predicate Enabled(s: State, step: Step) {
    match step
    case Arrive(c) => c !in s.calls
    case Get(c, _) => IsAt(s, c, Arrived)
    case Find(c, found) => c in s.calls && s.calls[c].Looking? && (found ==> s.calls[c].id in s.own + s.loose)
    case Reserve(c, _) => IsAt(s, c, Reserving)
    case GiveUp(c) => c in s.calls && s.calls[c].Creating?
    case Commit(c, id, _) => c in s.calls && s.calls[c].Creating? && id !in s.own + s.loose
    case Save(c, _) => c in s.calls && s.calls[c].Saving?
    case Release(c, _) => IsAt(s, c, Releasing)
    case Crash(c) => c in s.calls
    case Expire => s.key.Some?
  }

  // What each store operation does to the key.

  function AfterReserve(key: Option<Record>): Option<Record> {
    if key.None? then Some(Pending) else key
  }

  function Move(s: State, c: Call, stage: Stage): State {
    s.(calls := s.calls[c := stage])
  }

  function AfterGet(s: State, c: Call, how: Outcome): State {
    if !how.Fine? || s.key.None? then Move(s, c, Reserving)
    else if s.key.value.Pending? then Move(s, c, Refused)
    else Move(s, c, Looking(s.key.value.id))
  }

  function Abandon(holding: bool): Stage {
    if holding then Releasing else Refused
  }

  function Apply(s: State, step: Step): State
    requires Enabled(s, step)
  {
    match step
    case Arrive(c) => Move(s, c, Arrived)
    case Get(c, how) => AfterGet(s, c, how)
    case Find(c, found) => Move(s, c, if found then Returned(s.calls[c].id) else Reserving)
    case Reserve(c, how) =>
      if how.Fine? then Move(s, c, if s.key.None? then Creating(true) else Refused).(key := AfterReserve(s.key))
      else
        Move(s, c, Creating(false)).(
          key := if how.FailedLate? then AfterReserve(s.key) else s.key, reserveErrors := s.reserveErrors + 1)
    case GiveUp(c) => Move(s, c, Abandon(s.calls[c].holding))
    case Commit(c, id, lost) =>
      if lost then Move(s, c, Abandon(s.calls[c].holding)).(loose := s.loose + {id}, lostCommits := s.lostCommits + 1)
      else if s.calls[c].holding then Move(s, c, Saving(id)).(own := s.own + {id})
      else Move(s, c, Saving(id)).(loose := s.loose + {id})
    case Save(c, how) =>
      Move(s, c, Returned(s.calls[c].id)).(key := if how.Failed? then s.key else Some(Created(s.calls[c].id)))
    case Release(c, how) => Move(s, c, Refused).(key := if how.Failed? then s.key else None)
    case Crash(c) => Move(s, c, Crashed)
    case Expire => s.(key := None, expiries := s.expiries + 1)
  }

  // ---------------------------------------------------------------- the invariant

  /** A call that may still commit under its reservation, or is about to give it back. */
  predicate Holds(stage: Stage) {
    stage == Creating(true) || stage == Releasing
  }

  predicate Unreserved(stage: Stage) {
    stage == Creating(false)
  }

  function Holders(calls: map<Call, Stage>): set<Call> {
    set c | c in calls && Holds(calls[c])
  }

  function Strays(calls: map<Call, Stage>): set<Call> {
    set c | c in calls && Unreserved(calls[c])
  }

  function Vacancy(key: Option<Record>): nat {
    if key.None? then 1 else 0
  }

  /** Ids a call or the store may hand out. */
  predicate Names(stage: Stage, id: Id) {
    match stage
    case Looking(x) => x == id
    case Saving(x) => x == id
    case Returned(x) => x == id
    case _ => false
  }

  ghost predicate IdsOk(s: State) {
    && s.own !! s.loose
    && (s.key.Some? && s.key.value.Created? ==> s.key.value.id in s.own + s.loose)
    && forall c, id :: c in s.calls && Names(s.calls[c], id) ==> id in s.own + s.loose
  }

  /** Each reservation is worth one row: it is the vacant key, a holder, or a row. Only an
      expiry makes a new one; rows outside it cost a failed Reserve or a lost commit. */
  ghost predicate Budgeted(s: State) {
    && |s.own| + |Holders(s.calls)| + Vacancy(s.key) <= 1 + s.expiries
    && |s.loose| + |Strays(s.calls)| <= s.reserveErrors + s.lostCommits
  }

  ghost predicate Inv(s: State) {
    Budgeted(s) && IdsOk(s)
  }

  function One(b: bool): nat {
    if b then 1 else 0
  }

  lemma {:induction false} SizeAfterMove<T>(before: set<T>, after: set<T>, c: T, member: bool)
    requires after == if member then before + {c} else before - {c}
    ensures |after| == |before| - One(c in before) + One(member)
  {
    assert before - {c} + {c} == before + {c};
  }

  lemma {:induction false} MoveHolders(calls: map<Call, Stage>, c: Call, stage: Stage)
    ensures Holders(calls[c := stage]) == if Holds(stage) then Holders(calls) + {c} else Holders(calls) - {c}
    ensures Strays(calls[c := stage]) == if Unreserved(stage) then Strays(calls) + {c} else Strays(calls) - {c}
  {
  }

  lemma {:induction false} MoveCounts(calls: map<Call, Stage>, c: Call, stage: Stage)
    ensures |Holders(calls[c := stage])| == |Holders(calls)| - One(c in Holders(calls)) + One(Holds(stage))
    ensures |Strays(calls[c := stage])| == |Strays(calls)| - One(c in Strays(calls)) + One(Unreserved(stage))
  {
    MoveHolders(calls, c, stage);
    SizeAfterMove(Holders(calls), Holders(calls[c := stage]), c, Holds(stage));
    SizeAfterMove(Strays(calls), Strays(calls[c := stage]), c, Unreserved(stage));
  }

  lemma {:induction false} StepKeepsIds(s: State, step: Step)
    requires IdsOk(s) && Enabled(s, step)
    ensures IdsOk(Apply(s, step))
  {
  }

  lemma {:induction false} OneMore<T>(s: set<T>, x: T)
    requires x !in s
    ensures |s + {x}| == |s| + 1
  {
  }

  /** A commit turns a holder into an own row, or a stray into a loose one. */
  lemma {:induction false} CommitKeepsBudget(s: State, step: Step)
    requires Budgeted(s) && Enabled(s, step) && step.Commit?
    ensures Budgeted(Apply(s, step))
  {
    var t := Apply(s, step);
    assert t.calls == s.calls[step.c := t.calls[step.c]];
    MoveCounts(s.calls, step.c, t.calls[step.c]);
    if step.lost || !s.calls[step.c].holding {
      OneMore(s.loose, step.id);
    } else {
      OneMore(s.own, step.id);
    }
  }

  lemma {:induction false} MoveKeepsBudget(s: State, step: Step)
    requires Budgeted(s) && Enabled(s, step) && !step.Commit? && !step.Expire?
    ensures Budgeted(Apply(s, step))
  {
    var t := Apply(s, step);
    assert t.own == s.own && t.loose == s.loose;
    assert t.calls == s.calls[step.c := t.calls[step.c]];
    MoveCounts(s.calls, step.c, t.calls[step.c]);
  }

  lemma {:induction false} StepKeeps(s: State, step: Step)
    requires Inv(s) && Enabled(s, step)
    ensures Inv(Apply(s, step))
  {
    StepKeepsIds(s, step);
    if step.Commit? {
      CommitKeepsBudget(s, step);
    } else if !step.Expire? {
      MoveKeepsBudget(s, step);
    }
  }

  // ---------------------------------------------------------------- runs

  ghost predicate Legal(run: seq<Step>)
    decreases |run|, 0
  {
    run == [] || (Legal(run[..|run| - 1]) && Enabled(Reach(run[..|run| - 1]), run[|run| - 1]))
  }

  ghost function Reach(run: seq<Step>): State
    requires Legal(run)
    decreases |run|, 1
  {
    if run == [] then START else Apply(Reach(run[..|run| - 1]), run[|run| - 1])
  }

  lemma {:induction false} RunKeeps(run: seq<Step>)
    requires Legal(run)
    ensures Inv(Reach(run))
  {
    if run == [] {
      assert Holders(START.calls) == {} && Strays(START.calls) == {};
    } else {
      RunKeeps(run[..|run| - 1]);
      StepKeeps(Reach(run[..|run| - 1]), run[|run| - 1]);
    }
  }

  function Rows(s: State): set<Id> {
    s.own + s.loose
  }

  predicate Succeeded(s: State, c: Call, id: Id) {
    IsAt(s, c, Returned(id))
  }

  /** In every run, the rows committed for one key number at most one plus the expiries of
      the key, the Reserve calls that failed and the commits whose reply was lost. */
  lemma {:induction false} RowsPerKey(run: seq<Step>)
    requires Legal(run)
    ensures |Rows(Reach(run))| <= 1 + Reach(run).expiries + Reach(run).reserveErrors + Reach(run).lostCommits
  {
    RunKeeps(run);
  }

  /** With none of those, at most one row is ever committed and every call that succeeds
      returns its id, whatever else fails, crashes or interleaves. */
  lemma {:induction false} OneRowPerKey(run: seq<Step>, a: Call, x: Id, b: Call, y: Id)
    requires Legal(run)
    requires Reach(run).expiries == 0 && Reach(run).reserveErrors == 0 && Reach(run).lostCommits == 0
    ensures |Rows(Reach(run))| <= 1
    ensures Succeeded(Reach(run), a, x) ==> Rows(Reach(run)) == {x}
    ensures Succeeded(Reach(run), a, x) && Succeeded(Reach(run), b, y) ==> x == y
  {
    RunKeeps(run);
    var s := Reach(run);
    forall c: Call, id: Id | Succeeded(s, c, id) ensures Rows(s) == {id} {
      assert Names(s.calls[c], id);
      OnlyMember(Rows(s), id);
    }
  }

  lemma {:induction false} OnlyMember<T>(s: set<T>, x: T)
    requires |s| <= 1 && x in s
    ensures s == {x}
  {
    assert |s - {x}| == 0;
    assert s == (s - {x}) + {x};
  }

  // ---------------------------------------------------------------- the bound is reached

  lemma {:induction false} Then(run: seq<Step>, step: Step) returns (longer: seq<Step>)
    requires Legal(run) && Enabled(Reach(run), step)
    ensures longer == run + [step] && Legal(longer) && Reach(longer) == Apply(Reach(run), step)
  {
    longer := run + [step];
    assert longer[..|longer| - 1] == run;
  }

  /** With the key vacant, a new call can reserve it. */
  lemma {:induction false} VacantKeyIsReserved(run: seq<Step>, c: Call) returns (longer: seq<Step>)
    requires Legal(run) && Reach(run).key.None? && c !in Reach(run).calls
    ensures Legal(longer)
    ensures var s := Reach(run);
            Reach(longer) == s.(key := Some(Pending), calls := s.calls[c := Creating(true)])
  {
    var s := Reach(run);
    var arrived := Then(run, Arrive(c));
    var missed := Then(arrived, Get(c, Fine));
    assert Reach(missed) == Move(s, c, Reserving);
    longer := Then(missed, Reserve(c, Fine));
  }

  /** And then commit a row under it. */
  lemma {:induction false} VacantKeyTakesARow(run: seq<Step>, c: Call, id: Id) returns (longer: seq<Step>)
    requires Legal(run) && Reach(run).key.None? && c !in Reach(run).calls && id !in Rows(Reach(run))
    ensures Legal(longer)
    ensures var s := Reach(run);
            Reach(longer) == s.(key := Some(Pending), calls := s.calls[c := Saving(id)], own := s.own + {id})
  {
    var reserved := VacantKeyIsReserved(run, c);
    longer := Then(reserved, Commit(c, id, false));
  }

  /** One failed Reserve is enough for a second row, and both calls succeed: the store is
      unreachable while the first call still has its key pending. */
  lemma {:induction false} ReserveErrorCanDuplicate() returns (run: seq<Step>)
    ensures Legal(run) && |Rows(Reach(run))| == 2
    ensures Reach(run).expiries == 0 && Reach(run).reserveErrors == 1 && Reach(run).lostCommits == 0
    ensures Succeeded(Reach(run), 0, 7) && Succeeded(Reach(run), 1, 8)
  {
    run := VacantKeyTakesARow([], 0, 7);
    run := Then(run, Arrive(1));
    run := Then(run, Get(1, Failed));
    run := Then(run, Reserve(1, Failed));
    run := Then(run, Commit(1, 8, false));
    run := Then(run, Save(0, Fine));
    run := Then(run, Save(1, Fine));
    assert Rows(Reach(run)) == {7, 8};
  }

  /** So is one expiry. */
  lemma {:induction false} ExpiryCanDuplicate() returns (run: seq<Step>)
    ensures Legal(run) && |Rows(Reach(run))| == 2
    ensures Reach(run).expiries == 1 && Reach(run).reserveErrors == 0 && Reach(run).lostCommits == 0
  {
    run := VacantKeyTakesARow([], 0, 7);
    run := Then(run, Expire);
    run := VacantKeyTakesARow(run, 1, 8);
    assert Rows(Reach(run)) == {7, 8};
  }

  /** And one commit that is reported as failed: the caller releases the key it has used. */
  lemma {:induction false} LostCommitCanDuplicate() returns (run: seq<Step>)
    ensures Legal(run) && |Rows(Reach(run))| == 2
    ensures Reach(run).expiries == 0 && Reach(run).reserveErrors == 0 && Reach(run).lostCommits == 1
  {
    run := Then([], Arrive(0));
    run := Then(run, Get(0, Fine));
    run := Then(run, Reserve(0, Fine));
    run := Then(run, Commit(0, 7, true));
    run := Then(run, Release(0, Fine));
    assert Reach(run) == START.(calls := map[0 := Refused], loose := {7}, lostCommits := 1);
    run := VacantKeyTakesARow(run, 1, 8);
    assert Rows(Reach(run)) == {7, 8};
  }

  predicate Counts(s: State, expiries: nat, reserveErrors: nat, lostCommits: nat) {
    s.expiries == expiries && s.reserveErrors == reserveErrors && s.lostCommits == lostCommits
  }

  /** A run that has committed `n` rows, used calls and ids below `n` only and left the key
      vacant. */
  ghost predicate Vacated(run: seq<Step>, n: nat) {
    && Legal(run) && Reach(run).key.None?
    && (forall c :: c in Reach(run).calls ==> c < n)
    && (forall id :: id in Rows(Reach(run)) ==> id < n)
    && Reach(run).own !! Reach(run).loose
    && |Rows(Reach(run))| == n
  }

  lemma {:induction false} AnotherExpiry(run: seq<Step>, n: nat) returns (longer: seq<Step>)
    requires Vacated(run, n)
    ensures Vacated(longer, n + 1)
    ensures Counts(Reach(longer), Reach(run).expiries + 1, Reach(run).reserveErrors, Reach(run).lostCommits)
  {
    longer := VacantKeyTakesARow(run, n, n);
    longer := Then(longer, Expire);
    assert Rows(Reach(longer)) == Rows(Reach(run)) + {n};
  }

  lemma {:induction false} AnotherReserveError(run: seq<Step>, n: nat) returns (longer: seq<Step>)
    requires Vacated(run, n)
    ensures Vacated(longer, n + 1)
    ensures Counts(Reach(longer), Reach(run).expiries, Reach(run).reserveErrors + 1, Reach(run).lostCommits)
  {
    longer := Then(run, Arrive(n));
    longer := Then(longer, Get(n, Failed));
    longer := Then(longer, Reserve(n, Failed));
    longer := Then(longer, Commit(n, n, false));
    assert Rows(Reach(longer)) == Rows(Reach(run)) + {n};
  }

  lemma {:induction false} AnotherLostCommit(run: seq<Step>, n: nat) returns (longer: seq<Step>)
    requires Vacated(run, n)
    ensures Vacated(longer, n + 1)
    ensures Counts(Reach(longer), Reach(run).expiries, Reach(run).reserveErrors, Reach(run).lostCommits + 1)
  {
    longer := VacantKeyIsReserved(run, n);
    longer := Then(longer, Commit(n, n, true));
    longer := Then(longer, Release(n, Fine));
    assert Rows(Reach(longer)) == Rows(Reach(run)) + {n};
  }

  lemma {:induction false} FaultsCommitRows(expiries: nat, reserveErrors: nat, lostCommits: nat) returns (run: seq<Step>)
    ensures Vacated(run, expiries + reserveErrors + lostCommits)
    ensures Counts(Reach(run), expiries, reserveErrors, lostCommits)
    decreases expiries + reserveErrors + lostCommits
  {
    var n := expiries + reserveErrors + lostCommits;
    if expiries > 0 {
      run := FaultsCommitRows(expiries - 1, reserveErrors, lostCommits);
      run := AnotherExpiry(run, n - 1);
    } else if reserveErrors > 0 {
      run := FaultsCommitRows(expiries, reserveErrors - 1, lostCommits);
      run := AnotherReserveError(run, n - 1);
    } else if lostCommits > 0 {
      run := FaultsCommitRows(expiries, reserveErrors, lostCommits - 1);
      run := AnotherLostCommit(run, n - 1);
    } else {
      run := [];
    }
  }

  /** The bound is reached, for every number of each fault. */
  lemma {:induction false} BoundIsReached(expiries: nat, reserveErrors: nat, lostCommits: nat) returns (run: seq<Step>)
    ensures Legal(run) && Counts(Reach(run), expiries, reserveErrors, lostCommits)
    ensures |Rows(Reach(run))| == 1 + expiries + reserveErrors + lostCommits
  {
    var n := expiries + reserveErrors + lostCommits;
    var vacated := FaultsCommitRows(expiries, reserveErrors, lostCommits);
    run := VacantKeyTakesARow(vacated, n, n);
    assert Rows(Reach(run)) == Rows(Reach(vacated)) + {n};
  }

  predicate Within(s: State, expiries: nat, reserveErrors: nat, lostCommits: nat) {
    s.expiries <= expiries && s.reserveErrors <= reserveErrors && s.lostCommits <= lostCommits
  }

  /** Whatever happens within these numbers of faults, the key commits one row at most. */
  ghost predicate NeverDuplicates(expiries: nat, reserveErrors: nat, lostCommits: nat) {
    forall run :: Legal(run) && Within(Reach(run), expiries, reserveErrors, lostCommits) ==> |Rows(Reach(run))| <= 1
  }

  /** One row per key is guaranteed exactly when none of the three faults can happen. */
  lemma {:induction false} OneRowExactlyWithoutFaults(expiries: nat, reserveErrors: nat, lostCommits: nat)
    ensures NeverDuplicates(expiries, reserveErrors, lostCommits) <==> expiries == 0 && reserveErrors == 0 && lostCommits == 0
  {
    var run := BoundIsReached(expiries, reserveErrors, lostCommits);
    forall other | Legal(other) && Within(Reach(other), 0, 0, 0) ensures |Rows(Reach(other))| <= 1 {
      RowsPerKey(other);
    }
  }

  // ---------------------------------------------------------------- the store

  type StoreKey = (Id, string)

  function Stored(records: map<StoreKey, Record>, k: StoreKey): Option<Record> {
    if k in records then Some(records[k]) else None
  }

  function With(records: map<StoreKey, Record>, k: StoreKey, rec: Option<Record>): map<StoreKey, Record> {
    if rec.Some? then records[k := rec.value] else records - {k}
  }

  /** The create-idempotency keys in Valkey. `err` is what the client sees; `how` also tells
      whether a failed operation reached the server. */
  class IdempotencyStore {
    var records: map<StoreKey, Record>

    constructor ()
      ensures records == map[]
    {
      records := map[];
    }

    method Get(k: StoreKey) returns (err: bool, rec: Option<Record>, how: Outcome)
      ensures err <==> !how.Fine?
      ensures rec == if err then None else Stored(records, k)
    {
      err := *;
      rec := if err || k !in records then None else Some(records[k]);
      how := if err then Failed else Fine;
    }

    /** SET NX: claims the key for one caller. */
    method Reserve(k: StoreKey) returns (err: bool, reserved: bool, how: Outcome)
      modifies this
      ensures err <==> !how.Fine?
      ensures reserved <==> !err && k !in old(records)
      ensures records == if how.Failed? then old(records) else With(old(records), k, AfterReserve(Stored(old(records), k)))
    {
      var unreached: bool, replyLost: bool := *, *;
      err := unreached || replyLost;
      how := if unreached then Failed else if replyLost then FailedLate else Fine;
      reserved := !err && k !in records;
      if !unreached && k !in records {
        records := records[k := Pending];
      }
    }

    method Save(k: StoreKey, id: Id) returns (err: bool, how: Outcome)
      modifies this
      ensures err <==> !how.Fine?
      ensures records == if how.Failed? then old(records) else With(old(records), k, Some(Created(id)))
    {
      var unreached: bool, replyLost: bool := *, *;
      err := unreached || replyLost;
      how := if unreached then Failed else if replyLost then FailedLate else Fine;
      if !unreached {
        records := records[k := Created(id)];
      }
    }

    /** DEL, whoever holds the key by now. */
    method Release(k: StoreKey) returns (err: bool, how: Outcome)
      modifies this
      ensures err <==> !how.Fine?
      ensures records == if how.Failed? then old(records) else With(old(records), k, None)
    {
      var unreached: bool, replyLost: bool := *, *;
      err := unreached || replyLost;
      how := if unreached then Failed else if replyLost then FailedLate else Fine;
      if !unreached {
        records := records - {k};
      }
    }
  }
}
