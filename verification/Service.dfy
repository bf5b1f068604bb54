/** DelegationService: Create, Cancel, Extend, Reassign and List, step by step, over a
    database other callers, sweeps and consumers may change between any two steps. Each
    method is shown to take only legal steps of the lifecycle, so the theorems about runs
    speak about this code. */
module Service {
  import opened Domain
  import opened Table
  import opened Lifecycle
  import opened Runs
  import opened Persistence

  predicate Committing(step: Step) {
    !step.UpOk? && !step.Snapshot?
  }

  /** A step that was taken and the state it led to; `mine` marks the observed call's steps. */
  datatype Mark = Mark(mine: bool, step: Step, after: State)

  ghost function Before(log: seq<Mark>, k: nat): State
    requires k <= |log|
  {
    if k == 0 then EMPTY else log[k - 1].after
  }

  ghost predicate StepAt(log: seq<Mark>, k: nat)
    requires k < |log|
  {
    && Enabled(Before(log, k), log[k].step)
    && log[k].after == Apply(Before(log, k), log[k].step)
  }

  ghost predicate TrueLog(log: seq<Mark>) {
    forall k :: 0 <= k < |log| ==> StepAt(log, k)
  }

  function RunOf(log: seq<Mark>): seq<Entry> {
    seq(|log|, i requires 0 <= i < |log| => Entry(log[i].mine, log[i].step))
  }

  /** A true log is a legal run of the whole system, so every theorem about runs applies to
      what the service methods did. */
  lemma {:induction false} TrueLogIsALegalRun(log: seq<Mark>)
    requires TrueLog(log)
    ensures Legal(EMPTY, RunOf(log)) && Reach(EMPTY, RunOf(log)) == Before(log, |log|)
  {
    if log != [] {
      var front := log[..|log| - 1];
      forall k | 0 <= k < |front| ensures StepAt(front, k) {
        assert StepAt(log, k);
      }
      TrueLogIsALegalRun(front);
      assert StepAt(log, |log| - 1);
      assert RunOf(log)[..|log| - 1] == RunOf(front);
    }
  }

  lemma {:induction false} LogLater(log: seq<Mark>, k: nat)
    requires TrueLog(log) && k <= |log|
    ensures Inv(Before(log, |log|)) && Later(Before(log, k), Before(log, |log|))
  {
    if log == [] {
      StartOk();
    } else {
      var front := log[..|log| - 1];
      forall i | 0 <= i < |front| ensures StepAt(front, i) {
        assert StepAt(log, i);
      }
      LogLater(front, if k == |log| then k - 1 else k);
      assert StepAt(log, |log| - 1);
      StepKeeps(Before(front, |front|), log[|log| - 1].step);
      if k < |log| {
        LaterTransitive(Before(log, k), Before(front, |front|), log[|log| - 1].after);
      }
    }
  }

  /** The transactions the observed call committed, in order. */
  function Commits(log: seq<Mark>): seq<Step> {
    if log == [] then []
    else
      var last := log[|log| - 1];
      Commits(log[..|log| - 1]) + if last.mine && Committing(last.step) then [last.step] else []
  }

  /** The calls the observed call got through to User Profile, in order. */
  function Calls(log: seq<Mark>): seq<UpCall> {
    if log == [] then []
    else
      var last := log[|log| - 1];
      Calls(log[..|log| - 1]) + if last.mine && last.step.UpOk? then [last.step.call] else []
  }

  lemma {:induction false} SameLengthPrefix(before: seq<Mark>, log: seq<Mark>)
    requires before <= log && |before| == |log|
    ensures before == log
  {
  }

  lemma {:induction false} TrueFront(log: seq<Mark>)
    requires TrueLog(log) && log != []
    ensures TrueLog(log[..|log| - 1]) && StepAt(log, |log| - 1)
    ensures Before(log[..|log| - 1], |log| - 1) == Before(log, |log| - 1)
  {
    var front := log[..|log| - 1];
    forall k | 0 <= k < |front| ensures StepAt(front, k) {
      assert StepAt(log, k);
    }
  }

  /** The events the transactions of the observed call published, in order. */
  ghost function Emitted(log: seq<Mark>): seq<Event>
    requires TrueLog(log)
  {
    if log == [] then []
    else
      TrueFront(log);
      var front, last := log[..|log| - 1], log[|log| - 1];
      Emitted(front) + if last.mine && Committing(last.step) then EventsOf(Before(log, |front|), last.step) else []
  }

  /** They are in the outbox. */
  lemma {:induction false} EmittedIsPublished(log: seq<Mark>, e: Event)
    requires TrueLog(log) && e in Emitted(log)
    ensures e in Before(log, |log|).outbox
  {
    TrueFront(log);
    var front := log[..|log| - 1];
    if e in Emitted(front) {
      EmittedIsPublished(front, e);
    }
  }

  lemma {:induction false} LogGrows(log: seq<Mark>, pre: State, mine: bool, step: Step)
    requires TrueLog(log) && pre == Before(log, |log|) && Inv(pre) && Enabled(pre, step)
    ensures TrueLog(log + [Mark(mine, step, Apply(pre, step))])
    ensures Inv(Apply(pre, step)) && Later(pre, Apply(pre, step))
    ensures Commits(log + [Mark(mine, step, Apply(pre, step))])
         == Commits(log) + if mine && Committing(step) then [step] else []
    ensures Calls(log + [Mark(mine, step, Apply(pre, step))])
         == Calls(log) + if mine && step.UpOk? then [step.call] else []
  {
    StepKeeps(pre, step);
    var log' := log + [Mark(mine, step, Apply(pre, step))];
    forall k | 0 <= k < |log'| ensures StepAt(log', k) {
      if k < |log| {
        assert StepAt(log, k);
      }
    }
    assert log'[..|log'| - 1] == log;
  }

  /** uuid.New: an id never used before. */
  method FreshId(used: set<Id>) returns (id: Id)
    ensures id !in used
  {
    id := 0;
    var todo := used;
    while todo != {}
      invariant todo <= used && forall x :: x in used && x !in todo ==> x < id
      decreases todo
    {
      var x :| x in todo;
      id, todo := if x < id then id else x + 1, todo - {x};
    }
  }

  // ---------------------------------------------------------------- checks of Create

  /** The request body of a create; an unknown scope text is None. */
  datatype CreateInput = CreateInput(
    delegate: Id,
    scope: Option<Scope>,
    scopeId: Option<Id>,
    reasonLength: nat,
    startsAt: Option<Time>,
    endsAt: Option<Time>)

  function ValidateCreateInput(delegator: Id, req: CreateInput): Option<Error> {
    if delegator == req.delegate then Some(SelfDelegation)
    else if req.scope.None? then Some(InvalidScope)
    else if !req.scope.value.All? && req.scopeId.None? then Some(ScopeIdRequired)
    else if req.scope.value.All? && req.scopeId.Some? then Some(InvalidScopeId)
    else if req.reasonLength > 500 then Some(ReasonTooLong)
    else None
  }

  function StartOf(now: Time, req: CreateInput): Time {
    if req.startsAt.Some? then req.startsAt.value else now
  }

  function CheckTimes(now: Time, req: CreateInput): Option<Error> {
    var starts := StartOf(now, req);
    if req.startsAt.Some? && starts < now - SKEW_TOLERANCE then Some(StartInPast)
    else if req.startsAt.Some? && starts > now + MAX_FUTURE_START then Some(StartTooFarFuture)
    else if req.endsAt.Some? && req.endsAt.value <= starts then Some(WindowInverted)
    else None
  }

  function CheckSpan(now: Time, req: CreateInput, policy: Policy): Option<Error> {
    if req.endsAt.Some? && req.endsAt.value - StartOf(now, req) > policy.maxDurationDays * DAY then Some(WindowTooLong)
    else None
  }

  predicate Accepted(now: Time, delegator: Id, req: CreateInput, policy: Policy) {
    && ValidateCreateInput(delegator, req).None?
    && CheckTimes(now, req).None?
    && CheckSpan(now, req, policy).None?
  }

  /** What Create learns from the outside: its clock, whether the department is active,
      whether both parties are members, and the delegate's out-of-office status with its end.
      None stands for a dependency that did not answer. */
  datatype Answers = Answers(now: Time, department: Option<bool>, members: Option<bool>, ooo: Option<(bool, Option<Time>)>)

  /** The first reason to refuse, in the order in which Create looks for one. */
  function Refusal(delegator: Id, req: CreateInput, policy: Policy, a: Answers): Option<Error> {
    if ValidateCreateInput(delegator, req).Some? then ValidateCreateInput(delegator, req)
    else if req.scope == Some(Department) && a.department.None? then Some(CatalogUnavailable)
    else if req.scope == Some(Department) && !a.department.value then Some(InvalidScopeId)
    else if CheckTimes(a.now, req).Some? then CheckTimes(a.now, req)
    else if CheckSpan(a.now, req, policy).Some? then CheckSpan(a.now, req, policy)
    else if a.members.None? then Some(MembershipUnavailable)
    else if !a.members.value then Some(InvalidDelegate)
    else if a.ooo.None? then Some(UserProfileUnavailable)
    else if Away(StartOf(a.now, req), a.now, a.ooo.value) then Some(DelegateUnavailable)
    else None
  }

  /** Whether the delegate's absence stands in the way of a delegation from `starts`. */
  predicate Away(starts: Time, now: Time, ooo: (bool, Option<Time>)) {
    ooo.0 && (starts <= now || (ooo.1.Some? && ooo.1.value > starts))
  }

  function ReviewDue(now: Time, req: CreateInput, policy: Policy): Option<Time> {
    if req.endsAt.Some? then None else Some(StartOf(now, req) + policy.reviewWindowDays * DAY)
  }

  /** The out-of-office window Create sends to User Profile. */
  function OooFrom(now: Time, req: CreateInput): Time {
    if StartOf(now, req) < now then now else StartOf(now, req)
  }

  function OooUntil(now: Time, req: CreateInput, policy: Policy): Option<Time> {
    if req.endsAt.Some? then req.endsAt else ReviewDue(now, req, policy)
  }

  function Announcement(tenant: Id, delegator: Id, req: CreateInput, now: Time, policy: Policy): UpCall {
    SetAvailability(tenant, delegator, req.delegate, OooFrom(now, req), OooUntil(now, req, policy))
  }

  predicate MadeAtMost(before: seq<UpCall>, after: seq<UpCall>, call: UpCall) {
    after == before || after == before + [call]
  }

  function NewRowFor(now: Time, id: Id, tenant: Id, delegator: Id, req: CreateInput, policy: Policy): Row
    requires req.scope.Some?
  {
    Row(
      id, tenant, delegator, req.delegate, req.scope.value, req.scopeId, StartOf(now, req), req.endsAt,
      if StartOf(now, req) > now then Scheduled else Active,
      1, None, ReviewDue(now, req, policy), None, Some(policy.reviewWindowDays))
  }

  /** Whatever passes Create's checks satisfies every CHECK constraint of the table, and
      nothing else about the ids or the reason is left for the database to reject. */
  lemma {:induction false} AcceptedRowIsInsertable(now: Time, id: Id, tenant: Id, delegator: Id, req: CreateInput, policy: Policy)
    requires ValidPolicy(policy) && req.scope.Some? && req.reasonLength <= 500
    ensures Accepted(now, delegator, req, policy) ==> NewRow(NewRowFor(now, id, tenant, delegator, req, policy))
    ensures Checks(NewRowFor(now, id, tenant, delegator, req, policy)) ==>
              ValidateCreateInput(delegator, req).None? && CheckTimes(now, req) != Some(WindowInverted)
  {
  }

  predicate WindowFits(from: Time, until: Option<Time>) {
    until.Some? && from - SKEW_TOLERANCE < until.value <= from + POLICY_DAYS_MAX * DAY
  }

  /** Every window of an immediate Create has an end, spans at most 180 days and ends no
      earlier than its start minus the skew tolerance. It is a proper window exactly when
      the caller gave no ends_at or one that is still ahead. */
  lemma {:induction false} CreateWindow(now: Time, delegator: Id, req: CreateInput, policy: Policy)
    requires ValidPolicy(policy) && Accepted(now, delegator, req, policy) && StartOf(now, req) <= now
    ensures WindowFits(OooFrom(now, req), OooUntil(now, req, policy))
    ensures OooFrom(now, req) < OooUntil(now, req, policy).value <==> req.endsAt.None? || now < req.endsAt.value
  {
  }

  /** An accepted request whose window has already closed: it starts four seconds ago, within
      the tolerance, and ends two seconds ago. */
  lemma {:induction false} ClosedWindowIsAccepted()
    ensures exists req ::
              && Accepted(0, 1, req, DEFAULT_POLICY) && StartOf(0, req) <= 0
              && OooUntil(0, req, DEFAULT_POLICY).value < OooFrom(0, req)
  {
    var req := CreateInput(2, Some(All), None, 0, Some(-4_000_000_000), Some(-2_000_000_000));
    assert Accepted(0, 1, req, DEFAULT_POLICY);
  }

  /** A row made from this request, under some valid policy. */
  ghost predicate Requested(tenant: Id, delegator: Id, req: CreateInput, now: Time, row: Row) {
    req.scope.Some? && exists policy :: ValidPolicy(policy) && row == NewRowFor(now, row.id, tenant, delegator, req, policy)
  }

  /** What Create answers when everything is up and nobody interferes: the first reason to
      refuse, or the row the request asks for. */
  ghost predicate CreateResult(tenant: Id, delegator: Id, req: CreateInput, policy: Policy, a: Answers, r: Result<Row>) {
    var refusal := Refusal(delegator, req, policy, a);
    if refusal.Some? then r == Err(refusal.value)
    else req.scope.Some? && r.Ok? && r.value == NewRowFor(a.now, r.value.id, tenant, delegator, req, policy)
  }

  // What each call does to the table when everything is up and nobody interferes.

  ghost predicate Created(
    t: Rows, policy: Policy, tenant: Id, delegator: Id, req: CreateInput, a: Answers, r: Result<Row>, after: Rows)
  {
    && CreateResult(tenant, delegator, req, policy, a, r)
    && if r.Ok? then r.value.id !in t && after == t[r.value.id := r.value] else after == t
  }

  ghost predicate Ends(t: Rows, tenant: Id, id: Id, version: int, r: Result<Row>, after: Rows) {
    if Endable(t, tenant, id, version) then r == Ok(Close(t[id], Cancelled)) && after == t[id := r.value]
    else r == Err(Probe(t, tenant, id)) && after == t
  }

  /** The window of an extension: the caller's, else the row's own, else the tenant's. */
  function WindowFor(days: Option<int>, r: Row, policy: Policy): int {
    if days.Some? then days.value else if r.windowDays.Some? then r.windowDays.value else policy.reviewWindowDays
  }

  function ExtendRefusal(t: Rows, tenant: Id, id: Id, days: Option<int>, version: int): Option<Error> {
    if days.Some? && !(POLICY_DAYS_MIN <= days.value <= POLICY_DAYS_MAX) then Some(ExtendDaysOutOfRange)
    else if NotExtendable(t, tenant, id).Some? then NotExtendable(t, tenant, id)
    else if t[id].version != version then Some(Conflict(t[id].version))
    else None
  }

  ghost predicate Extends(
    t: Rows, policy: Policy, tenant: Id, id: Id, days: Option<int>, version: int, r: Result<Row>, after: Rows)
  {
    var refusal := ExtendRefusal(t, tenant, id, days, version);
    if refusal.Some? then r == Err(refusal.value) && after == t
    else r == Ok(Extended(t[id], WindowFor(days, t[id], policy))) && after == t[id := r.value]
  }

  /** A reassignment that gets past the end creates exactly as Create would, and the end
      stays whatever becomes of that. */
  ghost predicate Reassigns(
    t: Rows, policy: Policy, tenant: Id, id: Id, version: int, req: ReassignInput, a: Answers, r: Result<Row>, after: Rows)
  {
    if !Visible(t, tenant, id) || t[id].status != Active then r == Err(NotFound) && after == t
    else if t[id].version != version then r == Err(Conflict(t[id].version)) && after == t
    else
      Created(t[id := Close(t[id], Cancelled)], policy, tenant, t[id].delegator, ReassignedInput(t[id], req), a, r, after)
  }

  /** Why a row cannot be extended at all, whatever its version. */
  function NotExtendable(t: Rows, tenant: Id, id: Id): Option<Error> {
    if !Visible(t, tenant, id) || t[id].status != Active then Some(NotFound)
    else if t[id].endsAt.Some? then Some(NotReviewTracked)
    else None
  }

  /** The body of a reassign: fields left out keep the old delegation's value. */
  datatype ReassignInput = ReassignInput(
    newDelegate: Option<Id>,
    scope: Option<Option<Scope>>,
    scopeId: Option<Option<Id>>,
    endsAt: Option<Option<Time>>,
    reasonLength: nat)

  function ReassignedInput(existing: Row, req: ReassignInput): CreateInput {
    CreateInput(
      if req.newDelegate.Some? then req.newDelegate.value else existing.delegate,
      if req.scope.Some? then req.scope.value else Some(existing.scope),
      if req.scopeId.Some? then req.scopeId.value else existing.scopeId,
      req.reasonLength,
      None,
      if req.endsAt.Some? then req.endsAt.value else existing.endsAt)
  }

  // ---------------------------------------------------------------- the answers, field by field

  lemma {:induction false} RefusedInOrder(tenant: Id, delegator: Id, req: CreateInput, policy: Policy, a: Answers, r: Result<Row>)
    requires CreateResult(tenant, delegator, req, policy, a, r)
    ensures var starts := if req.startsAt.Some? then req.startsAt.value else a.now;
            if req.delegate == delegator then r == Err(SelfDelegation)
            else if req.scope.None? then r == Err(InvalidScope)
            else if req.scope != Some(All) && req.scopeId.None? then r == Err(ScopeIdRequired)
            else if req.scope == Some(All) && req.scopeId.Some? then r == Err(InvalidScopeId)
            else if req.reasonLength > 500 then r == Err(ReasonTooLong)
            else if req.scope == Some(Department) && a.department.None? then r == Err(CatalogUnavailable)
            else if req.scope == Some(Department) && a.department == Some(false) then r == Err(InvalidScopeId)
            else if req.startsAt.Some? && starts < a.now - 5_000_000_000 then r == Err(StartInPast)
            else if req.startsAt.Some? && starts > a.now + 365 * DAY then r == Err(StartTooFarFuture)
            else if req.endsAt.Some? && req.endsAt.value <= starts then r == Err(WindowInverted)
            else if req.endsAt.Some? && req.endsAt.value - starts > policy.maxDurationDays * DAY then r == Err(WindowTooLong)
            else if a.members.None? then r == Err(MembershipUnavailable)
            else if a.members == Some(false) then r == Err(InvalidDelegate)
            else if a.ooo.None? then r == Err(UserProfileUnavailable)
            else if a.ooo.value.0 && starts <= a.now then r == Err(DelegateUnavailable)
            else if a.ooo.value.0 && a.ooo.value.1.Some? && a.ooo.value.1.value > starts then r == Err(DelegateUnavailable)
            else r.Ok?
  {
  }

  lemma {:induction false} ExtendedFields(d: Row, days: int)
    requires d.reviewDueAt.Some? && days >= 1
    ensures Extended(d, days) == d.(reviewDueAt := Some(d.reviewDueAt.value + days * DAY), bucket := None,
                                    windowDays := Some(days), version := d.version + 1)
  {
  }

  // ---------------------------------------------------------------- the list cache

  /** A change of one row leaves the listings of all other delegators as they were. */
  lemma {:induction false} ListingElsewhere(t: Rows, r: Row, tenant: Id, delegator: Id, out: seq<Row>)
    requires IsListing(t, tenant, delegator, out)
    requires (r.tenant, r.delegator) != (tenant, delegator)
    requires r.id in t ==> (t[r.id].tenant, t[r.id].delegator) != (tenant, delegator)
    ensures IsListing(t[r.id := r], tenant, delegator, out)
  {
    assert Listed(t[r.id := r], tenant, delegator) == Listed(t, tenant, delegator);
  }

  /** Committing this end and this event is exactly the given step. */
  ghost predicate EndsAs(s: State, step: Step, id: Id, status: Status, e: Event) {
    && id in s.rows && Enabled(s, step)
    && RowsAfter(s, step) == s.rows[id := Close(s.rows[id], status)]
    && EventsOf(s, step) == [e]
  }

  datatype UpOutcome = Done | Unavailable | Rejected

  /** The checks that need no tenant policy. */
  method BeforePolicy(delegator: Id, req: CreateInput, a: Answers) returns (refusal: Option<Error>)
    ensures refusal.Some? ==> forall policy :: Refusal(delegator, req, policy, a) == refusal
    ensures refusal.None? ==>
              && ValidateCreateInput(delegator, req).None? && CheckTimes(a.now, req).None?
              && (req.scope == Some(Department) ==> a.department == Some(true))
    ensures ValidateCreateInput(delegator, req).Some? ==> refusal == ValidateCreateInput(delegator, req)
  {
    refusal := ValidateCreateInput(delegator, req);
    if refusal.Some? { return; }
    if req.scope == Some(Department) {
      if a.department.None? { return Some(CatalogUnavailable); }
      if !a.department.value { return Some(InvalidScopeId); }
    }
    refusal := CheckTimes(a.now, req);
  }

  class World {
    const db: Database
    const self: Caller
    const alone: bool
    var hist: map<Id, History>
    var seen: set<Read>
    var up: set<UpCall>
    var clocks: seq<Time>
    var cache: map<(Id, Id), seq<Row>>
    ghost var log: seq<Mark>

    constructor (db: Database, self: Caller, alone: bool)
      requires db.tx.None? && db.durable == EMPTY_STORE
      ensures Valid() && CacheOk() && this.db == db && log == [] && this.self == self && this.alone == alone
    {
      this.db, this.self, this.alone := db, self, alone;
      hist, seen, up, clocks, cache, log := map[], {}, {}, [], map[], [];
      new;
      StartOk();
    }

    function State(): State
      reads this, db
    {
      Lifecycle.State(db.durable.rows, db.durable.outbox, db.durable.policies, hist, seen, up, clocks)
    }

    /** The present state is where a true log from the empty system has led. */
    ghost predicate Valid()
      reads this, db
    {
      && db.tx.None?
      && TrueLog(log)
      && Before(log, |log|) == State()
      && Inv(State())
    }

    ghost predicate CacheOk()
      reads this, db
    {
      forall k :: k in cache ==> IsListing(db.durable.rows, k.0, k.1, cache[k])
    }

    /** A row read earlier is at most outdated. */
    lemma {:induction false} StillKnown(k: nat, id: Id)
      requires Valid() && k <= |log| && id in Before(log, k).rows
      ensures Before(log, k).rows[id].id == id
      ensures id in db.durable.rows ==> RowLe(Before(log, k).rows[id], db.durable.rows[id])
    {
      forall i | 0 <= i < k ensures StepAt(log[..k], i) {
        assert StepAt(log, i);
      }
      LogLater(log[..k], k);
      LogLater(log, k);
      assert Before(log[..k], k) == Before(log, k);
      CellAt(Before(log, k), id);
      assert RowLater(Before(log, k).rows, State().rows, id);
    }

    lemma {:induction false} HistoryGrows(k: nat)
      requires Valid() && k <= |log|
      ensures Before(log, k).hist.Keys <= hist.Keys
    {
      LogLater(log, k);
    }

    lemma {:induction false} KeyedById()
      requires Valid()
      ensures forall id :: id in db.durable.rows ==> db.durable.rows[id].id == id
    {
      forall id | id in db.durable.rows ensures db.durable.rows[id].id == id { CellAt(State(), id); }
    }

    /** Accounts for a step whose database part has just been committed. */
    method Record(pre: State, step: Step, mine: bool)
      requires db.tx.None? && TrueLog(log) && pre == Before(log, |log|) && Inv(pre)
      requires pre.hist == hist && pre.seen == seen && pre.up == up && pre.clocks == clocks
      requires Enabled(pre, step)
      requires var t := Apply(pre, step);
               db.durable.rows == t.rows && db.durable.outbox == t.outbox && db.durable.policies == t.policies
      modifies this`hist, this`seen, this`up, this`clocks, this`log
      ensures Valid() && State() == Apply(pre, step)
      ensures log == old(log) + [Mark(mine, step, State())]
      ensures Commits(log) == Commits(old(log)) + if mine && Committing(step) then [step] else []
      ensures Calls(log) == Calls(old(log)) + if mine && step.UpOk? then [step.call] else []
    {
      var t := Apply(pre, step);
      hist, seen, up, clocks := t.hist, t.seen, t.up, t.clocks;
      LogGrows(log, pre, mine, step);
      log := log + [Mark(mine, step, t)];
    }

    predicate ByOthers(step: Step) {
      match step
      case Create(_, pred) => pred.Some? ==> pred.value.1 != self
      case Cancel(_, _, _, reassigning) => reassigning != Some(self)
      case _ => true
    }

    /** Any number of steps of other callers, sweeps and consumers. */
    method Interfere()
      requires Valid()
      modifies this`hist, this`seen, this`up, this`clocks, this`log, db
      ensures Valid() && old(log) <= log && old(up) <= up && old(seen) <= seen && old(hist).Keys <= hist.Keys
      ensures Commits(log) == Commits(old(log)) && Calls(log) == Calls(old(log))
      ensures forall k :: |old(log)| <= k < |log| ==> !log[k].mine
      ensures alone ==> log == old(log) && db.durable == old(db.durable)
      ensures forall id :: id in old(hist) && self in old(hist)[id].tickets ==> id in hist && self in hist[id].tickets
    {
      if alone { return; }
      var n: nat := *;
      while n > 0
        invariant Valid() && old(log) <= log && old(up) <= up && old(seen) <= seen && old(hist).Keys <= hist.Keys
        invariant Commits(log) == Commits(old(log)) && Calls(log) == Calls(old(log))
        invariant forall k :: |old(log)| <= k < |log| ==> !log[k].mine
        invariant forall id :: id in old(hist) && self in old(hist)[id].tickets ==> id in hist && self in hist[id].tickets
      {
        var step: Step := *;
        if Enabled(State(), step) && ByOthers(step) {
          TicketsKept(State(), step, self);
          OtherStep(step);
        }
        n := n - 1;
      }
    }

    /** Interfere, for callers that hold no tickets. */
    method Pause()
      requires Valid()
      modifies this`hist, this`seen, this`up, this`clocks, this`log, db
      ensures Valid() && old(log) <= log && old(up) <= up && old(seen) <= seen
      ensures Commits(log) == Commits(old(log)) && Calls(log) == Calls(old(log))
      ensures alone ==> db.durable == old(db.durable)
    {
      Interfere();
    }

    method OtherStep(step: Step)
      requires Valid() && Enabled(State(), step)
      modifies this`hist, this`seen, this`up, this`clocks, this`log, db
      ensures Valid() && State() == Apply(old(State()), step) && log == old(log) + [Mark(false, step, State())]
      ensures Commits(log) == Commits(old(log)) && Calls(log) == Calls(old(log))
    {
      var pre := State();
      db.durable := Store(RowsAfter(pre, step), pre.outbox + EventsOf(pre, step), Apply(pre, step).policies, db.durable.ledger);
      Record(pre, step, false);
    }

    /** SetAvailability or ClearDelegatePointer at User Profile. */
    method CallUp(call: UpCall) returns (outcome: UpOutcome)
      requires Valid()
      modifies this`hist, this`seen, this`up, this`clocks, this`log
      ensures Valid() && State().rows == old(State()).rows && hist == old(hist) && seen == old(seen)
      ensures Commits(log) == Commits(old(log))
      ensures Calls(log) == Calls(old(log)) + if outcome.Done? then [call] else []
      ensures log == old(log) + if outcome.Done? then [Mark(true, UpOk(call), State())] else []
      ensures outcome.Done? ==> call in up
      ensures db.healthy ==> outcome.Done?
    {
      outcome := *;
      if db.healthy { outcome := Done; }
      if outcome.Done? {
        Record(State(), UpOk(call), true);
        assert hist == old(hist);
      }
    }

    method Invalidate(tenant: Id, delegator: Id)
      modifies this`cache
      ensures cache == old(cache) - {(tenant, delegator)}
    {
      cache := cache - {(tenant, delegator)};
    }

    /** RunInTx{End; enqueue}: the row and its event change together or not at all. */
    method EndInTx(tenant: Id, id: Id, status: Status, version: int, e: Event, step: Step) returns (r: Result<Row>)
      requires Valid() && step.Cancel?
      requires Endable(db.durable.rows, tenant, id, version) ==> EndsAs(State(), step, id, status, e)
      modifies this`hist, this`seen, this`up, this`clocks, this`log, db
      ensures Valid()
      ensures Calls(log) == Calls(old(log))
      ensures db.durable.policies == old(db.durable.policies)
      ensures db.durable.outbox == old(db.durable.outbox) + if r.Ok? then [e] else []
      ensures r.Err? ==> log == old(log) && db.durable.rows == old(db.durable.rows)
      ensures r.Ok? ==>
                && Endable(old(db.durable.rows), tenant, id, version) && Enabled(old(State()), step)
                && r.value == Close(old(db.durable.rows)[id], status) && hist == HistAfter(old(State()), step)
                && db.durable.rows == old(db.durable.rows)[id := r.value]
                && log == old(log) + [Mark(true, step, State())] && Commits(log) == Commits(old(log)) + [step]
      ensures r.Err? && r != Err(DbUnavailable) ==> r.error == Probe(old(db.durable.rows), tenant, id)
      ensures db.healthy ==> r != Err(DbUnavailable) && (r.Ok? <==> Endable(old(db.durable.rows), tenant, id, version))
    {
      var pre := State();
      var joined := db.Enter();
      r := db.End(tenant, id, status, version);
      var failed := r.Err?;
      if !failed {
        failed := db.Enqueue(e);
      }
      failed := db.Leave(joined, failed);
      if !failed {
        Record(pre, step, true);
      } else if r.Ok? {
        r := Err(DbUnavailable);
      }
    }

    // -------------------------------------------------------------- the use cases

    /** Fail-open: whether the pointer was cleared does not matter. */
    method ClearThenPause(tenant: Id, user: Id)
      requires Valid()
      modifies this`hist, this`seen, this`up, this`clocks, this`log, db
      ensures Valid() && old(log) <= log && Commits(log) == Commits(old(log))
      ensures MadeAtMost(Calls(old(log)), Calls(log), ClearPointer(tenant, user))
      ensures db.healthy ==> Calls(log) == Calls(old(log)) + [ClearPointer(tenant, user)]
      ensures alone ==> db.durable == old(db.durable)
    {
      Interfere();
      var _ := CallUp(ClearPointer(tenant, user));
      Interfere();
    }

    /** The transaction of CancelInternal; its event is made from the row read before. */
    method EndForRequest(tenant: Id, id: Id, version: int, reassigning: Option<Caller>, d: Row) returns (r: Result<Row>)
      requires Valid() && (id in db.durable.rows ==> RowLe(d, db.durable.rows[id]))
      modifies this`hist, this`seen, this`up, this`clocks, this`log, db
      ensures Valid() && old(log) <= log && Calls(log) == Calls(old(log))
      ensures db.durable.policies == old(db.durable.policies)
      ensures db.durable.outbox == old(db.durable.outbox) + if r.Ok? then
                [Event(id, tenant, EndedBy(if reassigning.Some? then Reassigned else ByRequest), r.value.delegator, r.value.delegate)] else []
      ensures Commits(log) == Commits(old(log)) + if r.Ok? then [Step.Cancel(tenant, id, version, reassigning)] else []
      ensures r.Ok? ==>
                && Endable(old(db.durable.rows), tenant, id, version) && r.value == Close(old(db.durable.rows)[id], Cancelled)
                && r.value.id == id && SameTerms(d, r.value)
                && (reassigning.Some? ==> id in hist && reassigning.value in hist[id].tickets)
      ensures db.durable.rows == if r.Ok? then old(db.durable.rows)[id := r.value] else old(db.durable.rows)
      ensures db.healthy ==>
                if Endable(old(db.durable.rows), tenant, id, version) then r.Ok? else r == Err(Probe(old(db.durable.rows), tenant, id))
    {
      if Endable(db.durable.rows, tenant, id, version) {
        CancelRecorded(State(), tenant, id, version, reassigning, d);
      }
      var e := Event(id, tenant, EndedBy(RequestReason(reassigning)), d.delegator, d.delegate);
      r := EndInTx(tenant, id, Cancelled, version, e, Step.Cancel(tenant, id, version, reassigning));
    }

    /** The shared end path of Cancel and Reassign; clearing the pointer is fail-open. */
    method CancelInternal(tenant: Id, id: Id, version: int, reassigning: Option<Caller>) returns (r: Result<Row>)
      requires Valid() && (reassigning.Some? ==> reassigning.value == self)
      modifies this, db
      ensures Valid() && old(log) <= log
      ensures alone ==> db.durable.policies == old(db.durable.policies)
      ensures alone ==> db.durable.outbox == old(db.durable.outbox) + if r.Ok? then
                [Event(id, tenant, EndedBy(if reassigning.Some? then Reassigned else ByRequest), r.value.delegator, r.value.delegate)] else []
      ensures db.healthy && r.Ok? ==> Calls(log) == Calls(old(log)) + [ClearPointer(tenant, r.value.delegator)]
      ensures r.Err? ==> Commits(log) == Commits(old(log)) && cache == old(cache)
      ensures r.Ok? ==>
                && Commits(log) == Commits(old(log)) + [Step.Cancel(tenant, id, version, reassigning)]
                && r.value.id == id && r.value.tenant == tenant && r.value.status == Cancelled
                && cache == old(cache) - {(tenant, r.value.delegator)}
                && MadeAtMost(Calls(old(log)), Calls(log), ClearPointer(tenant, r.value.delegator))
      ensures r.Ok? && reassigning.Some? ==> id in hist && self in hist[id].tickets
      ensures alone && r.Ok? ==> Endable(old(db.durable.rows), tenant, id, version) && r.value == Close(old(db.durable.rows)[id], Cancelled)
      ensures alone && r.Ok? ==> r.value == old(db.durable.rows)[id].(status := Cancelled, version := version + 1)
      ensures alone ==> db.durable.rows == if r.Ok? then old(db.durable.rows)[id := r.value] else old(db.durable.rows)
      ensures alone && db.healthy ==> Ends(old(db.durable.rows), tenant, id, version, r, db.durable.rows)
      ensures alone && old(CacheOk()) ==> CacheOk()
    {
      r := db.FindByID(tenant, id);
      if r.Err? { return; }
      var d := r.value;
      ghost var known := |log|;
      ClearThenPause(tenant, d.delegator);
      StillKnown(known, id);
      r := EndForRequest(tenant, id, version, reassigning, d);
      if r.Ok? {
        Invalidate(tenant, d.delegator);
        if alone && old(CacheOk()) {
          ElsewhereOk(old(db.durable.rows), old(cache), r.value);
        }
      }
    }

    method Cancel(tenant: Id, id: Id, version: int) returns (r: Result<Row>)
      requires Valid()
      modifies this, db
      ensures Valid() && old(log) <= log
      ensures Commits(log) == Commits(old(log)) + if r.Ok? then [Step.Cancel(tenant, id, version, None)] else []
      ensures r.Ok? ==> MadeAtMost(Calls(old(log)), Calls(log), ClearPointer(tenant, r.value.delegator))
      ensures db.healthy && r.Ok? ==> Calls(log) == Calls(old(log)) + [ClearPointer(tenant, r.value.delegator)]
      ensures alone ==> db.durable.outbox == old(db.durable.outbox) + if r.Ok? then
                [Event(id, tenant, EndedBy(ByRequest), r.value.delegator, r.value.delegate)] else []
      ensures alone && db.healthy ==>
                var t := old(db.durable.rows);
                if id !in t || t[id].tenant != tenant || t[id].deletedAt.Some? || (t[id].status != Active && t[id].status != Scheduled) then
                  r == Err(NotFound) && db.durable.rows == t
                else if t[id].version != version then r == Err(Conflict(t[id].version)) && db.durable.rows == t
                else r == Ok(t[id].(status := Cancelled, version := version + 1)) && db.durable.rows == t[id := r.value]
      ensures alone && db.healthy ==> Ends(old(db.durable.rows), tenant, id, version, r, db.durable.rows)
      ensures alone ==> db.durable.policies == old(db.durable.policies)
      ensures alone && old(CacheOk()) ==> CacheOk()
    {
      r := CancelInternal(tenant, id, version, None);
    }

    /** Everything Create checks before it touches User Profile or the database. */
    method Preflight(tenant: Id, delegator: Id, req: CreateInput, a: Answers) returns (r: Result<Policy>)
      requires Valid()
      modifies this`hist, this`seen, this`up, this`clocks, this`log, db
      ensures Valid() && old(log) <= log && Commits(log) == Commits(old(log))
      ensures Calls(log) == Calls(old(log))
      ensures forall k :: |old(log)| <= k < |log| ==> !log[k].mine
      ensures alone ==> db.durable == old(db.durable)
      ensures forall id :: id in old(hist) && self in old(hist)[id].tickets ==> id in hist && self in hist[id].tickets
      ensures ValidateCreateInput(delegator, req).Some? ==>
                r == Err(ValidateCreateInput(delegator, req).value) && log == old(log) && db.durable == old(db.durable)
      ensures alone && r.Ok? ==> r.value == PolicyOf(old(db.durable.policies), tenant)
      ensures r.Ok? ==> ValidPolicy(r.value) && Refusal(delegator, req, r.value, a).None?
      ensures r.Err? ==> (|| r.error == DbUnavailable
                          || exists policy :: ValidPolicy(policy) && Refusal(delegator, req, policy, a) == Some(r.error))
      ensures alone && db.healthy ==>
                var policy := PolicyOf(old(db.durable.policies), tenant);
                var refusal := Refusal(delegator, req, policy, a);
                r == if refusal.Some? then Err(refusal.value) else Ok(policy)
    {
      assert ValidPolicy(DEFAULT_POLICY);
      var early := BeforePolicy(delegator, req, a);
      if early.Some? {
        assert Refusal(delegator, req, DEFAULT_POLICY, a) == early;
        return Err(early.value);
      }
      Interfere();
      assert PoliciesOk(State());
      r := db.GetPolicy(tenant);
      if r.Err? { return; }
      var long := CheckSpan(a.now, req, r.value);
      if long.Some? { return Err(long.value); }
      if a.members.None? { return Err(MembershipUnavailable); }
      if !a.members.value { return Err(InvalidDelegate); }
      if a.ooo.None? { return Err(UserProfileUnavailable); }
      var (ooo, oooUntil) := a.ooo.value;
      var starts := StartOf(a.now, req);
      if ooo && (starts <= a.now || (oooUntil.Some? && oooUntil.value > starts)) { return Err(DelegateUnavailable); }
    }

    /** RunInTx{Insert; enqueue DelegationStarted unless the row is scheduled}. */
    method InsertInTx(row: Row, pred: Option<(Id, Caller)>) returns (r: Result<Row>)
      requires Valid() && MayCreate(State(), row, pred)
      modifies this`hist, this`seen, this`up, this`clocks, this`log, db
      ensures Valid()
      ensures Calls(log) == Calls(old(log))
      ensures db.durable.policies == old(db.durable.policies)
      ensures db.durable.outbox == old(db.durable.outbox) + if r.Ok? && row.status == Active then
                [Event(row.id, row.tenant, Started, row.delegator, row.delegate)] else []
      ensures r.Err? ==> r.error == DbUnavailable && log == old(log) && db.durable.rows == old(db.durable.rows)
      ensures r.Ok? ==>
                && r.value == row && log == old(log) + [Mark(true, Step.Create(row, pred), State())]
                && Commits(log) == Commits(old(log)) + [Step.Create(row, pred)]
                && db.durable.rows == old(db.durable.rows)[row.id := row]
      ensures db.healthy ==> r.Ok?
    {
      var pre := State();
      CellAt(pre, row.id);
      var joined := db.Enter();
      r := db.Insert(row);
      var failed := r.Err?;
      if !failed && row.status == Active {
        failed := db.Enqueue(Event(row.id, row.tenant, Started, row.delegator, row.delegate));
      }
      failed := db.Leave(joined, failed);
      if !failed {
        Record(pre, Step.Create(row, pred), true);
      } else if r.Ok? {
        r := Err(DbUnavailable);
      }
    }

    ghost predicate WindowsFit(from: nat)
      reads this
    {
      forall k :: from <= k < |log| && log[k].mine && log[k].step.UpOk? && log[k].step.call.SetAvailability? ==>
        WindowFits(log[k].step.call.from, log[k].step.call.until)
    }

    /** Availability first: User Profile hears of an immediate delegation before any write. */
    method Announce(tenant: Id, delegator: Id, req: CreateInput, now: Time, policy: Policy) returns (outcome: UpOutcome)
      requires Valid() && ValidPolicy(policy) && Accepted(now, delegator, req, policy)
      modifies this`hist, this`seen, this`up, this`clocks, this`log, db
      ensures Valid() && old(log) <= log && Commits(log) == Commits(old(log)) && WindowsFit(|old(log)|)
      ensures alone ==> db.durable == old(db.durable)
      ensures outcome.Done? && StartOf(now, req) <= now ==> Announced(up, tenant, delegator, req.delegate)
      ensures Calls(log) == Calls(old(log)) + if outcome.Done? && StartOf(now, req) <= now then
                [Announcement(tenant, delegator, req, now, policy)] else []
      ensures db.healthy ==> outcome.Done?
      ensures forall id :: id in old(hist) && self in old(hist)[id].tickets ==> id in hist && self in hist[id].tickets
    {
      outcome := Done;
      if StartOf(now, req) <= now {
        CreateWindow(now, delegator, req, policy);
        outcome := CallUp(SetAvailability(tenant, delegator, req.delegate, OooFrom(now, req), OooUntil(now, req, policy)));
      }
      Interfere();
    }

    /** The write of Create and, if it fails, the best-effort clear of the stale pointer. */
    method InsertFresh(tenant: Id, delegator: Id, req: CreateInput, now: Time, policy: Policy, pred: Option<(Id, Caller)>)
      returns (r: Result<Row>)
      requires Valid() && ValidPolicy(policy) && Accepted(now, delegator, req, policy)
      requires StartOf(now, req) <= now ==> Announced(up, tenant, delegator, req.delegate)
      requires pred.Some? ==> pred.value.0 in hist && pred.value.1 in hist[pred.value.0].tickets
      modifies this`hist, this`seen, this`up, this`clocks, this`log, db
      ensures Valid() && old(log) <= log && WindowsFit(|old(log)|)
      ensures r.Err? ==> r.error == DbUnavailable && Commits(log) == Commits(old(log)) && db.durable.rows == old(db.durable.rows)
      ensures r.Ok? ==>
                && r.value == NewRowFor(now, r.value.id, tenant, delegator, req, policy) && NewRow(r.value)
                && r.value.id !in old(db.durable.rows)
                && Commits(log) == Commits(old(log)) + [Step.Create(r.value, pred)]
                && db.durable.rows == old(db.durable.rows)[r.value.id := r.value]
      ensures db.healthy ==> r.Ok?
      ensures db.durable.policies == old(db.durable.policies)
      ensures db.durable.outbox == old(db.durable.outbox) + if r.Ok? && r.value.status == Active then
                [Event(r.value.id, tenant, Started, delegator, req.delegate)] else []
      ensures r.Ok? || StartOf(now, req) > now ==> Calls(log) == Calls(old(log))
      ensures MadeAtMost(Calls(old(log)), Calls(log), ClearPointer(tenant, delegator))
    {
      var id := FreshId(hist.Keys);
      var row := NewRowFor(now, id, tenant, delegator, req, policy);
      AcceptedRowIsInsertable(now, id, tenant, delegator, req, policy);
      CellAt(State(), id);
      r := InsertInTx(row, pred);
      if r.Err? && StartOf(now, req) <= now {
        var _ := CallUp(ClearPointer(tenant, delegator));
      }
    }

    /** Create up to its commit: check everything, tell User Profile, insert. */
    method CreateRow(tenant: Id, delegator: Id, req: CreateInput, a: Answers, pred: Option<(Id, Caller)>) returns (r: Result<Row>)
      requires Valid()
      requires pred.Some? ==> pred.value.1 == self && pred.value.0 in hist && self in hist[pred.value.0].tickets
      modifies this`hist, this`seen, this`up, this`clocks, this`log, db
      ensures Valid() && old(log) <= log && WindowsFit(|old(log)|)
      ensures alone ==> db.durable.policies == old(db.durable.policies)
      ensures Commits(log) == Commits(old(log)) + if r.Ok? then [Step.Create(r.value, pred)] else []
      ensures r.Ok? ==> NewRow(r.value) && Requested(tenant, delegator, req, a.now, r.value)
      ensures ValidateCreateInput(delegator, req).Some? ==>
                r == Err(ValidateCreateInput(delegator, req).value) && log == old(log) && db.durable == old(db.durable)
      ensures alone && r.Ok? ==> r.value == NewRowFor(a.now, r.value.id, tenant, delegator, req, PolicyOf(old(db.durable.policies), tenant))
      ensures r.Ok? ==> Calls(log) == Calls(old(log)) + if r.value.status == Active then
                [SetAvailability(tenant, delegator, req.delegate, if r.value.startsAt < a.now then a.now else r.value.startsAt,
                                 if r.value.endsAt.Some? then r.value.endsAt else r.value.reviewDueAt)] else []
      ensures alone ==> db.durable.outbox == old(db.durable.outbox) + if r.Ok? && r.value.status == Active then
                [Event(r.value.id, tenant, Started, delegator, req.delegate)] else []
      ensures alone && r.Ok? ==> r.value.id !in old(db.durable.rows)
      ensures alone ==> db.durable.rows == if r.Ok? then old(db.durable.rows)[r.value.id := r.value] else old(db.durable.rows)
      ensures alone && db.healthy ==>
                Created(old(db.durable.rows), PolicyOf(old(db.durable.policies), tenant), tenant, delegator, req, a, r, db.durable.rows)
      ensures alone && db.healthy ==>
                Calls(log) == Calls(old(log)) + if r.Ok? && StartOf(a.now, req) <= a.now then
                  [Announcement(tenant, delegator, req, a.now, PolicyOf(old(db.durable.policies), tenant))] else []
    {
      var ready := Preflight(tenant, delegator, req, a);
      if ready.Err? { return Err(ready.error); }
      var policy := ready.value;
      var outcome := Announce(tenant, delegator, req, a.now, policy);
      if !outcome.Done? {
        return Err(if outcome.Unavailable? then UserProfileUnavailable else InvalidDelegate);
      }
      r := InsertFresh(tenant, delegator, req, a.now, policy, pred);
    }

    /** Create below its idempotency envelope. `pred` names the delegation this call has just
        ended as reassigned, if any. */
    method Create(tenant: Id, delegator: Id, req: CreateInput, a: Answers, pred: Option<(Id, Caller)>) returns (r: Result<Row>)
      requires Valid()
      requires pred.Some? ==> pred.value.1 == self && pred.value.0 in hist && self in hist[pred.value.0].tickets
      modifies this, db
      ensures Valid() && old(log) <= log && WindowsFit(|old(log)|)
      ensures alone ==> db.durable.policies == old(db.durable.policies)
      ensures Commits(log) == Commits(old(log)) + if r.Ok? then [Step.Create(r.value, pred)] else []
      ensures r.Ok? ==>
                && r.value.tenant == tenant && r.value.delegator == delegator && r.value.delegate == req.delegate
                && Some(r.value.scope) == req.scope && r.value.scopeId == req.scopeId && r.value.endsAt == req.endsAt
                && r.value.startsAt == (if req.startsAt.Some? then req.startsAt.value else a.now)
                && r.value.status == (if r.value.startsAt > a.now then Scheduled else Active)
                && r.value.version == 1 && r.value.deletedAt.None? && r.value.bucket.None?
                && r.value.windowDays.Some? && 1 <= r.value.windowDays.value <= 180
                && r.value.reviewDueAt == (if req.endsAt.Some? then None else Some(r.value.startsAt + r.value.windowDays.value * DAY))
      ensures alone && r.Ok? ==>
                r.value.windowDays == Some(if tenant in old(db.durable.policies) then old(db.durable.policies)[tenant].reviewWindowDays else 90)
      ensures alone && db.healthy ==>
                var starts := if req.startsAt.Some? then req.startsAt.value else a.now;
                var maxDays := if tenant in old(db.durable.policies) then old(db.durable.policies)[tenant].maxDurationDays else 90;
                if req.delegate == delegator then r == Err(SelfDelegation)
                else if req.scope.None? then r == Err(InvalidScope)
                else if req.scope != Some(All) && req.scopeId.None? then r == Err(ScopeIdRequired)
                else if req.scope == Some(All) && req.scopeId.Some? then r == Err(InvalidScopeId)
                else if req.reasonLength > 500 then r == Err(ReasonTooLong)
                else if req.scope == Some(Department) && a.department.None? then r == Err(CatalogUnavailable)
                else if req.scope == Some(Department) && a.department == Some(false) then r == Err(InvalidScopeId)
                else if req.startsAt.Some? && starts < a.now - 5_000_000_000 then r == Err(StartInPast)
                else if req.startsAt.Some? && starts > a.now + 365 * DAY then r == Err(StartTooFarFuture)
                else if req.endsAt.Some? && req.endsAt.value <= starts then r == Err(WindowInverted)
                else if req.endsAt.Some? && req.endsAt.value - starts > maxDays * DAY then r == Err(WindowTooLong)
                else if a.members.None? then r == Err(MembershipUnavailable)
                else if a.members == Some(false) then r == Err(InvalidDelegate)
                else if a.ooo.None? then r == Err(UserProfileUnavailable)
                else if a.ooo.value.0 && starts <= a.now then r == Err(DelegateUnavailable)
                else if a.ooo.value.0 && a.ooo.value.1.Some? && a.ooo.value.1.value > starts then r == Err(DelegateUnavailable)
                else r.Ok?
      ensures r.Ok? ==> Calls(log) == Calls(old(log)) + if r.value.status == Active then
                [SetAvailability(tenant, delegator, req.delegate, if r.value.startsAt < a.now then a.now else r.value.startsAt,
                                 if r.value.endsAt.Some? then r.value.endsAt else r.value.reviewDueAt)] else []
      ensures alone ==> db.durable.rows == if r.Ok? then old(db.durable.rows)[r.value.id := r.value] else old(db.durable.rows)
      ensures alone ==> db.durable.outbox == old(db.durable.outbox) + if r.Ok? && r.value.status == Active then
                [Event(r.value.id, tenant, Started, delegator, req.delegate)] else []
      ensures r.Ok? ==> NewRow(r.value) && Requested(tenant, delegator, req, a.now, r.value)
      ensures ValidateCreateInput(delegator, req).Some? ==>
                r == Err(ValidateCreateInput(delegator, req).value) && log == old(log) && db.durable == old(db.durable)
      ensures alone && db.healthy ==>
                Created(old(db.durable.rows), PolicyOf(old(db.durable.policies), tenant), tenant, delegator, req, a, r, db.durable.rows)
      ensures alone && db.healthy ==>
                Calls(log) == Calls(old(log)) + if r.Ok? && StartOf(a.now, req) <= a.now then
                  [Announcement(tenant, delegator, req, a.now, PolicyOf(old(db.durable.policies), tenant))] else []
      ensures cache == if r.Ok? then old(cache) - {(tenant, delegator)} else old(cache)
      ensures alone && old(CacheOk()) ==> CacheOk()
    {
      r := CreateRow(tenant, delegator, req, a, pred);
      if alone && db.healthy {
        RefusedInOrder(tenant, delegator, req, PolicyOf(old(db.durable.policies), tenant), a, r);
      }
      if r.Ok? {
        Invalidate(tenant, delegator);
        if alone && old(CacheOk()) {
          ElsewhereOk(old(db.durable.rows), old(cache), r.value);
        }
      }
    }

    /** ExtendReview in a transaction of its own. */
    method ExtendInTx(tenant: Id, id: Id, days: int, version: int) returns (r: Result<Row>)
      requires Valid() && POLICY_DAYS_MIN <= days <= POLICY_DAYS_MAX
      modifies this`hist, this`seen, this`up, this`clocks, this`log, db
      ensures Valid()
      ensures Calls(log) == Calls(old(log))
      ensures db.durable.policies == old(db.durable.policies) && db.durable.outbox == old(db.durable.outbox)
      ensures r.Err? ==> log == old(log) && db.durable.rows == old(db.durable.rows)
      ensures r.Ok? ==>
                && Extendable(old(db.durable.rows), tenant, id, version) && old(db.durable.rows)[id].reviewDueAt.Some?
                && r.value == Extended(old(db.durable.rows)[id], days) && r.value.id == id
                && db.durable.rows == old(db.durable.rows)[id := r.value]
                && log == old(log) + [Mark(true, Step.Extend(tenant, id, days, version), State())]
                && Commits(log) == Commits(old(log)) + [Step.Extend(tenant, id, days, version)]
      ensures r.Err? && r != Err(DbUnavailable) ==> r.error == ProbeExtend(old(db.durable.rows), tenant, id)
      ensures db.healthy ==> r != Err(DbUnavailable) && (r.Ok? <==> Extendable(old(db.durable.rows), tenant, id, version))
    {
      var pre := State();
      CellAt(pre, id);
      var joined := db.Enter();
      r := db.ExtendReview(tenant, id, days, version);
      var failed := db.Leave(joined, r.Err?);
      if !failed {
        Record(pre, Step.Extend(tenant, id, days, version), true);
      } else if r.Ok? {
        r := Err(DbUnavailable);
      }
    }

    /** Reads the row and the policy and picks the window. */
    method ExtensionWindow(tenant: Id, id: Id, days: Option<int>) returns (r: Result<int>)
      requires Valid() && (days.Some? ==> POLICY_DAYS_MIN <= days.value <= POLICY_DAYS_MAX)
      modifies this`hist, this`seen, this`up, this`clocks, this`log, db
      ensures Valid() && old(log) <= log && Commits(log) == Commits(old(log)) && Calls(log) == Calls(old(log))
      ensures alone ==> db.durable == old(db.durable)
      ensures r.Ok? ==> POLICY_DAYS_MIN <= r.value <= POLICY_DAYS_MAX && (days.Some? ==> r.value == days.value)
      ensures alone && r.Ok? ==>
                && NotExtendable(old(db.durable.rows), tenant, id).None?
                && r.value == WindowFor(days, old(db.durable.rows)[id], PolicyOf(old(db.durable.policies), tenant))
      ensures alone && r.Ok? ==>
                r.value == if days.Some? then days.value
                           else if old(db.durable.rows)[id].windowDays.Some? then old(db.durable.rows)[id].windowDays.value
                           else if tenant in old(db.durable.policies) then old(db.durable.policies)[tenant].reviewWindowDays else 90
      ensures alone && db.healthy ==>
                var refusal := NotExtendable(old(db.durable.rows), tenant, id);
                if refusal.Some? then r == Err(refusal.value) else r.Ok?
    {
      var found := db.FindByID(tenant, id);
      if found.Err? { return Err(found.error); }
      var d := found.value;
      CellAt(State(), id);
      if d.status != Active { return Err(NotFound); }
      if d.endsAt.Some? { return Err(NotReviewTracked); }
      Interfere();
      assert PoliciesOk(State());
      var policy := db.GetPolicy(tenant);
      if policy.Err? { return Err(policy.error); }
      var window := policy.value.reviewWindowDays;
      if d.windowDays.Some? { window := d.windowDays.value; }
      if days.Some? { window := days.value; }
      r := Ok(window);
      Interfere();
    }

    /** The transaction of Extend and the invalidation after it. */
    method PushBackReview(tenant: Id, id: Id, days: int, version: int) returns (r: Result<Row>)
      requires Valid() && POLICY_DAYS_MIN <= days <= POLICY_DAYS_MAX
      modifies this, db
      ensures Valid() && old(log) <= log
      ensures Calls(log) == Calls(old(log))
      ensures db.durable.policies == old(db.durable.policies) && db.durable.outbox == old(db.durable.outbox)
      ensures db.durable.rows == if r.Ok? then old(db.durable.rows)[id := r.value] else old(db.durable.rows)
      ensures Commits(log) == Commits(old(log)) + if r.Ok? then [Step.Extend(tenant, id, days, version)] else []
      ensures r.Ok? ==> Extendable(old(db.durable.rows), tenant, id, version) && old(db.durable.rows)[id].reviewDueAt.Some?
      ensures r.Ok? ==> r.value == Extended(old(db.durable.rows)[id], days)
      ensures r.Ok? ==>
                r.value == old(db.durable.rows)[id].(
                  reviewDueAt := Some(old(db.durable.rows)[id].reviewDueAt.value + days * DAY),
                  bucket := None, windowDays := Some(days), version := version + 1)
      ensures db.healthy && Extendable(old(db.durable.rows), tenant, id, version) ==> r.Ok?
      ensures db.healthy && !Extendable(old(db.durable.rows), tenant, id, version) ==> r == Err(ProbeExtend(old(db.durable.rows), tenant, id))
      ensures old(CacheOk()) ==> CacheOk()
    {
      r := ExtendInTx(tenant, id, days, version);
      if r.Ok? {
        ExtendedFields(old(db.durable.rows)[id], days);
        Invalidate(tenant, r.value.delegator);
        if old(CacheOk()) {
          ElsewhereOk(old(db.durable.rows), old(cache), r.value);
        }
      }
    }

    /** Pushes the deadline of an open-ended delegation back and re-arms its warnings;
        telling User Profile is fail-open. */
    method Extend(tenant: Id, id: Id, days: Option<int>, version: int) returns (r: Result<Row>, ghost window: int)
      requires Valid()
      modifies this, db
      ensures Valid() && old(log) <= log
      ensures days.Some? && !(POLICY_DAYS_MIN <= days.value <= POLICY_DAYS_MAX) ==>
                r == Err(ExtendDaysOutOfRange) && log == old(log) && db.durable == old(db.durable)
      ensures r.Err? ==> Commits(log) == Commits(old(log)) && Calls(log) == Calls(old(log))
      ensures r.Ok? ==>
                && Commits(log) == Commits(old(log)) + [Step.Extend(tenant, id, window, version)]
                && (days.Some? ==> window == days.value)
                && MadeAtMost(Calls(old(log)), Calls(log),
                              SetAvailability(tenant, r.value.delegator, r.value.delegate, r.value.startsAt, r.value.reviewDueAt))
      ensures alone && r.Ok? ==>
                && id in old(db.durable.rows) && old(db.durable.rows)[id].reviewDueAt.Some?
                && window == (if days.Some? then days.value
                              else if old(db.durable.rows)[id].windowDays.Some? then old(db.durable.rows)[id].windowDays.value
                              else if tenant in old(db.durable.policies) then old(db.durable.policies)[tenant].reviewWindowDays else 90)
                && r.value == old(db.durable.rows)[id].(
                     reviewDueAt := Some(old(db.durable.rows)[id].reviewDueAt.value + window * DAY),
                     bucket := None, windowDays := Some(window), version := version + 1)
      ensures alone ==> db.durable.rows == if r.Ok? then old(db.durable.rows)[id := r.value] else old(db.durable.rows)
      ensures alone ==> db.durable.outbox == old(db.durable.outbox)
      ensures alone && db.healthy ==>
                var t := old(db.durable.rows);
                if days.Some? && (days.value < 1 || days.value > 180) then r == Err(ExtendDaysOutOfRange)
                else if id !in t || t[id].tenant != tenant || t[id].deletedAt.Some? || t[id].status != Active then r == Err(NotFound)
                else if t[id].endsAt.Some? then r == Err(NotReviewTracked)
                else if t[id].version != version then r == Err(Conflict(t[id].version))
                else r.Ok?
      ensures db.healthy && r.Ok? ==>
                Calls(log) == Calls(old(log))
                  + [SetAvailability(tenant, r.value.delegator, r.value.delegate, r.value.startsAt, r.value.reviewDueAt)]
      ensures alone && db.healthy ==>
                Extends(old(db.durable.rows), PolicyOf(old(db.durable.policies), tenant), tenant, id, days, version, r, db.durable.rows)
      ensures alone ==> db.durable.policies == old(db.durable.policies)
      ensures alone && old(CacheOk()) ==> CacheOk()
    {
      window := 0;
      if days.Some? && (days.value < POLICY_DAYS_MIN || days.value > POLICY_DAYS_MAX) {
        r := Err(ExtendDaysOutOfRange);
        return;
      }
      var chosen := ExtensionWindow(tenant, id, days);
      if chosen.Err? {
        r := Err(chosen.error);
        return;
      }
      window := chosen.value;
      r := PushBackReview(tenant, id, chosen.value, version);
      if r.Err? { return; }
      var d := r.value;
      var _ := CallUp(SetAvailability(tenant, d.delegator, d.delegate, d.startsAt, d.reviewDueAt));
    }

    /** Ends the delegation that was read, then creates its successor; if that fails the old
        one is not resurrected. */
    method EndThenCreate(tenant: Id, id: Id, version: int, existing: Row, req: ReassignInput, a: Answers) returns (r: Result<Row>)
      requires Valid()
      modifies this, db
      ensures Valid() && old(log) <= log
      ensures r.Err? ==> (|| Commits(log) == Commits(old(log))
                          || Commits(log) == Commits(old(log)) + [Step.Cancel(tenant, id, version, Some(self))])
      ensures r.Ok? ==>
                && Commits(log) == Commits(old(log)) + [Step.Cancel(tenant, id, version, Some(self)), Step.Create(r.value, Some((id, self)))]
                && Requested(tenant, existing.delegator, ReassignedInput(existing, req), a.now, r.value)
      ensures r.Ok? ==>
                && r.value.tenant == tenant && r.value.delegator == existing.delegator
                && r.value.delegate == (if req.newDelegate.Some? then req.newDelegate.value else existing.delegate)
                && Some(r.value.scope) == (if req.scope.Some? then req.scope.value else Some(existing.scope))
                && r.value.scopeId == (if req.scopeId.Some? then req.scopeId.value else existing.scopeId)
                && r.value.endsAt == (if req.endsAt.Some? then req.endsAt.value else existing.endsAt)
                && r.value.startsAt == a.now && r.value.status == Active
      ensures alone && r.Ok? ==> Endable(old(db.durable.rows), tenant, id, version)
      ensures alone && r.Ok? ==>
                && db.durable.rows
                   == old(db.durable.rows)[id := old(db.durable.rows)[id].(status := Cancelled, version := version + 1)][r.value.id := r.value]
                && db.durable.outbox == old(db.durable.outbox)
                     + [Event(id, tenant, EndedBy(Reassigned), old(db.durable.rows)[id].delegator, old(db.durable.rows)[id].delegate)]
                     + [Event(r.value.id, tenant, Started, r.value.delegator, r.value.delegate)]
      ensures alone ==> db.durable.policies == old(db.durable.policies)
      ensures alone && db.healthy && !Endable(old(db.durable.rows), tenant, id, version) ==>
                r == Err(Probe(old(db.durable.rows), tenant, id)) && db.durable.rows == old(db.durable.rows)
      ensures alone && db.healthy && Endable(old(db.durable.rows), tenant, id, version) ==>
                var ended := old(db.durable.rows)[id := Close(old(db.durable.rows)[id], Cancelled)];
                Created(ended, PolicyOf(old(db.durable.policies), tenant), tenant, existing.delegator,
                        ReassignedInput(existing, req), a, r, db.durable.rows)
      ensures alone && old(CacheOk()) ==> CacheOk()
    {
      var ended := CancelInternal(tenant, id, version, Some(self));
      if ended.Err? { return ended; }
      ghost var first, between := old(db.durable.rows), db.durable;
      r := Create(tenant, existing.delegator, ReassignedInput(existing, req), a, Some((id, self)));
      if alone && r.Ok? {
        assert db.durable.rows == between.rows[r.value.id := r.value];
        assert db.durable.outbox == between.outbox + [Event(r.value.id, tenant, Started, r.value.delegator, r.value.delegate)];
        assert between.rows == first[id := first[id].(status := Cancelled, version := version + 1)];
      }
    }

    /** Replaces a delegation by a new one that keeps whatever the request leaves out. */
    method Reassign(tenant: Id, id: Id, version: int, req: ReassignInput, a: Answers) returns (r: Result<Row>, ghost existing: Option<Row>)
      requires Valid()
      modifies this, db
      ensures Valid() && old(log) <= log
      ensures r.Err? ==> (|| Commits(log) == Commits(old(log))
                          || Commits(log) == Commits(old(log)) + [Step.Cancel(tenant, id, version, Some(self))])
      ensures r.Ok? ==>
                && Commits(log) == Commits(old(log)) + [Step.Cancel(tenant, id, version, Some(self)), Step.Create(r.value, Some((id, self)))]
                && existing.Some? && existing.value.status == Active
                && Requested(tenant, existing.value.delegator, ReassignedInput(existing.value, req), a.now, r.value)
      ensures r.Ok? ==>
                && r.value.tenant == tenant && r.value.delegator == existing.value.delegator
                && r.value.delegate == (if req.newDelegate.Some? then req.newDelegate.value else existing.value.delegate)
                && Some(r.value.scope) == (if req.scope.Some? then req.scope.value else Some(existing.value.scope))
                && r.value.scopeId == (if req.scopeId.Some? then req.scopeId.value else existing.value.scopeId)
                && r.value.endsAt == (if req.endsAt.Some? then req.endsAt.value else existing.value.endsAt)
                && r.value.startsAt == a.now && r.value.status == Active
      ensures alone && r.Ok? ==>
                && id in old(db.durable.rows)
                && db.durable.rows
                   == old(db.durable.rows)[id := old(db.durable.rows)[id].(status := Cancelled, version := version + 1)][r.value.id := r.value]
                && db.durable.outbox == old(db.durable.outbox)
                     + [Event(id, tenant, EndedBy(Reassigned), old(db.durable.rows)[id].delegator, old(db.durable.rows)[id].delegate)]
                     + [Event(r.value.id, tenant, Started, r.value.delegator, r.value.delegate)]
      ensures alone && db.healthy ==>
                var t := old(db.durable.rows);
                if id !in t || t[id].tenant != tenant || t[id].deletedAt.Some? || t[id].status != Active then
                  r == Err(NotFound) && db.durable.rows == t
                else if t[id].version != version then r == Err(Conflict(t[id].version)) && db.durable.rows == t
                else id in db.durable.rows && db.durable.rows[id] == t[id].(status := Cancelled, version := version + 1)
      ensures existing == if id in old(db.durable.rows) then Some(old(db.durable.rows)[id]) else None
      ensures alone ==> db.durable.policies == old(db.durable.policies)
      ensures alone && db.healthy ==>
                Reassigns(old(db.durable.rows), PolicyOf(old(db.durable.policies), tenant), tenant, id, version, req, a, r, db.durable.rows)
      ensures alone && old(CacheOk()) ==> CacheOk()
    {
      existing := if id in db.durable.rows then Some(db.durable.rows[id]) else None;
      r := db.FindByID(tenant, id);
      if r.Err? { return; }
      var found := r.value;
      if found.status != Active {
        r := Err(NotFound);
        return;
      }
      Interfere();
      r := EndThenCreate(tenant, id, version, found, req, a);
    }

    /** The delegator's active delegations, from the cache when it has them. */
    method List(tenant: Id, delegator: Id) returns (r: Result<seq<Row>>)
      requires Valid()
      modifies this, db
      ensures Valid() && old(log) <= log && Commits(log) == Commits(old(log))
      ensures alone && old(CacheOk()) ==> CacheOk()
      ensures alone && old(CacheOk()) && r.Ok? ==> IsListing(old(db.durable.rows), tenant, delegator, r.value)
      ensures alone && old(CacheOk()) && r.Ok? ==>
                var t := old(db.durable.rows);
                && (forall i :: 0 <= i < |r.value| ==>
                      && r.value[i].id in t && t[r.value[i].id] == r.value[i]
                      && r.value[i].tenant == tenant && r.value[i].delegator == delegator
                      && r.value[i].status == Active && r.value[i].deletedAt.None?)
                && (forall id :: id in t && t[id].tenant == tenant && t[id].delegator == delegator ==>
                      t[id].status == Active && t[id].deletedAt.None? ==> Has(r.value, id))
                && (forall i, j :: 0 <= i < j < |r.value| ==>
                      r.value[i].id != r.value[j].id && r.value[i].startsAt >= r.value[j].startsAt)
      ensures db.healthy ==> r.Ok?
      ensures alone ==> db.durable == old(db.durable)
    {
      var lapsed: bool := *;
      if (tenant, delegator) in cache && !lapsed {
        return Ok(cache[(tenant, delegator)]);
      }
      Interfere();
      KeyedById();
      r := db.ListByDelegator(tenant, delegator);
      if r.Err? { return; }
      Interfere();
      cache := cache[(tenant, delegator) := r.value];
    }

    /** SettingsService.Set. */
    method SetTenantPolicy(tenant: Id, maxDurationDays: int, reviewWindowDays: int) returns (r: Result<Policy>)
      requires Valid()
      modifies this`hist, this`seen, this`up, this`clocks, this`log, db
      ensures Valid() && old(log) <= log
      ensures !(POLICY_DAYS_MIN <= maxDurationDays <= POLICY_DAYS_MAX) ==> r == Err(InvalidMaxDuration)
      ensures POLICY_DAYS_MIN <= maxDurationDays <= POLICY_DAYS_MAX && !(POLICY_DAYS_MIN <= reviewWindowDays <= POLICY_DAYS_MAX) ==>
                r == Err(InvalidReviewWindow)
      ensures r.Err? ==> log == old(log) && db.durable == old(db.durable)
      ensures r.Ok? ==>
                && ValidPolicy(r.value) && r.value == Policy(maxDurationDays, reviewWindowDays)
                && db.durable.policies == old(db.durable.policies)[tenant := r.value]
                && Commits(log) == Commits(old(log)) + [SetPolicy(tenant, r.value)]
      ensures db.healthy && ValidPolicy(Policy(maxDurationDays, reviewWindowDays)) ==> r.Ok?
      ensures db.durable.rows == old(db.durable.rows)
    {
      if maxDurationDays < POLICY_DAYS_MIN || maxDurationDays > POLICY_DAYS_MAX { return Err(InvalidMaxDuration); }
      if reviewWindowDays < POLICY_DAYS_MIN || reviewWindowDays > POLICY_DAYS_MAX { return Err(InvalidReviewWindow); }
      var pre, policy := State(), Policy(maxDurationDays, reviewWindowDays);
      var joined := db.Enter();
      var failed := db.UpsertPolicy(tenant, policy);
      failed := db.Leave(joined, failed);
      if failed { return Err(DbUnavailable); }
      Record(pre, SetPolicy(tenant, policy), true);
      r := Ok(policy);
    }
  }

  /** After one row changed and its delegator's entry was dropped, the cache is still right. */
  lemma {:induction false} ElsewhereOk(t: Rows, cache: map<(Id, Id), seq<Row>>, r: Row)
    requires forall k :: k in cache ==> IsListing(t, k.0, k.1, cache[k])
    requires r.id in t ==> t[r.id].tenant == r.tenant && t[r.id].delegator == r.delegator
    ensures forall k :: k in cache - {(r.tenant, r.delegator)} ==> IsListing(t[r.id := r], k.0, k.1, cache[k])
  {
    forall k | k in cache - {(r.tenant, r.delegator)} ensures IsListing(t[r.id := r], k.0, k.1, cache[k]) {
      ListingElsewhere(t, r, k.0, k.1, cache[k]);
    }
  }

  /** What the transaction of CancelInternal commits is the Cancel step, even though the
      event names the parties of a row read earlier. */
  lemma {:induction false} CancelRecorded(pre: State, tenant: Id, id: Id, version: int, reassigning: Option<Caller>, d: Row)
    requires Inv(pre) && Endable(pre.rows, tenant, id, version) && RowLe(d, pre.rows[id])
    ensures EndsAs(pre, Step.Cancel(tenant, id, version, reassigning), id, Cancelled,
                   Event(id, tenant, EndedBy(RequestReason(reassigning)), d.delegator, d.delegate))
    ensures pre.rows[id].id == id && SameTerms(d, pre.rows[id])
    ensures id in HistAfter(pre, Step.Cancel(tenant, id, version, reassigning))
    ensures reassigning.Some? ==>
              reassigning.value in HistAfter(pre, Step.Cancel(tenant, id, version, reassigning))[id].tickets
  {
    CellAt(pre, id);
  }

  /** Nobody else can use up or take away what this call holds. */
  lemma {:induction false} TicketsKept(s: State, step: Step, self: Caller)
    requires Inv(s) && Enabled(s, step)
    requires step.Create? && step.pred.Some? ==> step.pred.value.1 != self
    ensures forall id :: id in s.hist && self in s.hist[id].tickets ==>
              id in HistAfter(s, step) && self in HistAfter(s, step)[id].tickets
  {
    forall id | id in s.hist && self in s.hist[id].tickets
      ensures id in HistAfter(s, step) && self in HistAfter(s, step)[id].tickets
    {
      var act := ActOn(s, step, id);
      assert Recorded(s.hist[id], act).tickets[self] >= 1;
    }
  }
}
