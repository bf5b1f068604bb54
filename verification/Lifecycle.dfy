/** The delegation lifecycle as a transition system. Every database transaction, every
    sweep read and every successful User Profile call is one step; anything may interleave
    between two steps. The state carries, next to the database, a history of what each
    delegation went through, so that claims about whole runs become invariants. */
module Lifecycle {
  import opened Domain
  import opened Table
  import opened EventLog

  /** Why a delegation left the live set. */
  datatype Cause = ByEvent(reason: EndReason) | DelegatorRevoked | TenantScrubbed

  /** Identifies one running API call. */
  type Caller = nat

  /** windows: the creation window followed by every extension window, in days;
      rounds: the days_remaining values announced, one round per window;
      tickets: the calls that ended it as `reassigned` and have not inserted a successor yet. */
  datatype History = History(
    windows: seq<int>,
    rounds: seq<seq<int>>,
    left: Option<Cause>,
    tickets: multiset<Caller>,
    succs: seq<Id>)

  /** A row as some sweep read it, and the clock that sweep compares it with. */
  datatype Read = Read(row: Row, now: Time, warn: bool)

  /** clocks: the clocks of the warn reads so far, in the order of the reads. */
  datatype State = State(
    rows: Rows,
    outbox: seq<Event>,
    policies: map<Id, Policy>,
    hist: map<Id, History>,
    seen: set<Read>,
    up: set<UpCall>,
    clocks: seq<Time>)

  const EMPTY: State := State(map[], [], map[], map[], {}, {}, [])

  datatype Step =
    | Create(row: Row, pred: Option<(Id, Caller)>)
    | Cancel(tenant: Id, id: Id, version: int, reassigning: Option<Caller>)
    | Extend(tenant: Id, id: Id, days: int, version: int)
    | Activate(read: Read)
    | Expire(read: Read)
    | ReviewExpire(read: Read)
    | Warn(read: Read)
    | RevokeUser(tenant: Id, user: Id, now: Time, order: seq<Id>)
    | DisableDelegate(tenant: Id, user: Id, order: seq<Id>)
    | ScrubTenant(tenant: Id, now: Time)
    | Purge(ids: set<Id>)
    | Snapshot(now: Time, warn: bool)
    | UpOk(call: UpCall)
    | SetPolicy(tenant: Id, policy: Policy)

  // ---------------------------------------------------------------- enabling conditions

  /** A row as Create inserts it. */
  predicate NewRow(r: Row) {
    && Checks(r) && r.version == 1 && r.bucket.None? && r.deletedAt.None? && LiveStatus(r.status)
    && r.windowDays.Some?
    && match r.endsAt
       case None => r.reviewDueAt == Some(r.startsAt + r.windowDays.value * DAY)
       case Some(end) => r.reviewDueAt.None? && end <= r.startsAt + POLICY_DAYS_MAX * DAY
  }

  predicate Announced(up: set<UpCall>, tenant: Id, delegator: Id, delegate: Id) {
    exists c | c in up ::
      c.SetAvailability? && c.tenant == tenant && c.user == delegator && c.delegate == delegate
  }

  predicate MayCreate(s: State, row: Row, pred: Option<(Id, Caller)>) {
    && row.id !in s.hist && NewRow(row)
    && (row.status == Active ==> Announced(s.up, row.tenant, row.delegator, row.delegate))
    && (pred.Some? ==> pred.value.0 in s.hist && pred.value.1 in s.hist[pred.value.0].tickets)
  }

  predicate MayActivate(s: State, rd: Read) {
    && rd in s.seen && Selects(ScheduledBefore(rd.now), rd.row)
    && Activatable(s.rows, rd.row.tenant, rd.row.id, rd.row.version)
    && Announced(s.up, rd.row.tenant, rd.row.delegator, rd.row.delegate)
  }

  predicate MayAutoEnd(s: State, rd: Read, q: Query) {
    && rd in s.seen && Selects(q, rd.row)
    && Endable(s.rows, rd.row.tenant, rd.row.id, rd.row.version)
    && ClearPointer(rd.row.tenant, rd.row.delegator) in s.up
  }

  predicate MayWarn(s: State, rd: Read) {
    && rd in s.seen && rd.warn && Selects(DueForWarn(rd.now), rd.row)
    && rd.row.bucket != Some(DaysRemaining(rd.row.reviewDueAt.value, rd.now))
    && Warnable(s.rows, rd.row.tenant, rd.row.id, rd.row.version)
  }

  predicate Enabled(s: State, step: Step) {
    match step
    case Create(row, pred) => MayCreate(s, row, pred)
    case Cancel(tenant, id, version, _) => Endable(s.rows, tenant, id, version)
    case Extend(tenant, id, days, version) =>
      Extendable(s.rows, tenant, id, version) && POLICY_DAYS_MIN <= days <= POLICY_DAYS_MAX
    case Activate(rd) => MayActivate(s, rd)
    case Expire(rd) => MayAutoEnd(s, rd, ExpiringBefore(rd.now))
    case ReviewExpire(rd) => MayAutoEnd(s, rd, DueForAutoEnd(rd.now))
    case Warn(rd) => MayWarn(s, rd)
    case RevokeUser(tenant, user, _, order) => ListsExactly(order, RevokeHits(s.rows, tenant, user))
    case DisableDelegate(tenant, user, order) => ListsExactly(order, DisableHits(s.rows, tenant, user))
    case ScrubTenant(_, _) => true
    case Purge(ids) => forall id | id in ids :: id in s.rows && s.rows[id].deletedAt.Some?
    case Snapshot(_, _) => true
    case UpOk(_) => true
    case SetPolicy(_, policy) => ValidPolicy(policy)
  }

  // ---------------------------------------------------------------- effect of a step

  function About(r: Row, kind: Kind): Event {
    Event(r.id, r.tenant, kind, r.delegator, r.delegate)
  }

  function RequestReason(reassigning: Option<Caller>): EndReason {
    if reassigning.Some? then Reassigned else ByRequest
  }

  /** The events of a bulk end: `kinds` for each listed row on which `user` is the delegate. */
  function BulkEvents(rows: Rows, user: Id, order: seq<Id>, kinds: seq<Kind>): seq<Event>
    requires forall id :: id in order ==> id in rows
  {
    if order == [] then []
    else
      var id := order[|order| - 1];
      BulkEvents(rows, user, order[..|order| - 1], kinds)
      + if rows[id].delegate == user then seq(|kinds|, i requires 0 <= i < |kinds| => About(rows[id], kinds[i])) else []
  }

  const DISABLED_KINDS: seq<Kind> := [EndedBy(DelegateDisabled), EscalationRequested]

  function RowsAfter(s: State, step: Step): Rows
    requires Enabled(s, step)
  {
    match step
    case Create(row, _) => s.rows[row.id := row]
    case Cancel(_, id, _, _) => s.rows[id := Close(s.rows[id], Cancelled)]
    case Extend(_, id, days, _) => s.rows[id := Extended(s.rows[id], days)]
    case Activate(rd) => s.rows[rd.row.id := Activated(s.rows[rd.row.id])]
    case Expire(rd) => s.rows[rd.row.id := Close(s.rows[rd.row.id], Ended)]
    case ReviewExpire(rd) => s.rows[rd.row.id := Close(s.rows[rd.row.id], Ended)]
    case Warn(rd) =>
      s.rows[rd.row.id := Warned(s.rows[rd.row.id], DaysRemaining(rd.row.reviewDueAt.value, rd.now))]
    case RevokeUser(tenant, user, now, _) => RevokeAll(s.rows, tenant, user, now)
    case DisableDelegate(tenant, user, _) => DisableAll(s.rows, tenant, user)
    case ScrubTenant(tenant, now) => ScrubAll(s.rows, tenant, now)
    case Purge(ids) => s.rows - ids
    case _ => s.rows
  }

  function EventsOf(s: State, step: Step): seq<Event>
    requires Enabled(s, step)
  {
    match step
    case Create(row, _) => if row.status == Active then [About(row, Started)] else []
    case Cancel(_, id, _, reassigning) => [About(s.rows[id], EndedBy(RequestReason(reassigning)))]
    case Activate(rd) => [About(s.rows[rd.row.id], Started)]
    case Expire(rd) => [About(s.rows[rd.row.id], EndedBy(Expired))]
    case ReviewExpire(rd) => [About(s.rows[rd.row.id], EndedBy(ReviewExpired))]
    case Warn(rd) =>
      [About(s.rows[rd.row.id], ReviewRequested(DaysRemaining(rd.row.reviewDueAt.value, rd.now)))]
    case RevokeUser(tenant, user, _, order) => BulkEvents(s.rows, user, order, [EndedBy(DelegateRemoved)])
    case DisableDelegate(tenant, user, order) => BulkEvents(s.rows, user, order, DISABLED_KINDS)
    case _ => []
  }

  /** What a step does to one delegation. */
  datatype Act =
    | Stay
    | Born(row: Row)
    | Succeeded(next: Id, caller: Caller)
    | Finish(reason: EndReason, reassigning: Option<Caller>)
    | Begin
    | Push(days: int)
    | Notify(days: int)
    | Revoke(asDelegate: bool, now: Time)
    | Disable
    | Scrub(now: Time)
    | Vanish

  function ActOn(s: State, step: Step, id: Id): Act
    requires Enabled(s, step)
  {
    match step
    case Create(row, pred) =>
      if id == row.id then Born(row)
      else if pred.Some? && pred.value.0 == id then Succeeded(row.id, pred.value.1)
      else Stay
    case Cancel(_, target, _, reassigning) =>
      if id == target then Finish(RequestReason(reassigning), reassigning) else Stay
    case Extend(_, target, days, _) => if id == target then Push(days) else Stay
    case Activate(rd) => if id == rd.row.id then Begin else Stay
    case Expire(rd) => if id == rd.row.id then Finish(Expired, None) else Stay
    case ReviewExpire(rd) => if id == rd.row.id then Finish(ReviewExpired, None) else Stay
    case Warn(rd) =>
      if id == rd.row.id then Notify(DaysRemaining(rd.row.reviewDueAt.value, rd.now)) else Stay
    case RevokeUser(tenant, user, now, _) =>
      if id in s.rows && HitByRevoke(s.rows[id], tenant, user) then Revoke(s.rows[id].delegate == user, now) else Stay
    case DisableDelegate(tenant, user, _) =>
      if id in s.rows && HitByDisable(s.rows[id], tenant, user) then Disable else Stay
    case ScrubTenant(tenant, now) =>
      if id in s.rows && HitByScrub(s.rows[id], tenant) then Scrub(now) else Stay
    case Purge(ids) => if id in ids then Vanish else Stay
    case _ => Stay
  }

  function Recorded(h: History, act: Act): History {
    match act
    case Finish(reason, reassigning) =>
      h.(left := Some(ByEvent(reason)),
         tickets := if reassigning.Some? then h.tickets + multiset{reassigning.value} else h.tickets)
    case Push(days) => h.(windows := h.windows + [days], rounds := h.rounds + [[]])
    case Notify(days) =>
      if h.rounds == [] then h
      else h.(rounds := h.rounds[..|h.rounds| - 1] + [h.rounds[|h.rounds| - 1] + [days]])
    case Revoke(asDelegate, _) =>
      h.(left := Some(if asDelegate then ByEvent(DelegateRemoved) else DelegatorRevoked))
    case Disable => h.(left := Some(ByEvent(DelegateDisabled)))
    case Scrub(_) => if h.left.None? then h.(left := Some(TenantScrubbed)) else h
    case Succeeded(next, caller) => h.(tickets := h.tickets - multiset{caller}, succs := h.succs + [next])
    case _ => h
  }

  function HistAfter(s: State, step: Step): map<Id, History>
    requires Enabled(s, step)
  {
    var kept := map id | id in s.hist :: Recorded(s.hist[id], ActOn(s, step, id));
    if step.Create? then kept[step.row.id := Newborn(step.row)] else kept
  }

  function Newborn(row: Row): History {
    History([if row.windowDays.Some? then row.windowDays.value else 0], [[]], None, multiset{}, [])
  }

  function Apply(s: State, step: Step): State
    requires Enabled(s, step)
  {
    State(
      RowsAfter(s, step),
      s.outbox + EventsOf(s, step),
      match step {
        case SetPolicy(tenant, policy) => s.policies[tenant := policy]
        case ScrubTenant(tenant, _) => s.policies - {tenant}
        case _ => s.policies
      },
      HistAfter(s, step),
      if step.Snapshot? then s.seen + (set id | id in s.rows :: Read(s.rows[id], step.now, step.warn)) else s.seen,
      if step.UpOk? then s.up + {step.call} else s.up,
      if step.Snapshot? && step.warn then s.clocks + [step.now] else s.clocks)
  }

  // ---------------------------------------------------------------- one delegation

  /** Everything the state says about one id. */
  datatype Cell = Cell(row: Option<Row>, evs: seq<Kind>, hist: Option<History>)

  ghost function CellOf(s: State, id: Id): Cell {
    Cell(
      if id in s.rows then Some(s.rows[id]) else None,
      Project(s.outbox, id),
      if id in s.hist then Some(s.hist[id]) else None)
  }

  ghost predicate CanAct(c: Cell, act: Act) {
    match act
    case Stay => true
    case Born(row) => c.row.None? && c.hist.None? && NewRow(row)
    case Succeeded(_, caller) => c.hist.Some? && caller in c.hist.value.tickets
    case Finish(reason, reassigning) =>
      && c.row.Some? && Live(c.row.value) && reason != DelegateRemoved && reason != DelegateDisabled
      && (reassigning.Some? <==> reason == Reassigned)
    case Begin => c.row.Some? && c.row.value.status == Scheduled && c.row.value.deletedAt.None?
    case Push(days) =>
      && c.row.Some? && c.row.value.status == Active && c.row.value.deletedAt.None? && c.row.value.endsAt.None?
      && POLICY_DAYS_MIN <= days <= POLICY_DAYS_MAX
    case Notify(days) =>
      c.row.Some? && c.row.value.status == Active && c.row.value.deletedAt.None? && 1 <= days <= 3
      && c.row.value.bucket != Some(days)
    case Revoke(_, _) => c.row.Some? && Live(c.row.value)
    case Disable => c.row.Some? && Live(c.row.value)
    case Scrub(_) => c.row.Some? && c.row.value.deletedAt.None?
    case Vanish => c.row.Some? && c.row.value.deletedAt.Some?
  }

  function FinalStatus(reason: EndReason): Status {
    if reason == ByRequest || reason == Reassigned then Cancelled else Ended
  }

  ghost function RowAct(r: Row, act: Act): Row {
    match act
    case Finish(reason, _) => Close(r, FinalStatus(reason))
    case Begin => Activated(r)
    case Push(days) => Extended(r, days)
    case Notify(days) => Warned(r, days)
    case Revoke(_, now) => Revoked(r, now)
    case Disable => Close(r, Ended)
    case Scrub(now) => Scrubbed(r, now)
    case _ => r
  }

  ghost function KindsOf(act: Act): seq<Kind> {
    match act
    case Born(row) => if row.status == Active then [Started] else []
    case Finish(reason, _) => [EndedBy(reason)]
    case Begin => [Started]
    case Notify(days) => [ReviewRequested(days)]
    case Revoke(asDelegate, _) => if asDelegate then [EndedBy(DelegateRemoved)] else []
    case Disable => DISABLED_KINDS
    case _ => []
  }

  ghost function RowActed(row: Option<Row>, act: Act): Option<Row> {
    match act
    case Born(inserted) => Some(inserted)
    case Vanish => None
    case _ => if row.None? then None else Some(RowAct(row.value, act))
  }

  ghost function ActCell(c: Cell, act: Act): Cell {
    Cell(
      RowActed(c.row, act),
      c.evs + KindsOf(act),
      match act {
        case Born(row) => Some(Newborn(row))
        case _ => if c.hist.None? then None else Some(Recorded(c.hist.value, act))
      })
  }

  // ---------------------------------------------------------------- the invariant of one delegation

  function LastWarned(rounds: seq<seq<int>>): Option<int> {
    if rounds == [] || rounds[|rounds| - 1] == [] then None
    else Some(rounds[|rounds| - 1][|rounds[|rounds| - 1]| - 1])
  }

  /** The history and the published events agree, sequence by sequence. */
  ghost predicate Recounts(h: History, evs: seq<Kind>) {
    && 1 <= |h.windows| == |h.rounds|
    && InRange(h.windows, POLICY_DAYS_MIN, POLICY_DAYS_MAX)
    && (forall i :: 0 <= i < |h.rounds| ==> InRange(h.rounds[i], 1, 3))
    && Flatten(h.rounds) == WarnDays(evs)
  }

  /** What the row depends on. */
  datatype Digest = Digest(
    phase: Phase,
    windows: nat,
    total: int,
    window: int,
    warned: Option<int>,
    left: Option<Cause>,
    successions: nat)

  function DigestOf(h: History, evs: seq<Kind>): Digest {
    Digest(
      PhaseOf(evs), |h.windows|, Sum(h.windows), if h.windows == [] then 0 else h.windows[|h.windows| - 1],
      LastWarned(h.rounds), h.left, |h.tickets| + |h.succs|)
  }

  predicate LeftOk(d: Digest) {
    && d.successions <= 1
    && (d.successions > 0 ==> d.left == Some(ByEvent(Reassigned)))
    && match d.left
       case None => d.phase.Silent? || d.phase.Open?
       case Some(ByEvent(reason)) => d.phase == if reason == DelegateDisabled then Escalated else Closed(reason)
       case Some(_) => d.phase.Silent? || d.phase.Open?
  }

  predicate RowOk(r: Row, d: Digest) {
    && Checks(r)
    && r.bucket == d.warned
    && r.windowDays == Some(d.window)
    && (r.endsAt.None? <==> r.reviewDueAt.Some?)
    && (r.reviewDueAt.Some? ==> r.reviewDueAt.value == r.startsAt + d.total * DAY)
    && (r.endsAt.Some? ==> r.endsAt.value <= r.startsAt + POLICY_DAYS_MAX * DAY)
    && (r.status == Scheduled ==> d.windows == 1 && d.phase == Silent)
    && (Live(r) <==> d.left.None?)
    && (Live(r) && r.status == Active ==> d.phase.Open?)
    && (r.status == Cancelled <==> d.left == Some(ByEvent(ByRequest)) || d.left == Some(ByEvent(Reassigned)))
    && (d.left == Some(DelegatorRevoked) || d.left == Some(TenantScrubbed) || d.left == Some(ByEvent(DelegateRemoved)) ==>
          r.deletedAt.Some?)
  }

  predicate StandingOk(id: Id, row: Option<Row>, d: Digest) {
    && LeftOk(d)
    && match row
       case None => d.left.Some?
       case Some(r) => r.id == id && RowOk(r, d)
  }

  ghost predicate CellInv(id: Id, c: Cell) {
    match c.hist
    case None => c.row.None? && c.evs == []
    case Some(h) => Recounts(h, c.evs) && StandingOk(id, c.row, DigestOf(h, c.evs))
  }

  /** How a row may differ from an earlier reading of it. */
  ghost predicate RowLe(a: Row, b: Row) {
    a == b || (
      && a.version < b.version
      && a.deletedAt.None?
      && SameTerms(a, b)
      && StatusLe(a.status, b.status)
      && (a.reviewDueAt.Some? <==> b.reviewDueAt.Some?)
      && (a.reviewDueAt.Some? ==> a.reviewDueAt.value <= b.reviewDueAt.value))
  }

  ghost predicate SameTerms(a: Row, b: Row) {
    && a.id == b.id && a.tenant == b.tenant && a.delegator == b.delegator && a.delegate == b.delegate
    && a.scope == b.scope && a.scopeId == b.scopeId && a.startsAt == b.startsAt && a.endsAt == b.endsAt
  }

  ghost predicate StatusLe(a: Status, b: Status) {
    a == b || a == Scheduled || (a == Active && (b == Ended || b == Cancelled))
  }

  lemma {:induction false} RowLeTransitive(a: Row, b: Row, c: Row)
    requires RowLe(a, b) && RowLe(b, c)
    ensures RowLe(a, c)
  {
  }

  /** How an act changes the digest, without looking at any sequence. */
  function Digested(d: Digest, act: Act): Digest {
    match act
    case Finish(reason, reassigning) =>
      d.(phase := Advance(d.phase, EndedBy(reason)), left := Some(ByEvent(reason)),
         successions := d.successions + if reassigning.Some? then 1 else 0)
    case Begin => d.(phase := Advance(d.phase, Started))
    case Push(days) => d.(windows := d.windows + 1, total := d.total + days, window := days, warned := None)
    case Notify(days) => d.(phase := Advance(d.phase, ReviewRequested(days)), warned := Some(days))
    case Revoke(asDelegate, _) =>
      if asDelegate then d.(phase := Advance(d.phase, EndedBy(DelegateRemoved)), left := Some(ByEvent(DelegateRemoved)))
      else d.(left := Some(DelegatorRevoked))
    case Disable =>
      d.(phase := Advance(Advance(d.phase, EndedBy(DelegateDisabled)), EscalationRequested),
         left := Some(ByEvent(DelegateDisabled)))
    case Scrub(_) => if d.left.None? then d.(left := Some(TenantScrubbed)) else d
    case _ => d
  }

  lemma {:induction false} Appended(evs: seq<Kind>, k: Kind)
    ensures PhaseOf(evs + [k]) == Advance(PhaseOf(evs), k)
    ensures WarnDays(evs + [k]) == WarnDays(evs) + if k.ReviewRequested? then [k.days] else []
  {
    assert (evs + [k])[..|evs + [k]| - 1] == evs;
  }

  lemma {:induction false} EventsDigested(h: History, evs: seq<Kind>, act: Act)
    requires !act.Born?
    ensures PhaseOf(evs + KindsOf(act)) == Digested(DigestOf(h, evs), act).phase
    ensures !act.Notify? ==> WarnDays(evs + KindsOf(act)) == WarnDays(evs)
  {
    var ks := KindsOf(act);
    if |ks| == 0 {
      assert evs + ks == evs;
    } else if |ks| == 1 {
      assert ks == [ks[0]];
      Appended(evs, ks[0]);
    } else {
      Appended(evs, EndedBy(DelegateDisabled));
      Appended(evs + [EndedBy(DelegateDisabled)], EscalationRequested);
      assert evs + ks == evs + [EndedBy(DelegateDisabled)] + [EscalationRequested];
    }
  }

  function Lengthened(rounds: seq<seq<int>>, days: int): seq<seq<int>>
    requires rounds != []
  {
    rounds[..|rounds| - 1] + [rounds[|rounds| - 1] + [days]]
  }

  lemma {:induction false} LengthenedFlat(rounds: seq<seq<int>>, days: int)
    requires rounds != []
    ensures Flatten(Lengthened(rounds, days)) == Flatten(rounds) + [days]
    ensures LastWarned(Lengthened(rounds, days)) == Some(days)
  {
    var n := |rounds| - 1;
    var longer := Lengthened(rounds, days);
    assert longer[..n] == rounds[..n] && longer[n] == rounds[n] + [days];
    assert Flatten(longer) == Flatten(rounds[..n]) + (rounds[n] + [days]);
  }

  lemma {:induction false} LengthenedInRange(rounds: seq<seq<int>>, days: int)
    requires rounds != [] && 1 <= days <= 3
    requires forall i :: 0 <= i < |rounds| ==> InRange(rounds[i], 1, 3)
    ensures forall i :: 0 <= i < |rounds| ==> InRange(Lengthened(rounds, days)[i], 1, 3)
  {
    var n := |rounds| - 1;
    assert InRange(rounds[n], 1, 3);
    assert InRange(rounds[n] + [days], 1, 3);
  }

  /** A warning is appended to the running round. */
  lemma {:induction false} RoundGrows(h: History, evs: seq<Kind>, days: int)
    requires Recounts(h, evs) && 1 <= days <= 3
    ensures Recounts(Recorded(h, Notify(days)), evs + [ReviewRequested(days)])
    ensures LastWarned(Recorded(h, Notify(days)).rounds) == Some(days)
  {
    assert Recorded(h, Notify(days)).rounds == Lengthened(h.rounds, days);
    Appended(evs, ReviewRequested(days));
    LengthenedFlat(h.rounds, days);
    LengthenedInRange(h.rounds, days);
  }

  /** An extension opens a new, empty round. */
  lemma {:induction false} RoundOpens(h: History, evs: seq<Kind>, days: int)
    requires Recounts(h, evs) && POLICY_DAYS_MIN <= days <= POLICY_DAYS_MAX
    ensures Recounts(Recorded(h, Push(days)), evs)
    ensures Sum(Recorded(h, Push(days)).windows) == Sum(h.windows) + days
    ensures LastWarned(Recorded(h, Push(days)).rounds) == None
  {
    var h' := Recorded(h, Push(days));
    SumSnoc(h.windows, days);
    assert h'.rounds[..|h.rounds|] == h.rounds;
    assert Flatten(h'.rounds) == Flatten(h.rounds) + [];
  }

  ghost predicate Digests(h: History, evs: seq<Kind>, act: Act) {
    && Recounts(Recorded(h, act), evs + KindsOf(act))
    && DigestOf(Recorded(h, act), evs + KindsOf(act)) == Digested(DigestOf(h, evs), act)
  }

  lemma {:induction false} PushDigested(h: History, evs: seq<Kind>, days: int)
    requires Recounts(h, evs) && POLICY_DAYS_MIN <= days <= POLICY_DAYS_MAX
    ensures Digests(h, evs, Push(days))
  {
    RoundOpens(h, evs, days);
    assert evs + [] == evs;
  }

  lemma {:induction false} NotifyDigested(h: History, evs: seq<Kind>, days: int)
    requires Recounts(h, evs) && 1 <= days <= 3
    ensures Digests(h, evs, Notify(days))
  {
    RoundGrows(h, evs, days);
    Appended(evs, ReviewRequested(days));
    assert Recorded(h, Notify(days)) == h.(rounds := Lengthened(h.rounds, days));
  }

  lemma {:induction false} OtherDigested(h: History, evs: seq<Kind>, evs': seq<Kind>, act: Act)
    requires !act.Born? && !act.Push? && !act.Notify? && Recounts(h, evs)
    requires act.Succeeded? ==> act.caller in h.tickets
    requires PhaseOf(evs') == Digested(DigestOf(h, evs), act).phase && WarnDays(evs') == WarnDays(evs)
    ensures Recounts(Recorded(h, act), evs')
    ensures DigestOf(Recorded(h, act), evs') == Digested(DigestOf(h, evs), act)
  {
    var h' := Recorded(h, act);
    assert h'.windows == h.windows && h'.rounds == h.rounds;
  }

  /** What an act keeps of a row and its digest. */
  ghost predicate Stands(id: Id, r: Row, d: Digest, act: Act) {
    StandingOk(id, Some(RowAct(r, act)), Digested(d, act)) && RowLe(r, RowAct(r, act))
  }

  lemma {:induction false} FinishStands(id: Id, r: Row, d: Digest, act: Act)
    requires act.Finish? && StandingOk(id, Some(r), d) && CanAct(Cell(Some(r), [], None), act)
    ensures Stands(id, r, d, act)
  {
  }

  lemma {:induction false} UpdateStands(id: Id, r: Row, d: Digest, act: Act)
    requires act.Begin? || act.Push? || act.Notify?
    requires StandingOk(id, Some(r), d) && CanAct(Cell(Some(r), [], None), act)
    ensures Stands(id, r, d, act)
  {
  }

  lemma {:induction false} CascadeStands(id: Id, r: Row, d: Digest, act: Act)
    requires act.Revoke? || act.Disable? || act.Scrub?
    requires StandingOk(id, Some(r), d) && CanAct(Cell(Some(r), [], None), act)
    ensures Stands(id, r, d, act)
  {
  }

  lemma {:induction false} StandingKept(id: Id, r: Row, d: Digest, act: Act)
    requires !act.Born? && !act.Vanish?
    requires StandingOk(id, Some(r), d)
    requires act.Succeeded? || CanAct(Cell(Some(r), [], None), act)
    ensures Stands(id, r, d, act)
  {
    match act {
      case Finish(_, _) => FinishStands(id, r, d, act);
      case Begin => UpdateStands(id, r, d, act);
      case Push(_) => UpdateStands(id, r, d, act);
      case Notify(_) => UpdateStands(id, r, d, act);
      case Revoke(_, _) => CascadeStands(id, r, d, act);
      case Disable => CascadeStands(id, r, d, act);
      case Scrub(_) => CascadeStands(id, r, d, act);
      case _ =>
    }
  }

  /** The act keeps the invariant of the delegation and only moves its row forward. */
  ghost predicate Kept(id: Id, c: Cell, act: Act) {
    var c' := ActCell(c, act);
    && CellInv(id, c')
    && (c.hist.Some? ==> c'.hist.Some?)
    && (c.row.None? && c.hist.Some? ==> c'.row.None?)
    && (c.row.Some? && c'.row.Some? ==> RowLe(c.row.value, c'.row.value))
    && (c.row.Some? && c'.row.None? ==> c.row.value.deletedAt.Some?)
  }

  lemma {:induction false} NewbornRecounts(row: Row, evs: seq<Kind>)
    requires NewRow(row) && evs == KindsOf(Born(row))
    ensures Recounts(Newborn(row), evs)
    ensures PhaseOf(evs) == if row.status == Active then Open else Silent
    ensures Sum(Newborn(row).windows) == row.windowDays.value && LastWarned(Newborn(row).rounds) == None
  {
    var h := Newborn(row);
    Appended([], Started);
    assert [] + [Started] == [Started];
    assert Flatten(h.rounds) == Flatten(h.rounds[..0]) + [];
    assert h.windows[..0] == [];
  }

  lemma {:induction false} BirthKept(id: Id, c: Cell, row: Row)
    requires CellInv(id, c) && CanAct(c, Born(row)) && row.id == id
    ensures Kept(id, c, Born(row))
  {
    var evs := KindsOf(Born(row));
    assert c.evs + evs == evs;
    NewbornRecounts(row, evs);
    assert StandingOk(id, Some(row), DigestOf(Newborn(row), evs));
  }

  /** How the history digests an act. */
  lemma {:induction false} ActDigested(h: History, evs: seq<Kind>, act: Act)
    requires !act.Born? && Recounts(h, evs)
    requires act.Push? ==> POLICY_DAYS_MIN <= act.days <= POLICY_DAYS_MAX
    requires act.Notify? ==> 1 <= act.days <= 3
    requires act.Succeeded? ==> act.caller in h.tickets
    ensures Digests(h, evs, act)
  {
    if act.Push? {
      PushDigested(h, evs, act.days);
    } else if act.Notify? {
      NotifyDigested(h, evs, act.days);
    } else {
      EventsDigested(h, evs, act);
      OtherDigested(h, evs, evs + KindsOf(act), act);
    }
  }

  lemma {:induction false} RecordedKept(id: Id, c: Cell, act: Act)
    requires CellInv(id, c) && CanAct(c, act) && !act.Born? && c.hist.Some?
    ensures Kept(id, c, act)
  {
    var h := c.hist.value;
    ActDigested(h, c.evs, act);
    if c.row.Some? && !act.Vanish? {
      StandingKept(id, c.row.value, DigestOf(h, c.evs), act);
    }
  }

  lemma {:induction false} CellKept(id: Id, c: Cell, act: Act)
    requires CellInv(id, c) && CanAct(c, act)
    requires act.Born? ==> act.row.id == id
    ensures Kept(id, c, act)
  {
    if act.Born? {
      BirthKept(id, c, act.row);
    } else if c.hist.None? {
      assert c.evs + [] == c.evs;
    } else {
      RecordedKept(id, c, act);
    }
  }
}
