/** Entities of the delegation service: the `delegations` row, the events it publishes,
    the tenant policy, and the error values its operations return. */
module Domain {

  datatype Option<+T> = None | Some(value: T)

  /** UUIDs are modelled as natural numbers; only equality and freshness matter. */
  type Id = nat

  /** Nanoseconds since an arbitrary origin, unbounded. */
  type Time = int

  const HOUR: int := 3_600_000_000_000
  const DAY: int := 24 * HOUR

  const SKEW_TOLERANCE: int := 5_000_000_000
  const MAX_FUTURE_START: int := 365 * DAY

  const POLICY_DAYS_MIN := 1
  const POLICY_DAYS_MAX := 180
  const DEFAULT_MAX_DURATION_DAYS := 90
  const DEFAULT_REVIEW_WINDOW_DAYS := 90

  datatype Scope = All | Department | Tender

  datatype Status = Scheduled | Active | Ended | Cancelled

  datatype EndReason =
    | Expired
    | ByRequest
    | Reassigned
    | DelegateRemoved
    | ReviewExpired
    | DelegateDisabled

  datatype Row = Row(
    id: Id,
    tenant: Id,
    delegator: Id,
    delegate: Id,
    scope: Scope,
    scopeId: Option<Id>,
    startsAt: Time,
    endsAt: Option<Time>,
    status: Status,
    version: int,
    deletedAt: Option<Time>,
    reviewDueAt: Option<Time>,
    bucket: Option<int>,
    windowDays: Option<int>)

  datatype Kind =
    | Started
    | EndedBy(reason: EndReason)
    | ReviewRequested(days: int)
    | EscalationRequested

  /** An outbox entry: the delegation it is about and the parties its payload names. */
  datatype Event = Event(id: Id, tenant: Id, kind: Kind, delegator: Id, delegate: Id)

  datatype Policy = Policy(maxDurationDays: int, reviewWindowDays: int)

  const DEFAULT_POLICY := Policy(DEFAULT_MAX_DURATION_DAYS, DEFAULT_REVIEW_WINDOW_DAYS)

  predicate ValidPolicy(p: Policy) {
    && POLICY_DAYS_MIN <= p.maxDurationDays <= POLICY_DAYS_MAX
    && POLICY_DAYS_MIN <= p.reviewWindowDays <= POLICY_DAYS_MAX
  }

  /** A call to User Profile, as far as the service relies on it. */
  datatype UpCall =
    | SetAvailability(tenant: Id, user: Id, delegate: Id, from: Time, until: Option<Time>)
    | ClearPointer(tenant: Id, user: Id)

  datatype Error =
    | NotFound
    | Conflict(version: int)
    | NotReviewTracked
    | ConstraintViolation
    | DbUnavailable
    | SelfDelegation
    | InvalidScope
    | ScopeIdRequired
    | InvalidScopeId
    | ReasonTooLong
    | CatalogUnavailable
    | StartInPast
    | StartTooFarFuture
    | WindowInverted
    | WindowTooLong
    | MembershipUnavailable
    | InvalidDelegate
    | UserProfileUnavailable
    | DelegateUnavailable
    | ExtendDaysOutOfRange
    | InvalidMaxDuration
    | InvalidReviewWindow
    | KeyInFlight
    | BadVersionId
    | HeaderTooShort
    | UnexpectedHeaderVersion

  datatype Result<+T> = Ok(value: T) | Err(error: Error)

  /** The two statuses a delegation can still leave. */
  predicate LiveStatus(s: Status) {
    s == Active || s == Scheduled
  }

  /** A delegation that is neither terminal nor soft-deleted. */
  predicate Live(r: Row) {
    LiveStatus(r.status) && r.deletedAt.None?
  }

  /** Whole days until `due`, rounded up and never below one. */
  function DaysRemaining(due: Time, now: Time): (d: int)
    ensures d >= 1
    ensures now < due ==> (d - 1) * DAY < due - now <= d * DAY
  {
    var days := (due - now + DAY - 1) / DAY;
    if days < 1 then 1 else days
  }

  /** A later clock never sees more days remaining. */
  lemma {:induction false} DaysRemainingFalls(due: Time, earlier: Time, later: Time)
    requires earlier <= later
    ensures DaysRemaining(due, later) <= DaysRemaining(due, earlier)
  {
  }
}
