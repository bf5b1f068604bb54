/** The `delegations` table and the SQL statements issued against it, as functions from
    one table to the next. Each statement keeps the guard of its WHERE clause and the
    `touch_row` trigger, which bumps the version of every row an UPDATE really changes. */
module Table {
  import opened Domain

  type Rows = map<Id, Row>

  function Touch(before: Row, after: Row): Row {
    if after == before then before else after.(version := before.version + 1)
  }

  function Put(t: Rows, id: Id, after: Row): Rows
    requires id in t
  {
    t[id := Touch(t[id], after)]
  }

  /** The CHECK constraints of the table. */
  predicate Checks(r: Row) {
    && r.version > 0
    && (r.bucket.Some? ==> 1 <= r.bucket.value <= 3)
    && (r.windowDays.Some? ==> 1 <= r.windowDays.value <= 180)
    && (r.scope.All? <==> r.scopeId.None?)
    && r.delegator != r.delegate
    && (r.endsAt.Some? ==> r.startsAt < r.endsAt.value)
  }

  predicate Visible(t: Rows, tenant: Id, id: Id) {
    id in t && t[id].tenant == tenant && t[id].deletedAt.None?
  }

  function Find(t: Rows, tenant: Id, id: Id): Result<Row> {
    if Visible(t, tenant, id) then Ok(t[id]) else Err(NotFound)
  }

  /** What a versioned update that matched no row reports. */
  function Probe(t: Rows, tenant: Id, id: Id): Error {
    if !Visible(t, tenant, id) || !LiveStatus(t[id].status) then NotFound else Conflict(t[id].version)
  }

  predicate Endable(t: Rows, tenant: Id, id: Id, version: int) {
    Visible(t, tenant, id) && t[id].version == version && LiveStatus(t[id].status)
  }

  function Close(r: Row, status: Status): Row {
    Touch(r, r.(status := status))
  }

  predicate Activatable(t: Rows, tenant: Id, id: Id, version: int) {
    Visible(t, tenant, id) && t[id].version == version && t[id].status == Scheduled
  }

  function Activated(r: Row): Row {
    Touch(r, r.(status := Active))
  }

  predicate Extendable(t: Rows, tenant: Id, id: Id, version: int) {
    && Visible(t, tenant, id) && t[id].version == version
    && t[id].status == Active && t[id].endsAt.None?
  }

  /** NULL plus an interval is NULL. */
  function PushedBack(due: Option<Time>, days: int): Option<Time> {
    match due
    case None => None
    case Some(d) => Some(d + days * DAY)
  }

  function Extended(r: Row, days: int): Row {
    Touch(r, r.(reviewDueAt := PushedBack(r.reviewDueAt, days), bucket := None, windowDays := Some(days)))
  }

  function ProbeExtend(t: Rows, tenant: Id, id: Id): Error {
    if !Visible(t, tenant, id) then NotFound
    else if t[id].endsAt.Some? then NotReviewTracked
    else if t[id].status != Active then NotFound
    else Conflict(t[id].version)
  }

  predicate Warnable(t: Rows, tenant: Id, id: Id, version: int) {
    Visible(t, tenant, id) && t[id].version == version && t[id].status == Active
  }

  function Warned(r: Row, days: int): Row {
    Touch(r, r.(bucket := Some(days)))
  }

  // Bulk statements of the cascade. They carry no version guard.

  predicate HitByRevoke(r: Row, tenant: Id, user: Id) {
    r.tenant == tenant && (r.delegator == user || r.delegate == user) && Live(r)
  }

  function Revoked(r: Row, now: Time): Row {
    Touch(r, r.(status := Ended, deletedAt := Some(now)))
  }

  function RevokeAll(t: Rows, tenant: Id, user: Id, now: Time): Rows {
    map id | id in t :: if HitByRevoke(t[id], tenant, user) then Revoked(t[id], now) else t[id]
  }

  predicate HitByDisable(r: Row, tenant: Id, user: Id) {
    r.tenant == tenant && r.delegate == user && Live(r)
  }

  function DisableAll(t: Rows, tenant: Id, user: Id): Rows {
    map id | id in t :: if HitByDisable(t[id], tenant, user) then Close(t[id], Ended) else t[id]
  }

  predicate HitByScrub(r: Row, tenant: Id) {
    r.tenant == tenant && r.deletedAt.None?
  }

  function Scrubbed(r: Row, now: Time): Row {
    Touch(r, r.(deletedAt := Some(now)))
  }

  function ScrubAll(t: Rows, tenant: Id, now: Time): Rows {
    map id | id in t :: if HitByScrub(t[id], tenant) then Scrubbed(t[id], now) else t[id]
  }

  /** The ids an UPDATE ... RETURNING lists, in whatever order the database chose. */
  predicate ListsExactly(order: seq<Id>, ids: set<Id>) {
    && (forall i, j :: 0 <= i < j < |order| ==> order[i] != order[j])
    && (forall id | id in order :: id in ids)
    && (forall id | id in ids :: id in order)
  }

  function RevokeHits(t: Rows, tenant: Id, user: Id): set<Id> {
    set id | id in t && HitByRevoke(t[id], tenant, user)
  }

  function DisableHits(t: Rows, tenant: Id, user: Id): set<Id> {
    set id | id in t && HitByDisable(t[id], tenant, user)
  }

  // The four ordered, bounded selections of the sweeps.

  datatype Query =
    | ExpiringBefore(now: Time)
    | ScheduledBefore(now: Time)
    | DueForWarn(now: Time)
    | DueForAutoEnd(now: Time)

  predicate Selects(q: Query, r: Row) {
    && r.deletedAt.None?
    && match q
       case ExpiringBefore(now) => r.status == Active && r.endsAt.Some? && r.endsAt.value < now
       case ScheduledBefore(now) => r.status == Scheduled && r.startsAt <= now
       case DueForWarn(now) =>
         && r.status == Active && r.endsAt.None? && r.reviewDueAt.Some?
         && now < r.reviewDueAt.value <= now + 3 * DAY
       case DueForAutoEnd(now) =>
         r.status == Active && r.endsAt.None? && r.reviewDueAt.Some? && r.reviewDueAt.value <= now
  }

  /** The ORDER BY column of each selection; rows it selects always have it set. */
  function SortKey(q: Query, r: Row): Time {
    match q
    case ExpiringBefore(_) => if r.endsAt.Some? then r.endsAt.value else 0
    case ScheduledBefore(_) => r.startsAt
    case DueForWarn(_) => if r.reviewDueAt.Some? then r.reviewDueAt.value else 0
    case DueForAutoEnd(_) => if r.reviewDueAt.Some? then r.reviewDueAt.value else 0
  }

  function Matches(t: Rows, q: Query): set<Id> {
    set id | id in t && Selects(q, t[id])
  }

  ghost predicate Has(out: seq<Row>, id: Id) {
    exists i :: 0 <= i < |out| && out[i].id == id
  }

  lemma {:induction false} HasSnoc(out: seq<Row>, r: Row, id: Id)
    ensures Has(out + [r], id) <==> Has(out, id) || r.id == id
  {
    if Has(out, id) {
      var i :| 0 <= i < |out| && out[i].id == id;
      assert (out + [r])[i].id == id;
    } else if r.id == id {
      assert (out + [r])[|out|].id == id;
    }
  }

  /** `out` is a possible answer to `q` with LIMIT `limit`: rows of the table that match,
      none twice, in key order, and whatever was cut off by the limit sorts no earlier. */
  ghost predicate IsSelection(t: Rows, q: Query, limit: nat, out: seq<Row>) {
    && (forall i :: 0 <= i < |out| ==> out[i].id in Matches(t, q) && t[out[i].id] == out[i])
    && (forall i, j :: 0 <= i < j < |out| ==> out[i].id != out[j].id)
    && (forall i, j :: 0 <= i < j < |out| ==> SortKey(q, out[i]) <= SortKey(q, out[j]))
    && |out| <= limit
    && (forall id :: id in Matches(t, q) && !Has(out, id) ==>
          && |out| == limit
          && forall i :: 0 <= i < |out| ==> SortKey(q, out[i]) <= SortKey(q, t[id]))
  }

  predicate InListing(r: Row, tenant: Id, delegator: Id) {
    r.tenant == tenant && r.delegator == delegator && r.status == Active && r.deletedAt.None?
  }

  function Listed(t: Rows, tenant: Id, delegator: Id): set<Id> {
    set id | id in t && InListing(t[id], tenant, delegator)
  }

  /** `out` is a possible answer of ListByDelegator: exactly the delegator's active rows,
      none twice, latest start first. */
  ghost predicate IsListing(t: Rows, tenant: Id, delegator: Id, out: seq<Row>) {
    && (forall i :: 0 <= i < |out| ==> out[i].id in Listed(t, tenant, delegator) && t[out[i].id] == out[i])
    && (forall i, j :: 0 <= i < j < |out| ==> out[i].id != out[j].id)
    && (forall i, j :: 0 <= i < j < |out| ==> out[i].startsAt >= out[j].startsAt)
    && (forall id :: id in Listed(t, tenant, delegator) ==> Has(out, id))
  }
}
