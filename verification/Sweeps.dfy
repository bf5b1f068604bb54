/** The three reconciler sweeps: expiry, activation and review. Each reads an ordered,
    bounded batch once and then works through it row by row while everything else goes on;
    User Profile is always told first. */
module Sweeps {
  import opened Domain
  import opened Table
  import opened Lifecycle
  import opened Runs
  import opened Persistence
  import opened Service
  import opened Theorems

  const DEFAULT_BATCH_LIMIT := 50
  const DEFAULT_FIND_LIMIT := 100

  function BatchLimit(configured: int): int {
    if configured > 0 then configured else DEFAULT_BATCH_LIMIT
  }

  function LimitOrDefault(limit: int): nat {
    if limit <= 0 then DEFAULT_FIND_LIMIT else limit
  }

  function Limit(configured: int): nat {
    LimitOrDefault(BatchLimit(configured))
  }

  datatype Job = Expiring | Activating | Warning | AutoEnding

  function QueryFor(job: Job, now: Time): Query {
    match job
    case Expiring => ExpiringBefore(now)
    case Activating => ScheduledBefore(now)
    case Warning => DueForWarn(now)
    case AutoEnding => DueForAutoEnd(now)
  }

  function ReadFor(job: Job, now: Time, d: Row): Read {
    Read(d, now, job.Warning?)
  }

  /** The lifecycle step a sweep takes on a row it read. */
  function StepFor(job: Job, now: Time, d: Row): Step {
    match job
    case Expiring => Step.Expire(ReadFor(job, now, d))
    case Activating => Step.Activate(ReadFor(job, now, d))
    case Warning => Step.Warn(ReadFor(job, now, d))
    case AutoEnding => Step.ReviewExpire(ReadFor(job, now, d))
  }

  /** The row after that step. */
  function Moved(job: Job, now: Time, d: Row): Row {
    match job
    case Expiring => Close(d, Ended)
    case Activating => Activated(d)
    case Warning => if d.reviewDueAt.Some? then Warned(d, DaysRemaining(d.reviewDueAt.value, now)) else d
    case AutoEnding => Close(d, Ended)
  }

  /** What became of one row of the batch. Skipped: already warned for this number of days. */
  datatype Fate = Applied | Raced | Failed | Deferred | Skipped

  /** The counters a tick reports. */
  datatype Tally = Tally(
    attempted: int, succeeded: int, failed: int, deferred: int,
    warned3d: int, warned2d: int, warned1d: int, expired: int)

  const ZERO := Tally(0, 0, 0, 0, 0, 0, 0, 0)

  function Bumped(t: Tally, job: Job, now: Time, d: Row, fate: Fate): Tally {
    var t := if job.Expiring? || job.Activating? then t.(attempted := t.attempted + 1) else t;
    match fate
    case Applied => if job.Warning? then WarnBumped(t, DaysLeft(d, now)) else if job.AutoEnding? then t.(expired := t.expired + 1) else t.(succeeded := t.succeeded + 1)
    case Failed => t.(failed := t.failed + 1)
    case Deferred => t.(deferred := t.deferred + 1)
    case _ => t
  }

  function WarnBumped(t: Tally, days: int): Tally {
    match days
    case 3 => t.(warned3d := t.warned3d + 1)
    case 2 => t.(warned2d := t.warned2d + 1)
    case 1 => t.(warned1d := t.warned1d + 1)
    case _ => t
  }

  /** computeDaysRemaining. */
  function DaysLeft(d: Row, now: Time): int {
    if d.reviewDueAt.None? then 0 else DaysRemaining(d.reviewDueAt.value, now)
  }

  function TallyOf(t: Tally, job: Job, now: Time, targets: seq<Row>, fates: seq<Fate>): Tally
    requires |fates| <= |targets|
  {
    if fates == [] then t
    else
      var k := |fates| - 1;
      Bumped(TallyOf(t, job, now, targets, fates[..k]), job, now, targets[k], fates[k])
  }

  /** The steps of the rows that succeeded, in batch order. */
  function StepsOf(job: Job, now: Time, targets: seq<Row>, fates: seq<Fate>): seq<Step>
    requires |fates| <= |targets|
  {
    if fates == [] then []
    else
      var k := |fates| - 1;
      StepsOf(job, now, targets, fates[..k]) + if fates[k] == Applied then [StepFor(job, now, targets[k])] else []
  }

  /** The table after them, if nothing else happened. */
  function Swept(t: Rows, job: Job, now: Time, targets: seq<Row>, fates: seq<Fate>): Rows
    requires |fates| <= |targets|
  {
    if fates == [] then t
    else
      var k := |fates| - 1;
      var before := Swept(t, job, now, targets, fates[..k]);
      if fates[k] == Applied then before[targets[k].id := Moved(job, now, targets[k])] else before
  }

  /** What User Profile is told about a row before its step. */
  function CallFor(job: Job, d: Row): UpCall {
    if job.Activating? then SetAvailability(d.tenant, d.delegator, d.delegate, d.startsAt, ActivationUntil(d))
    else ClearPointer(d.tenant, d.delegator)
  }

  /** The calls that got through: one for every row that was not deferred; warnings make none. */
  function CallsOf(job: Job, targets: seq<Row>, fates: seq<Fate>): seq<UpCall>
    requires |fates| <= |targets|
  {
    if fates == [] then []
    else
      var k := |fates| - 1;
      CallsOf(job, targets, fates[..k]) + if fates[k] == Deferred || job.Warning? then [] else [CallFor(job, targets[k])]
  }

  // ---------------------------------------------------------------- one row

  /** A versioned write that finds the version it expects finds the row that was read. */
  lemma {:induction false} ReadIsCurrent(s: State, rd: Read)
    requires Inv(s) && rd in s.seen && rd.row.id in s.rows && s.rows[rd.row.id].version == rd.row.version
    ensures s.rows[rd.row.id] == rd.row && rd.row.id in s.hist
  {
    assert RowLe(rd.row, s.rows[rd.row.id]);
  }

  /** Committing this row and this event is exactly the step. */
  ghost predicate StepsTo(s: State, step: Step, after: Row, e: Event) {
    && Enabled(s, step)
    && Apply(s, step).rows == s.rows[after.id := after]
    && Apply(s, step).outbox == s.outbox + [e] && Apply(s, step).policies == s.policies
  }

  function EventFor(job: Job, now: Time, d: Row): Event {
    var kind := match job
      case Expiring => EndedBy(Expired)
      case Activating => Started
      case Warning => ReviewRequested(DaysLeft(d, now))
      case AutoEnding => EndedBy(ReviewExpired);
    Event(d.id, d.tenant, kind, d.delegator, d.delegate)
  }

  /** The row as read is the row there is, so the versioned write is the sweep's step. */
  lemma {:induction false} SweepStepsTo(s: State, job: Job, now: Time, d: Row)
    requires Inv(s) && ReadFor(job, now, d) in s.seen && Selects(QueryFor(job, now), d) && Current(s.rows, d)
    requires job.Activating? ==> Announced(s.up, d.tenant, d.delegator, d.delegate)
    requires job.Expiring? || job.AutoEnding? ==> ClearPointer(d.tenant, d.delegator) in s.up
    requires job.Warning? ==> d.bucket != Some(DaysLeft(d, now))
    ensures StepsTo(s, StepFor(job, now, d), Moved(job, now, d), EventFor(job, now, d))
  {
    CellAt(s, d.id);
  }

  /** How a sweep's transaction ended: committed with its event, found no row to change, or
      failed without a trace. */
  ghost predicate TxDone(before: Store, after: Store, matched: bool, row: Row, e: Event, raced: bool, failed: bool) {
    && (raced || failed ==> after == before)
    && (!failed ==> (raced <==> !matched))
    && (!raced && !failed ==> after == before.(rows := before.rows[row.id := row], outbox := before.outbox + [e]))
  }

  /** The transaction of endExpired and endReviewExpired. */
  method EndTx(db: Database, d: Row, e: Event) returns (raced: bool, failed: bool)
    requires db.tx.None?
    modifies db
    ensures db.tx.None? && (db.healthy ==> !failed)
    ensures Current(old(db.durable.rows), d) ==>
              TxDone(old(db.durable), db.durable, Endable(old(db.durable.rows), d.tenant, d.id, d.version), Close(d, Ended), e, raced, failed)
    ensures !Endable(old(db.durable.rows), d.tenant, d.id, d.version) ==> (raced || failed) && db.durable == old(db.durable)
  {
    var joined := db.Enter();
    var r := db.End(d.tenant, d.id, Ended, d.version);
    raced := r.Err? && (r.error.NotFound? || r.error.Conflict?);
    failed := r.Err? && !raced;
    if r.Ok? {
      failed := db.Enqueue(e);
    }
    failed := db.Leave(joined, failed);
  }

  /** The transaction of activateScheduled. */
  method ActivateTx(db: Database, d: Row, e: Event) returns (raced: bool, failed: bool)
    requires db.tx.None?
    modifies db
    ensures db.tx.None? && (db.healthy ==> !failed)
    ensures Current(old(db.durable.rows), d) ==>
              TxDone(old(db.durable), db.durable, Activatable(old(db.durable.rows), d.tenant, d.id, d.version), Activated(d), e, raced, failed)
    ensures !Activatable(old(db.durable.rows), d.tenant, d.id, d.version) ==> (raced || failed) && db.durable == old(db.durable)
  {
    var joined := db.Enter();
    var r := db.ActivateRow(d.tenant, d.id, d.version);
    raced, failed := r.Ok? && r.value.None?, r.Err?;
    if r.Ok? && r.value.Some? {
      failed := db.Enqueue(e);
    }
    failed := db.Leave(joined, failed);
  }

  /** The transaction of the warning pass. */
  method WarnTx(db: Database, d: Row, days: int, e: Event) returns (raced: bool, failed: bool)
    requires db.tx.None? && 1 <= days <= 3
    modifies db
    ensures db.tx.None? && (db.healthy ==> !failed)
    ensures Current(old(db.durable.rows), d) ==>
              TxDone(old(db.durable), db.durable, Warnable(old(db.durable.rows), d.tenant, d.id, d.version), Warned(d, days), e, raced, failed)
    ensures !Warnable(old(db.durable.rows), d.tenant, d.id, d.version) ==> (raced || failed) && db.durable == old(db.durable)
  {
    var joined := db.Enter();
    var r := db.MarkReviewWarned(d.tenant, d.id, days, d.version);
    raced := r.Some? && (r.value.NotFound? || r.value.Conflict?);
    failed := r.Some? && !raced;
    if r.None? {
      failed := db.Enqueue(e);
    }
    failed := db.Leave(joined, failed);
  }

  /** endExpired and endReviewExpired: the end and its event commit together; somebody else
      having been faster is not a failure. */
  method EndDue(w: World, job: Job, now: Time, d: Row) returns (fate: Fate)
    requires job.Expiring? || job.AutoEnding?
    requires w.Valid() && ReadFor(job, now, d) in w.seen && Selects(QueryFor(job, now), d)
    requires ClearPointer(d.tenant, d.delegator) in w.up
    modifies w, w.db
    ensures w.Valid() && fate in {Applied, Raced, Failed} && old(w.log) <= w.log && old(w.seen) <= w.seen
    ensures Commits(w.log) == Commits(old(w.log)) + if fate == Applied then [StepFor(job, now, d)] else []
    ensures Calls(w.log) == Calls(old(w.log))
    ensures w.db.durable.rows == if fate == Applied then old(w.db.durable.rows)[d.id := Moved(job, now, d)] else old(w.db.durable.rows)
    ensures fate == Raced ==> !Current(old(w.db.durable.rows), d)
    ensures w.db.healthy ==> fate != Failed
  {
    var pre := w.State();
    if Endable(pre.rows, d.tenant, d.id, d.version) {
      ReadIsCurrent(pre, ReadFor(job, now, d));
      SweepStepsTo(pre, job, now, d);
    }
    var raced, failed := EndTx(w.db, d, EventFor(job, now, d));
    fate := if failed then Failed else if raced then Raced else Applied;
    if fate == Applied {
      w.Record(pre, StepFor(job, now, d), true);
    }
  }

  predicate Current(t: Rows, d: Row) {
    d.id in t && t[d.id] == d
  }

  /** A moment of the world, as far as a sweep is concerned. */
  datatype Moment = Moment(log: seq<Mark>, rows: Rows)

  ghost function Here(w: World): Moment
    reads w, w.db
  {
    Moment(w.log, w.db.durable.rows)
  }

  /** What can become of a row. A warning passes a row over exactly when it was already told
      this number of days; when everything is smooth, nothing else fails to happen. */
  ghost predicate FateOk(job: Job, smooth: bool, now: Time, d: Row, fate: Fate) {
    if job.Warning? then
      && fate != Deferred
      && (fate == Skipped <==> d.bucket == Some(DaysLeft(d, now)))
      && (smooth ==> fate == Applied || fate == Skipped)
    else
      fate != Skipped && (smooth ==> fate == Applied)
  }

  ghost predicate FatesOk(job: Job, smooth: bool, now: Time, targets: seq<Row>, fates: seq<Fate>)
    requires |fates| <= |targets|
  {
    forall i :: 0 <= i < |fates| ==> FateOk(job, smooth, now, targets[i], fates[i])
  }

  /** One row of a batch: at most its one step, after its one call, and nothing else. */
  ghost predicate RowDone(job: Job, now: Time, d: Row, fate: Fate, before: Moment, after: Moment, alone: bool, healthy: bool) {
    && before.log <= after.log
    && Commits(after.log) == Commits(before.log) + (if fate == Applied then [StepFor(job, now, d)] else [])
    && Calls(after.log) == Calls(before.log) + (if fate == Deferred || job.Warning? then [] else [CallFor(job, d)])
    && (alone ==> after.rows == if fate == Applied then before.rows[d.id := Moved(job, now, d)] else before.rows)
    && FateOk(job, alone && healthy && Current(before.rows, d), now, d, fate)
  }

  /** One row of an expiry or auto-end batch. A row whose pointer could not be cleared is
      left alone until the next tick. */
  method EndOne(w: World, job: Job, now: Time, d: Row) returns (fate: Fate)
    requires job.Expiring? || job.AutoEnding?
    requires w.Valid() && ReadFor(job, now, d) in w.seen && Selects(QueryFor(job, now), d)
    modifies w, w.db
    ensures w.Valid() && old(w.log) <= w.log && old(w.seen) <= w.seen && fate != Skipped
    ensures Commits(w.log) == Commits(old(w.log)) + if fate == Applied then [StepFor(job, now, d)] else []
    ensures Calls(w.log) == Calls(old(w.log)) + if fate == Deferred then [] else [ClearPointer(d.tenant, d.delegator)]
    ensures w.alone ==> w.db.durable.rows == if fate == Applied then old(w.db.durable.rows)[d.id := Moved(job, now, d)] else old(w.db.durable.rows)
    ensures w.alone && w.db.healthy && Current(old(w.db.durable.rows), d) ==> fate == Applied
  {
    w.Pause();
    var told := w.CallUp(ClearPointer(d.tenant, d.delegator));
    if !told.Done? { return Deferred; }
    w.Pause();
    fate := EndDue(w, job, now, d);
  }

  /** activateScheduled. */
  method ActivateDue(w: World, now: Time, d: Row) returns (fate: Fate)
    requires w.Valid() && ReadFor(Activating, now, d) in w.seen && Selects(QueryFor(Activating, now), d)
    requires Announced(w.up, d.tenant, d.delegator, d.delegate)
    modifies w, w.db
    ensures w.Valid() && fate in {Applied, Raced, Failed} && old(w.log) <= w.log && old(w.seen) <= w.seen
    ensures Commits(w.log) == Commits(old(w.log)) + if fate == Applied then [StepFor(Activating, now, d)] else []
    ensures Calls(w.log) == Calls(old(w.log))
    ensures w.db.durable.rows == if fate == Applied then old(w.db.durable.rows)[d.id := Moved(Activating, now, d)] else old(w.db.durable.rows)
    ensures fate == Raced ==> !Current(old(w.db.durable.rows), d)
    ensures w.db.healthy ==> fate != Failed
  {
    var pre := w.State();
    if Activatable(pre.rows, d.tenant, d.id, d.version) {
      ReadIsCurrent(pre, ReadFor(Activating, now, d));
      SweepStepsTo(pre, Activating, now, d);
    }
    var raced, failed := ActivateTx(w.db, d, EventFor(Activating, now, d));
    fate := if failed then Failed else if raced then Raced else Applied;
    if fate == Applied {
      w.Record(pre, StepFor(Activating, now, d), true);
    }
  }

  method ActivateOne(w: World, now: Time, d: Row) returns (fate: Fate)
    requires w.Valid() && ReadFor(Activating, now, d) in w.seen && Selects(QueryFor(Activating, now), d)
    modifies w, w.db
    ensures w.Valid() && old(w.log) <= w.log && old(w.seen) <= w.seen && fate != Skipped
    ensures Commits(w.log) == Commits(old(w.log)) + if fate == Applied then [StepFor(Activating, now, d)] else []
    ensures Calls(w.log) == Calls(old(w.log)) + if fate == Deferred then [] else
              [SetAvailability(d.tenant, d.delegator, d.delegate, d.startsAt, if d.endsAt.Some? then d.endsAt else d.reviewDueAt)]
    ensures w.alone ==> w.db.durable.rows == if fate == Applied then old(w.db.durable.rows)[d.id := Moved(Activating, now, d)] else old(w.db.durable.rows)
    ensures w.alone && w.db.healthy && Current(old(w.db.durable.rows), d) ==> fate == Applied
  {
    w.Pause();
    var oooUntil := d.endsAt;
    if oooUntil.None? {
      oooUntil := d.reviewDueAt;
    }
    var told := w.CallUp(SetAvailability(d.tenant, d.delegator, d.delegate, d.startsAt, oooUntil));
    if !told.Done? { return Deferred; }
    w.Pause();
    fate := ActivateDue(w, now, d);
  }

  /** The body of the warning pass: mark the row and announce the days together. */
  method WarnOne(w: World, now: Time, d: Row) returns (fate: Fate)
    requires w.Valid() && ReadFor(Warning, now, d) in w.seen && Selects(QueryFor(Warning, now), d)
    modifies w, w.db
    ensures w.Valid() && old(w.log) <= w.log && old(w.seen) <= w.seen
    ensures Commits(w.log) == Commits(old(w.log)) + if fate == Applied then [StepFor(Warning, now, d)] else []
    ensures Calls(w.log) == Calls(old(w.log))
    ensures w.alone ==> w.db.durable.rows == if fate == Applied then old(w.db.durable.rows)[d.id := Moved(Warning, now, d)] else old(w.db.durable.rows)
    ensures FateOk(Warning, w.alone && w.db.healthy && Current(old(w.db.durable.rows), d), now, d, fate)
  {
    var days := DaysRemaining(d.reviewDueAt.value, now);
    if d.bucket == Some(days) { return Skipped; }
    w.Pause();
    fate := WarnDue(w, now, d, days);
  }

  method WarnDue(w: World, now: Time, d: Row, days: int) returns (fate: Fate)
    requires w.Valid() && ReadFor(Warning, now, d) in w.seen && Selects(QueryFor(Warning, now), d)
    requires days == DaysRemaining(d.reviewDueAt.value, now) && d.bucket != Some(days)
    modifies w, w.db
    ensures w.Valid() && fate in {Applied, Raced, Failed} && old(w.log) <= w.log && old(w.seen) <= w.seen
    ensures Commits(w.log) == Commits(old(w.log)) + if fate == Applied then [StepFor(Warning, now, d)] else []
    ensures Calls(w.log) == Calls(old(w.log))
    ensures w.db.durable.rows == if fate == Applied then old(w.db.durable.rows)[d.id := Moved(Warning, now, d)] else old(w.db.durable.rows)
    ensures fate == Raced ==> !Current(old(w.db.durable.rows), d)
    ensures w.db.healthy ==> fate != Failed
  {
    var pre := w.State();
    if Warnable(pre.rows, d.tenant, d.id, d.version) {
      ReadIsCurrent(pre, ReadFor(Warning, now, d));
      SweepStepsTo(pre, Warning, now, d);
    }
    var raced, failed := WarnTx(w.db, d, days, EventFor(Warning, now, d));
    fate := if failed then Failed else if raced then Raced else Applied;
    if fate == Applied {
      w.Record(pre, StepFor(Warning, now, d), true);
    }
  }

  // ---------------------------------------------------------------- one batch

  /** What happened since `before` is exactly the steps and calls of these rows, and the
      counters say so. */
  ghost predicate Accounted(
    before: seq<Mark>, after: seq<Mark>, first: Tally, last: Tally, job: Job, now: Time, targets: seq<Row>, fates: seq<Fate>)
    requires |fates| <= |targets|
  {
    && before <= after
    && Commits(after) == Commits(before) + StepsOf(job, now, targets, fates)
    && Calls(after) == Calls(before) + CallsOf(job, targets, fates)
    && last == TallyOf(first, job, now, targets, fates)
  }

  lemma {:induction false} AccountedSnoc(
      before: seq<Mark>, mid: seq<Mark>, after: seq<Mark>, first: Tally, last: Tally,
      job: Job, now: Time, targets: seq<Row>, fates: seq<Fate>, next: Fate)
    requires |fates| < |targets| && Accounted(before, mid, first, last, job, now, targets, fates) && mid <= after
    requires Commits(after) == Commits(mid) + if next == Applied then [StepFor(job, now, targets[|fates|])] else []
    requires Calls(after) == Calls(mid) + if next == Deferred || job.Warning? then [] else [CallFor(job, targets[|fates|])]
    ensures Accounted(before, after, first, Bumped(last, job, now, targets[|fates|], next), job, now, targets, fates + [next])
  {
    assert (fates + [next])[..|fates + [next]| - 1] == fates;
  }

  /** Alone, a sweep leaves the table as its own steps leave it, later rows untouched. */
  ghost predicate Undisturbed(before: Rows, after: Rows, job: Job, now: Time, targets: seq<Row>, fates: seq<Fate>)
    requires |fates| <= |targets|
  {
    after == Swept(before, job, now, targets, fates) && Pending(after, targets, |fates|)
  }

  lemma {:induction false} UndisturbedSnoc(
      before: Rows, mid: Rows, after: Rows, job: Job, now: Time, targets: seq<Row>, fates: seq<Fate>, next: Fate)
    requires |fates| < |targets| && Undisturbed(before, mid, job, now, targets, fates)
    requires forall i, j :: 0 <= i < j < |targets| ==> targets[i].id != targets[j].id
    requires after == if next == Applied then mid[targets[|fates|].id := Moved(job, now, targets[|fates|])] else mid
    ensures Undisturbed(before, after, job, now, targets, fates + [next])
  {
    assert (fates + [next])[..|fates + [next]| - 1] == fates;
    forall i | |fates| + 1 <= i < |targets| ensures Current(after, targets[i]) {
      assert Current(mid, targets[i]);
    }
  }

  /** The batch query of a sweep, and the memory of what it read. */
  method Look(w: World, job: Job, now: Time, configured: int) returns (r: Result<seq<Row>>)
    requires w.Valid()
    modifies w, w.db
    ensures w.Valid() && old(w.log) <= w.log && old(w.seen) <= w.seen && w.db.durable == old(w.db.durable)
    ensures Commits(w.log) == Commits(old(w.log)) && Calls(w.log) == Calls(old(w.log))
    ensures r.Ok? ==> Worklist(w.db.durable.rows, w.seen, job, now, r.value)
    ensures r.Ok? ==> |old(w.log)| < |w.log| && ReadAt(w.log, |w.log|, job, now, configured, r.value)
    ensures w.db.healthy ==> r.Ok?
  {
    var down := w.db.Fault();
    if down { return Err(DbUnavailable); }
    w.KeyedById();
    var out := w.db.Select(QueryFor(job, now), Limit(configured));
    w.Record(w.State(), Snapshot(now, job.Warning?), true);
    forall i | 0 <= i < |out| ensures ReadFor(job, now, out[i]) in w.seen {
      assert w.db.durable.rows[out[i].id] == out[i];
    }
    SelectionIsWorklist(w.db.durable.rows, w.seen, job, now, Limit(configured), out);
    r := Ok(out);
  }

  /** The sweep's read at this moment of the log returned this batch. */
  ghost predicate ReadAt(log: seq<Mark>, at: nat, job: Job, now: Time, configured: int, targets: seq<Row>) {
    && 0 < at <= |log| && log[at - 1].mine && log[at - 1].step == Snapshot(now, job.Warning?)
    && IsSelection(log[at - 1].after.rows, QueryFor(job, now), Limit(configured), targets)
  }

  /** The batch is what the query returned at some moment of the tick. */
  ghost predicate WasRead(before: seq<Mark>, after: seq<Mark>, job: Job, now: Time, configured: int, targets: seq<Row>) {
    exists at: nat :: |before| < at && ReadAt(after, at, job, now, configured, targets)
  }

  lemma {:induction false} StillRead(
      before: seq<Mark>, mid: seq<Mark>, after: seq<Mark>, at: nat, job: Job, now: Time, configured: int, targets: seq<Row>)
    requires |before| < at && ReadAt(mid, at, job, now, configured, targets) && mid <= after
    ensures WasRead(before, after, job, now, configured, targets)
  {
    assert after[at - 1] == mid[at - 1];
    assert ReadAt(after, at, job, now, configured, targets);
  }

  lemma {:induction false} Widened(
      before: seq<Mark>, start: seq<Mark>, mid: seq<Mark>, after: seq<Mark>, job: Job, now: Time, configured: int, targets: seq<Row>)
    requires WasRead(start, mid, job, now, configured, targets) && |before| <= |start| && mid <= after
    ensures WasRead(before, after, job, now, configured, targets)
  {
    var at: nat :| |start| < at && ReadAt(mid, at, job, now, configured, targets);
    StillRead(before, mid, after, at, job, now, configured, targets);
  }

  ghost predicate Known(seen: set<Read>, job: Job, now: Time, targets: seq<Row>) {
    forall i :: 0 <= i < |targets| ==> ReadFor(job, now, targets[i]) in seen
  }

  /** What a loop needs to know of its batch. */
  ghost predicate Worklist(t: Rows, seen: set<Read>, job: Job, now: Time, targets: seq<Row>) {
    && Known(seen, job, now, targets) && Pending(t, targets, 0)
    && (forall i :: 0 <= i < |targets| ==> Selects(QueryFor(job, now), targets[i]))
    && (forall i, j :: 0 <= i < j < |targets| ==> targets[i].id != targets[j].id)
  }

  lemma {:induction false} SelectionIsWorklist(t: Rows, seen: set<Read>, job: Job, now: Time, limit: nat, targets: seq<Row>)
    requires IsSelection(t, QueryFor(job, now), limit, targets) && Known(seen, job, now, targets)
    ensures Worklist(t, seen, job, now, targets)
  {
    forall i | 0 <= i < |targets| ensures Selects(QueryFor(job, now), targets[i]) && Current(t, targets[i]) {
      assert targets[i].id in Matches(t, QueryFor(job, now));
    }
  }

  /** The rows not worked on yet are still as they were read. */
  ghost predicate Pending(t: Rows, targets: seq<Row>, from: nat) {
    forall i :: from <= i < |targets| ==> Current(t, targets[i])
  }

  /** The body of each loop, by job. */
  method WorkOn(w: World, job: Job, now: Time, d: Row) returns (fate: Fate)
    requires w.Valid() && ReadFor(job, now, d) in w.seen && Selects(QueryFor(job, now), d)
    modifies w, w.db
    ensures w.Valid() && old(w.seen) <= w.seen
    ensures RowDone(job, now, d, fate, old(Here(w)), Here(w), w.alone, w.db.healthy)
  {
    if job.Activating? {
      fate := ActivateOne(w, now, d);
    } else if job.Warning? {
      fate := WarnOne(w, now, d);
    } else {
      fate := EndOne(w, job, now, d);
    }
  }

  /** What the rows worked on so far amount to. */
  ghost predicate Progress(
    job: Job, now: Time, targets: seq<Row>, fates: seq<Fate>, first: Tally, last: Tally, before: Moment, after: Moment,
    alone: bool, healthy: bool)
    requires |fates| <= |targets|
  {
    && Accounted(before.log, after.log, first, last, job, now, targets, fates)
    && (alone ==> Undisturbed(before.rows, after.rows, job, now, targets, fates))
    && FatesOk(job, alone && healthy, now, targets, fates)
  }

  lemma {:induction false} ProgressSnoc(
      job: Job, now: Time, targets: seq<Row>, fates: seq<Fate>, next: Fate, first: Tally, last: Tally,
      before: Moment, mid: Moment, after: Moment, alone: bool, healthy: bool)
    requires |fates| < |targets| && forall i, j :: 0 <= i < j < |targets| ==> targets[i].id != targets[j].id
    requires Progress(job, now, targets, fates, first, last, before, mid, alone, healthy)
    requires RowDone(job, now, targets[|fates|], next, mid, after, alone, healthy)
    ensures Progress(job, now, targets, fates + [next], first, Bumped(last, job, now, targets[|fates|], next), before, after, alone, healthy)
  {
    AccountedSnoc(before.log, mid.log, after.log, first, last, job, now, targets, fates, next);
    if alone {
      UndisturbedSnoc(before.rows, mid.rows, after.rows, job, now, targets, fates, next);
    }
  }

  /** The loop of every sweep: one row after the other, counting. */
  method RunBatch(w: World, job: Job, now: Time, targets: seq<Row>, t: Tally) returns (res: Tally, ghost fates: seq<Fate>)
    requires w.Valid() && Worklist(w.db.durable.rows, w.seen, job, now, targets)
    modifies w, w.db
    ensures w.Valid() && old(w.seen) <= w.seen && |fates| == |targets|
    ensures Progress(job, now, targets, fates, t, res, old(Here(w)), Here(w), w.alone, w.db.healthy)
  {
    res, fates := t, [];
    var i := 0;
    while i < |targets|
      invariant 0 <= i == |fates| <= |targets|
      invariant w.Valid() && old(w.seen) <= w.seen
      invariant Progress(job, now, targets, fates, t, res, old(Here(w)), Here(w), w.alone, w.db.healthy)
    {
      ghost var mid := Here(w);
      var fate := WorkOn(w, job, now, targets[i]);
      ProgressSnoc(job, now, targets, fates, fate, t, res, old(Here(w)), mid, Here(w), w.alone, w.db.healthy);
      res, fates, i := Bumped(res, job, now, targets[i], fate), fates + [fate], i + 1;
    }
  }

  /** What one query and the loop over its batch amount to. */
  ghost predicate Passed(
    job: Job, now: Time, configured: int, t: Tally, res: Tally, err: bool, targets: seq<Row>, fates: seq<Fate>,
    before: Moment, after: Moment, alone: bool, healthy: bool)
  {
    && |fates| == |targets|
    && Accounted(before.log, after.log, t, res, job, now, targets, fates)
    && FatesOk(job, alone && healthy, now, targets, fates)
    && (if err then targets == [] else WasRead(before.log, after.log, job, now, configured, targets))
    && (forall i :: 0 <= i < |targets| ==> Selects(QueryFor(job, now), targets[i]))
    && (healthy ==> !err)
    && (alone ==> after.rows == Swept(before.rows, job, now, targets, fates))
    && (alone && !err ==> IsSelection(before.rows, QueryFor(job, now), Limit(configured), targets))
  }

  method Pass(w: World, job: Job, now: Time, configured: int, t: Tally)
    returns (res: Tally, err: bool, ghost targets: seq<Row>, ghost fates: seq<Fate>)
    requires w.Valid()
    modifies w, w.db
    ensures w.Valid() && Known(w.seen, job, now, targets)
    ensures Passed(job, now, configured, t, res, err, targets, fates, old(Here(w)), Here(w), w.alone, w.db.healthy)
  {
    res, targets, fates := t, [], [];
    w.Pause();
    var found := Look(w, job, now, configured);
    err := found.Err?;
    if err { return; }
    targets := found.value;
    ghost var log := w.log;
    res, fates := RunBatch(w, job, now, found.value, t);
    StillRead(old(w.log), log, w.log, |log|, job, now, configured, targets);
  }

  // ---------------------------------------------------------------- what the counters mean

  /** The event a sweep's step publishes. */
  function KindOf(step: Step): Option<Kind> {
    match step
    case Activate(_) => Some(Started)
    case Expire(_) => Some(EndedBy(Expired))
    case ReviewExpire(_) => Some(EndedBy(ReviewExpired))
    case Warn(rd) => Some(ReviewRequested(DaysLeft(rd.row, rd.now)))
    case _ => None
  }

  /** How many of these steps publish `kind`. */
  function Published(steps: seq<Step>, kind: Kind): nat {
    if steps == [] then 0
    else Published(steps[..|steps| - 1], kind) + if KindOf(steps[|steps| - 1]) == Some(kind) then 1 else 0
  }

  lemma {:induction false} PublishedSnoc(steps: seq<Step>, step: Step, kind: Kind)
    ensures Published(steps + [step], kind) == Published(steps, kind) + if KindOf(step) == Some(kind) then 1 else 0
  {
    assert (steps + [step])[..|steps + [step]| - 1] == steps;
  }

  /** How many events of a kind a list holds. */
  function HowMany(events: seq<Event>, kind: Kind): nat {
    if events == [] then 0
    else HowMany(events[..|events| - 1], kind) + if events[|events| - 1].kind == kind then 1 else 0
  }

  lemma {:induction false} HowManySnoc(events: seq<Event>, more: seq<Event>, kind: Kind)
    requires |more| <= 1
    ensures HowMany(events + more, kind) == HowMany(events, kind) + if |more| == 1 && more[0].kind == kind then 1 else 0
  {
    if |more| == 1 {
      assert (events + more)[..|events + more| - 1] == events;
    } else {
      assert events + more == events;
    }
  }

  /** Each step of a sweep publishes exactly one event, of its kind. */
  lemma {:induction false} StepPublishes(s: State, step: Step)
    requires Enabled(s, step) && KindOf(step).Some?
    ensures |EventsOf(s, step)| == 1 && EventsOf(s, step)[0].kind == KindOf(step).value
  {
  }

  predicate SweepSteps(steps: seq<Step>) {
    forall i :: 0 <= i < |steps| ==> KindOf(steps[i]).Some?
  }

  /** The events emitted since `before` are those the committed sweep steps publish. */
  ghost predicate EmittedSince(before: seq<Mark>, after: seq<Mark>, steps: seq<Step>, kind: Kind)
    requires TrueLog(before) && TrueLog(after)
  {
    && HowMany(Emitted(after), kind) == HowMany(Emitted(before), kind) + Published(steps, kind)
    && |Emitted(after)| == |Emitted(before)| + |steps|
  }

  lemma {:induction false} TruePrefix(before: seq<Mark>, after: seq<Mark>)
    requires TrueLog(after) && before <= after
    ensures TrueLog(before)
  {
    forall k | 0 <= k < |before| ensures StepAt(before, k) {
      assert StepAt(after, k);
      assert before[k] == after[k] && Before(before, k) == Before(after, k);
    }
  }

  lemma {:induction false} StepsEmit(before: seq<Mark>, after: seq<Mark>, steps: seq<Step>, kind: Kind)
    requires TrueLog(before) && TrueLog(after) && before <= after
    requires Commits(after) == Commits(before) + steps && SweepSteps(steps)
    ensures EmittedSince(before, after, steps, kind)
    decreases |after|, 0
  {
    if |before| == |after| {
      SameLengthPrefix(before, after);
    } else {
      TrueFront(after);
      var front, last := after[..|after| - 1], after[|after| - 1];
      var more := if last.mine && Committing(last.step) then EventsOf(Before(after, |front|), last.step) else [];
      assert Emitted(after) == Emitted(front) + more;
      if last.mine && Committing(last.step) {
        LastStepEmits(before, front, after, steps, kind);
      } else {
        StepsEmit(before, front, steps, kind);
        HowManySnoc(Emitted(front), more, kind);
      }
    }
  }

  lemma {:induction false} CommitsGrow(before: seq<Mark>, after: seq<Mark>)
    requires before <= after
    ensures Commits(before) <= Commits(after)
  {
    if |before| == |after| {
      SameLengthPrefix(before, after);
    } else {
      CommitsGrow(before, after[..|after| - 1]);
    }
  }

  lemma {:induction false} LastOfSum<T>(a: seq<T>, b: seq<T>, c: seq<T>, x: T)
    requires a + b == c + [x] && a <= c
    ensures b != [] && b[|b| - 1] == x && c == a + b[..|b| - 1]
  {
    var whole := a + b;
    assert |b| >= 1 && whole[|whole| - 1] == b[|b| - 1] == x;
    assert whole[..|whole| - 1] == c;
    assert whole[..|whole| - 1] == a + b[..|b| - 1];
  }

  lemma {:induction false} LastStepEmits(before: seq<Mark>, front: seq<Mark>, after: seq<Mark>, steps: seq<Step>, kind: Kind)
    requires TrueLog(before) && TrueLog(after) && before <= front && after != [] && front == after[..|after| - 1] && TrueLog(front)
    requires after[|after| - 1].mine && Committing(after[|after| - 1].step)
    requires Commits(after) == Commits(before) + steps && SweepSteps(steps)
    ensures EmittedSince(before, after, steps, kind)
    decreases |front|, 1
  {
    var last := after[|after| - 1].step;
    CommitsGrow(before, front);
    LastOfSum(Commits(before), steps, Commits(front), last);
    StepsEmit(before, front, steps[..|steps| - 1], kind);
    TrueFront(after);
    StepPublishes(Before(after, |front|), last);
    HowManySnoc(Emitted(front), EventsOf(Before(after, |front|), last), kind);
  }

  function HowOften(fates: seq<Fate>, fate: Fate): nat {
    if fates == [] then 0 else HowOften(fates[..|fates| - 1], fate) + if fates[|fates| - 1] == fate then 1 else 0
  }

  /** Failures and deferrals are counted as such, by every job. */
  lemma {:induction false} FailuresAreCounted(t: Tally, job: Job, now: Time, targets: seq<Row>, fates: seq<Fate>)
    requires |fates| <= |targets|
    ensures TallyOf(t, job, now, targets, fates).failed == t.failed + HowOften(fates, Failed)
    ensures TallyOf(t, job, now, targets, fates).deferred == t.deferred + HowOften(fates, Deferred)
  {
    if fates != [] {
      FailuresAreCounted(t, job, now, targets, fates[..|fates| - 1]);
    }
  }

  predicate CountersMatch(before: Tally, after: Tally, steps: seq<Step>) {
    && after.succeeded == before.succeeded + Published(steps, Started) + Published(steps, EndedBy(Expired))
    && after.expired == before.expired + Published(steps, EndedBy(ReviewExpired))
    && after.warned3d == before.warned3d + Published(steps, ReviewRequested(3))
    && after.warned2d == before.warned2d + Published(steps, ReviewRequested(2))
    && after.warned1d == before.warned1d + Published(steps, ReviewRequested(1))
    && |steps| == after.succeeded + after.expired + after.warned3d + after.warned2d + after.warned1d
                  - before.succeeded - before.expired - before.warned3d - before.warned2d - before.warned1d
  }

  lemma {:induction false} CountersMatchSnoc(before: Tally, mid: Tally, steps: seq<Step>, job: Job, now: Time, d: Row, fate: Fate)
    requires CountersMatch(before, mid, steps) && Selects(QueryFor(job, now), d)
    ensures CountersMatch(before, Bumped(mid, job, now, d, fate), steps + if fate == Applied then [StepFor(job, now, d)] else [])
  {
    var step := StepFor(job, now, d);
    if fate == Applied {
      PublishedSnoc(steps, step, Started);
      PublishedSnoc(steps, step, EndedBy(Expired));
      PublishedSnoc(steps, step, EndedBy(ReviewExpired));
      PublishedSnoc(steps, step, ReviewRequested(3));
      PublishedSnoc(steps, step, ReviewRequested(2));
      PublishedSnoc(steps, step, ReviewRequested(1));
    } else {
      assert steps + [] == steps;
    }
  }

  /** Each counter equals the number of events of its kind the sweep itself committed, and
      expiry and activation account for every row they attempted. */
  lemma {:induction false} CountersAreEffects(t: Tally, job: Job, now: Time, targets: seq<Row>, fates: seq<Fate>)
    requires |fates| <= |targets| && forall i :: 0 <= i < |targets| ==> Selects(QueryFor(job, now), targets[i])
    requires Skipped in fates ==> job.Warning?
    ensures CountersMatch(t, TallyOf(t, job, now, targets, fates), StepsOf(job, now, targets, fates))
    ensures var r := TallyOf(t, job, now, targets, fates);
            job.Expiring? || job.Activating? ==>
              && r.attempted == t.attempted + |fates|
              && r.attempted - t.attempted
                 == (r.succeeded - t.succeeded) + (r.failed - t.failed) + (r.deferred - t.deferred) + HowOften(fates, Raced)
  {
    if fates != [] {
      var k := |fates| - 1;
      CountersAreEffects(t, job, now, targets, fates[..k]);
      CountersMatchSnoc(t, TallyOf(t, job, now, targets, fates[..k]), StepsOf(job, now, targets, fates[..k]), job, now, targets[k], fates[k]);
    }
  }

  /** User Profile accepts only windows that have an end, are not empty and span at most
      180 days. */
  predicate ProperWindow(d: Row) {
    ActivationUntil(d).Some? && d.startsAt < ActivationUntil(d).value <= d.startsAt + POLICY_DAYS_MAX * DAY
  }

  /** What a sweep read at some moment was the table of a state of the lifecycle. */
  lemma {:induction false} ReadOfAState(log: seq<Mark>, at: nat)
    requires TrueLog(log) && 0 < at <= |log|
    ensures Inv(log[at - 1].after)
  {
    TruePrefix(log[..at], log);
    LogLater(log[..at], at);
    assert Before(log[..at], at) == log[at - 1].after;
  }

  lemma {:induction false} ScheduledRowsHaveProperWindows(before: seq<Mark>, log: seq<Mark>, now: Time, configured: int, targets: seq<Row>)
    requires TrueLog(log) && WasRead(before, log, Activating, now, configured, targets)
    ensures forall i :: 0 <= i < |targets| ==> ProperWindow(targets[i])
  {
    var at: nat :| |before| < at && ReadAt(log, at, Activating, now, configured, targets);
    var s := log[at - 1].after;
    ReadOfAState(log, at);
    forall i | 0 <= i < |targets| ensures ProperWindow(targets[i]) {
      assert targets[i].id in Matches(s.rows, ScheduledBefore(now));
      ScheduledWindow(s, targets[i].id);
    }
  }

  // ---------------------------------------------------------------- the three sweeps

  /** One tick of an expiry or activation sweep, told from outside: what it took on, what it
      did to each row, and that nothing else happened on its behalf. */
  ghost predicate Ticked(
    before: seq<Mark>, after: seq<Mark>, res: Tally, err: bool, job: Job, now: Time, configured: int,
    targets: seq<Row>, fates: seq<Fate>)
  {
    && |fates| == |targets| <= Limit(configured) && Skipped !in fates
    && (if err then targets == [] else WasRead(before, after, job, now, configured, targets))
    && (forall i :: 0 <= i < |targets| ==> Selects(QueryFor(job, now), targets[i]))
    && Accounted(before, after, ZERO, res, job, now, targets, fates)
  }

  /** Alone and with everything up, a tick handles its whole batch. */
  ghost predicate TickedAlone(before: Rows, after: Rows, job: Job, now: Time, configured: int, targets: seq<Row>, fates: seq<Fate>) {
    && IsSelection(before, QueryFor(job, now), Limit(configured), targets)
    && |fates| == |targets| && (forall i :: 0 <= i < |fates| ==> fates[i] == Applied)
    && after == Swept(before, job, now, targets, fates)
  }

  function IdsOf(targets: seq<Row>): set<Id> {
    if targets == [] then {} else IdsOf(targets[..|targets| - 1]) + {targets[|targets| - 1].id}
  }

  lemma {:induction false} InIds(targets: seq<Row>, id: Id)
    ensures id in IdsOf(targets) <==> Has(targets, id)
  {
    if targets != [] {
      var front, last := targets[..|targets| - 1], targets[|targets| - 1];
      InIds(front, id);
      HasSnoc(front, last, id);
      assert targets == front + [last];
    }
  }

  lemma {:induction false} AsManyIdsAsRows(targets: seq<Row>)
    requires forall i, j :: 0 <= i < j < |targets| ==> targets[i].id != targets[j].id
    ensures |IdsOf(targets)| == |targets|
  {
    if targets != [] {
      var front, last := targets[..|targets| - 1], targets[|targets| - 1];
      AsManyIdsAsRows(front);
      InIds(front, last.id);
    }
  }

  /** A batch moves its own rows and no others. */
  lemma {:induction false} SweptElsewhere(t: Rows, job: Job, now: Time, targets: seq<Row>, fates: seq<Fate>, id: Id)
    requires |fates| <= |targets| && forall i :: 0 <= i < |targets| ==> targets[i].id in t
    ensures Swept(t, job, now, targets, fates).Keys == t.Keys
    ensures id in t ==>
              || Swept(t, job, now, targets, fates)[id] == t[id]
              || exists i :: 0 <= i < |fates| && targets[i].id == id && fates[i] == Applied
                   && Swept(t, job, now, targets, fates)[id] == Moved(job, now, targets[i])
  {
    if fates != [] {
      SweptElsewhere(t, job, now, targets, fates[..|fates| - 1], id);
    }
  }

  /** A row whose fate is Applied is moved. */
  lemma {:induction false} SweptAt(t: Rows, job: Job, now: Time, targets: seq<Row>, fates: seq<Fate>, k: nat)
    requires k < |fates| <= |targets| && fates[k] == Applied
    requires forall i, j :: 0 <= i < j < |targets| ==> targets[i].id != targets[j].id
    ensures targets[k].id in Swept(t, job, now, targets, fates)
    ensures Swept(t, job, now, targets, fates)[targets[k].id] == Moved(job, now, targets[k])
  {
    if k < |fates| - 1 {
      SweptAt(t, job, now, targets, fates[..|fates| - 1], k);
    }
  }

  lemma {:induction false} SizeOfRest<T>(a: set<T>, b: set<T>)
    ensures b <= a ==> |a - b| == |a| - |b|
    ensures a <= b ==> |a| <= |b| && a - b == {}
  {
    if b <= a {
      assert a == (a - b) + b;
    } else if a <= b {
      assert b == (b - a) + a;
    }
  }

  /** If a row had to wait, there were more than the batch can hold. */
  lemma {:induction false} BacklogFits(t: Rows, q: Query, limit: nat, out: seq<Row>, id: Id)
    requires IsSelection(t, q, limit, out) && id in Matches(t, q) && !Has(out, id)
    ensures |Matches(t, q)| > limit
  {
    AsManyIdsAsRows(out);
    InIds(out, id);
    forall x | x in IdsOf(out) ensures x in Matches(t, q) - {id} {
      InIds(out, x);
    }
    SizeOfRest(IdsOf(out), Matches(t, q) - {id});
  }

  /** What a tick of expiry, activation or auto-end leaves: the rows of the batch are moved,
      nothing else changes, what was left out sorts no earlier, and nothing was left out if
      there was room. */
  ghost predicate Handled(before: Rows, after: Rows, job: Job, now: Time, limit: nat, targets: seq<Row>) {
    var q := QueryFor(job, now);
    && after.Keys == before.Keys && |targets| <= limit
    && (forall i :: 0 <= i < |targets| ==>
          Current(before, targets[i]) && Selects(q, targets[i]) && after[targets[i].id] == Moved(job, now, targets[i]))
    && (forall id :: id in before && !Has(targets, id) ==> after[id] == before[id])
    && (forall id, i :: id in Matches(before, q) && !Has(targets, id) && 0 <= i < |targets| ==>
          SortKey(q, targets[i]) <= SortKey(q, before[id]))
    && (|Matches(before, q)| <= limit ==> forall id :: id in Matches(before, q) ==> Has(targets, id))
  }

  lemma {:induction false} BatchHandled(
      before: Rows, after: Rows, job: Job, now: Time, configured: int, targets: seq<Row>, fates: seq<Fate>)
    requires !job.Warning? && TickedAlone(before, after, job, now, configured, targets, fates)
    ensures Handled(before, after, job, now, Limit(configured), targets)
  {
    SweptElsewhere(before, job, now, targets, fates, 0);
    forall i | 0 <= i < |targets|
      ensures Current(before, targets[i]) && Selects(QueryFor(job, now), targets[i]) && after[targets[i].id] == Moved(job, now, targets[i])
    {
      assert targets[i].id in Matches(before, QueryFor(job, now));
      SweptAt(before, job, now, targets, fates, i);
    }
    forall id | id in before && !Has(targets, id) ensures after[id] == before[id] {
      SweptElsewhere(before, job, now, targets, fates, id);
    }
    if id :| id in Matches(before, QueryFor(job, now)) && !Has(targets, id) {
      BacklogFits(before, QueryFor(job, now), Limit(configured), targets, id);
    }
  }

  // ---------------------------------------------------------------- punctuality

  predicate EndIsPast(r: Row, now: Time) {
    r.status == Active && r.deletedAt.None? && r.endsAt.Some? && r.endsAt.value < now
  }

  predicate StartHasCome(r: Row, now: Time) {
    r.status == Scheduled && r.deletedAt.None? && r.startsAt <= now
  }

  /** Exactly these rows were ended, all of whose ends are past; whoever had to wait ends no
      earlier, and nobody has to wait if the backlog fits the batch. */
  ghost predicate ExpiresOnTime(before: Rows, after: Rows, now: Time, batch: nat, targets: seq<Row>) {
    && after.Keys == before.Keys && |targets| <= batch
    && (forall i :: 0 <= i < |targets| ==>
          && targets[i].id in before && before[targets[i].id] == targets[i] && EndIsPast(targets[i], now)
          && after[targets[i].id] == targets[i].(status := Ended, version := targets[i].version + 1))
    && (forall id :: id in before && !Has(targets, id) ==> after[id] == before[id])
    && (forall id, i :: id in before && EndIsPast(before[id], now) && !Has(targets, id) && 0 <= i < |targets| ==>
          targets[i].endsAt.value <= before[id].endsAt.value)
    && (|set id | id in before && EndIsPast(before[id], now)| <= batch ==>
          forall id :: id in after ==> !EndIsPast(after[id], now))
  }

  /** Exactly these rows were activated, all of whose starts have come; whoever had to wait
      starts no earlier, and nobody has to wait if the backlog fits the batch. */
  ghost predicate StartsOnTime(before: Rows, after: Rows, now: Time, batch: nat, targets: seq<Row>) {
    && after.Keys == before.Keys && |targets| <= batch
    && (forall i :: 0 <= i < |targets| ==>
          && targets[i].id in before && before[targets[i].id] == targets[i] && StartHasCome(targets[i], now)
          && after[targets[i].id] == targets[i].(status := Active, version := targets[i].version + 1))
    && (forall id :: id in before && !Has(targets, id) ==> after[id] == before[id])
    && (forall id, i :: id in before && StartHasCome(before[id], now) && !Has(targets, id) && 0 <= i < |targets| ==>
          targets[i].startsAt <= before[id].startsAt)
    && (|set id | id in before && StartHasCome(before[id], now)| <= batch ==>
          forall id :: id in after ==> !StartHasCome(after[id], now))
  }

  lemma {:induction false} ExpiryIsOnTime(before: Rows, after: Rows, now: Time, configured: int, targets: seq<Row>)
    requires Handled(before, after, Expiring, now, Limit(configured), targets)
    ensures ExpiresOnTime(before, after, now, if configured > 0 then configured else 50, targets)
  {
    assert Matches(before, ExpiringBefore(now)) == set id | id in before && EndIsPast(before[id], now);
    if |Matches(before, ExpiringBefore(now))| <= Limit(configured) {
      forall id | id in after ensures !EndIsPast(after[id], now) {
        if Has(targets, id) {
          var i :| 0 <= i < |targets| && targets[i].id == id;
          assert Current(before, targets[i]);
        } else {
          assert after[id] == before[id] && id !in Matches(before, ExpiringBefore(now));
        }
      }
    }
  }

  lemma {:induction false} ActivationIsOnTime(before: Rows, after: Rows, now: Time, configured: int, targets: seq<Row>)
    requires Handled(before, after, Activating, now, Limit(configured), targets)
    ensures StartsOnTime(before, after, now, if configured > 0 then configured else 50, targets)
  {
    assert Matches(before, ScheduledBefore(now)) == set id | id in before && StartHasCome(before[id], now);
    if |Matches(before, ScheduledBefore(now))| <= Limit(configured) {
      forall id | id in after ensures !StartHasCome(after[id], now) {
        if Has(targets, id) {
          var i :| 0 <= i < |targets| && targets[i].id == id;
          assert Current(before, targets[i]);
        } else {
          assert after[id] == before[id] && id !in Matches(before, ScheduledBefore(now));
        }
      }
    }
  }

  method Expiry(w: World, now: Time, configured: int)
    returns (res: Tally, err: bool, ghost targets: seq<Row>, ghost fates: seq<Fate>)
    requires w.Valid()
    modifies w, w.db
    ensures w.Valid() && Ticked(old(w.log), w.log, res, err, Expiring, now, configured, targets, fates)
    ensures w.alone && w.db.healthy ==> TickedAlone(old(w.db.durable.rows), w.db.durable.rows, Expiring, now, configured, targets, fates)
    ensures forall i :: 0 <= i < |targets| ==>
              targets[i].status == Active && targets[i].deletedAt.None? && targets[i].endsAt.Some? && targets[i].endsAt.value < now
    ensures w.alone && w.db.healthy ==>
              ExpiresOnTime(old(w.db.durable.rows), w.db.durable.rows, now, if configured > 0 then configured else 50, targets)
  {
    res, err, targets, fates := Pass(w, Expiring, now, configured, ZERO);
    BatchWithinLimit(old(w.log), w.log, err, Expiring, now, configured, targets);
    if w.alone && w.db.healthy {
      BatchHandled(old(w.db.durable.rows), w.db.durable.rows, Expiring, now, configured, targets, fates);
      ExpiryIsOnTime(old(w.db.durable.rows), w.db.durable.rows, now, configured, targets);
    }
  }

  method Activation(w: World, now: Time, configured: int)
    returns (res: Tally, err: bool, ghost targets: seq<Row>, ghost fates: seq<Fate>)
    requires w.Valid()
    modifies w, w.db
    ensures w.Valid() && Ticked(old(w.log), w.log, res, err, Activating, now, configured, targets, fates)
    ensures forall i :: 0 <= i < |targets| ==> ProperWindow(targets[i])
    ensures w.alone && w.db.healthy ==> TickedAlone(old(w.db.durable.rows), w.db.durable.rows, Activating, now, configured, targets, fates)
    ensures forall i :: 0 <= i < |targets| ==>
              targets[i].status == Scheduled && targets[i].deletedAt.None? && targets[i].startsAt <= now
    ensures w.alone && w.db.healthy ==>
              StartsOnTime(old(w.db.durable.rows), w.db.durable.rows, now, if configured > 0 then configured else 50, targets)
  {
    res, err, targets, fates := Pass(w, Activating, now, configured, ZERO);
    BatchWithinLimit(old(w.log), w.log, err, Activating, now, configured, targets);
    if w.alone && w.db.healthy {
      BatchHandled(old(w.db.durable.rows), w.db.durable.rows, Activating, now, configured, targets, fates);
      ActivationIsOnTime(old(w.db.durable.rows), w.db.durable.rows, now, configured, targets);
    }
    if !err {
      ScheduledRowsHaveProperWindows(old(w.log), w.log, now, configured, targets);
    }
  }

  lemma {:induction false} BatchWithinLimit(
      before: seq<Mark>, after: seq<Mark>, err: bool, job: Job, now: Time, configured: int, targets: seq<Row>)
    requires if err then targets == [] else WasRead(before, after, job, now, configured, targets)
    ensures |targets| <= Limit(configured)
  {
  }

  lemma {:induction false} WarningsMakeNoCalls(targets: seq<Row>, fates: seq<Fate>)
    requires |fates| <= |targets|
    ensures CallsOf(Warning, targets, fates) == []
  {
    if fates != [] {
      WarningsMakeNoCalls(targets, fates[..|fates| - 1]);
    }
  }

  /** One tick of the review sweep, told from outside; `mid` are the counters between the two
      passes. The two batches have no row in common. */
  ghost predicate Reviewed(
    before: seq<Mark>, after: seq<Mark>, mid: Tally, res: Tally, now: Time,
    warned: seq<Row>, warnFates: seq<Fate>, due: seq<Row>, dueFates: seq<Fate>)
  {
    && |warnFates| == |warned| && |dueFates| == |due| && Skipped !in dueFates
    && before <= after
    && Commits(after) == Commits(before) + StepsOf(Warning, now, warned, warnFates) + StepsOf(AutoEnding, now, due, dueFates)
    && Calls(after) == Calls(before) + CallsOf(AutoEnding, due, dueFates)
    && mid == TallyOf(ZERO, Warning, now, warned, warnFates)
    && res == TallyOf(mid, AutoEnding, now, due, dueFates)
    && NoneInBoth(warned, due)
  }

  ghost predicate NoneInBoth(warned: seq<Row>, due: seq<Row>) {
    forall i, j :: 0 <= i < |warned| && 0 <= j < |due| ==> warned[i].id != due[j].id
  }

  /** A deadline never comes closer, so a row selected for a warning cannot be overdue by
      the same clock, whatever committed between the two passes. */
  lemma {:induction false} WarnedIsNotDue(s: State, now: Time, warned: seq<Row>, due: seq<Row>, limit: nat)
    requires Inv(s) && Known(s.seen, Warning, now, warned)
    requires forall i :: 0 <= i < |warned| ==> Selects(DueForWarn(now), warned[i])
    requires IsSelection(s.rows, DueForAutoEnd(now), limit, due)
    ensures NoneInBoth(warned, due)
  {
    forall i, j | 0 <= i < |warned| && 0 <= j < |due| ensures warned[i].id != due[j].id {
      assert ReadFor(Warning, now, warned[i]) in s.seen;
      assert due[j].id in Matches(s.rows, DueForAutoEnd(now));
    }
  }

  lemma {:induction false} BatchesAreDisjoint(
      between: seq<Mark>, log: seq<Mark>, err: bool, now: Time, configured: int, warned: seq<Row>, due: seq<Row>)
    requires TrueLog(log) && between <= log && Known(Before(between, |between|).seen, Warning, now, warned)
    requires forall i :: 0 <= i < |warned| ==> Selects(DueForWarn(now), warned[i])
    requires if err then due == [] else WasRead(between, log, AutoEnding, now, configured, due)
    ensures NoneInBoth(warned, due)
  {
    if !err {
      var at: nat :| |between| < at && ReadAt(log, at, AutoEnding, now, configured, due);
      var s, front := log[at - 1].after, log[..at];
      ReadOfAState(log, at);
      TruePrefix(front, log);
      LogLater(front, |between|);
      assert Before(front, |between|) == Before(between, |between|) && Before(front, at) == s;
      WarnedIsNotDue(s, now, warned, due, Limit(configured));
    }
  }

  /** Alone and with everything up, every row of the batch is told or was told already. */
  ghost predicate WarnedAlone(before: Rows, after: Rows, now: Time, configured: int, targets: seq<Row>, fates: seq<Fate>) {
    && IsSelection(before, DueForWarn(now), Limit(configured), targets)
    && |fates| == |targets| && (forall i :: 0 <= i < |fates| ==> fates[i] == Applied || fates[i] == Skipped)
    && after == Swept(before, Warning, now, targets, fates)
  }

  predicate ReviewIsOverdue(r: Row, now: Time) {
    r.status == Active && r.deletedAt.None? && r.endsAt.None? && r.reviewDueAt.Some? && r.reviewDueAt.value <= now
  }

  predicate ReviewIsNear(r: Row, now: Time) {
    r.status == Active && r.deletedAt.None? && r.endsAt.None? && r.reviewDueAt.Some? && now < r.reviewDueAt.value <= now + 3 * DAY
  }

  /** The row knows that its delegator was told the days left, rounded up; it changed only if
      it did not know before. */
  predicate KnowsDaysLeft(before: Row, after: Row, now: Time) {
    && before.reviewDueAt.Some? && after.bucket.Some?
    && (after.bucket.value - 1) * DAY < before.reviewDueAt.value - now <= after.bucket.value * DAY
    && after == if before.bucket == after.bucket then before else before.(bucket := after.bucket, version := before.version + 1)
  }

  /** Exactly these rows were told their days, all of whose deadlines are near, and all of
      them if they fit the batch. */
  ghost predicate WarnsOnTime(before: Rows, after: Rows, now: Time, batch: nat, warned: seq<Row>) {
    && after.Keys == before.Keys && |warned| <= batch
    && (forall i :: 0 <= i < |warned| ==>
          Current(before, warned[i]) && ReviewIsNear(warned[i], now) && KnowsDaysLeft(warned[i], after[warned[i].id], now))
    && (forall id :: id in before && !Has(warned, id) ==> after[id] == before[id])
    && (|set id | id in before && ReviewIsNear(before[id], now)| <= batch ==>
          forall id :: id in before && ReviewIsNear(before[id], now) ==> Has(warned, id))
  }

  /** Exactly these rows were ended, all of whose deadlines are past; whoever had to wait is
      due no earlier, and nobody has to wait if the backlog fits the batch. */
  ghost predicate AutoEndsOnTime(before: Rows, after: Rows, now: Time, batch: nat, due: seq<Row>) {
    && after.Keys == before.Keys && |due| <= batch
    && (forall i :: 0 <= i < |due| ==>
          && Current(before, due[i]) && ReviewIsOverdue(due[i], now)
          && after[due[i].id] == due[i].(status := Ended, version := due[i].version + 1))
    && (forall id :: id in before && !Has(due, id) ==> after[id] == before[id])
    && (forall id, i :: id in before && ReviewIsOverdue(before[id], now) && !Has(due, id) && 0 <= i < |due| ==>
          due[i].reviewDueAt.value <= before[id].reviewDueAt.value)
    && (|set id | id in before && ReviewIsOverdue(before[id], now)| <= batch ==>
          forall id :: id in after ==> !ReviewIsOverdue(after[id], now))
  }

  lemma {:induction false} NoneOverdue(before: Rows, after: Rows, now: Time, limit: nat, due: seq<Row>)
    requires Handled(before, after, AutoEnding, now, limit, due) && |Matches(before, DueForAutoEnd(now))| <= limit
    ensures forall id :: id in after ==> !ReviewIsOverdue(after[id], now)
  {
    forall id | id in after ensures !ReviewIsOverdue(after[id], now) {
      if Has(due, id) {
        var i :| 0 <= i < |due| && due[i].id == id;
        assert Current(before, due[i]);
      } else {
        assert after[id] == before[id] && id !in Matches(before, DueForAutoEnd(now));
      }
    }
  }

  lemma {:induction false} AutoEndIsOnTime(before: Rows, after: Rows, now: Time, configured: int, due: seq<Row>)
    requires Handled(before, after, AutoEnding, now, Limit(configured), due)
    ensures AutoEndsOnTime(before, after, now, if configured > 0 then configured else 50, due)
  {
    assert Matches(before, DueForAutoEnd(now)) == set id | id in before && ReviewIsOverdue(before[id], now);
    forall i | 0 <= i < |due|
      ensures ReviewIsOverdue(due[i], now) && after[due[i].id] == due[i].(status := Ended, version := due[i].version + 1)
    {
      assert Current(before, due[i]) && Selects(DueForAutoEnd(now), due[i]);
    }
    forall id, i | id in before && ReviewIsOverdue(before[id], now) && !Has(due, id) && 0 <= i < |due|
      ensures due[i].reviewDueAt.value <= before[id].reviewDueAt.value
    {
      assert id in Matches(before, DueForAutoEnd(now)) && Selects(DueForAutoEnd(now), due[i]);
      assert SortKey(DueForAutoEnd(now), due[i]) <= SortKey(DueForAutoEnd(now), before[id]);
    }
    if |Matches(before, DueForAutoEnd(now))| <= Limit(configured) {
      NoneOverdue(before, after, now, Limit(configured), due);
    }
  }

  /** Row by row, what a warning pass leaves. */
  lemma {:induction false} WarnedRow(
      before: Rows, after: Rows, now: Time, configured: int, warned: seq<Row>, fates: seq<Fate>, k: nat)
    requires WarnedAlone(before, after, now, configured, warned, fates) && FatesOk(Warning, false, now, warned, fates)
    requires k < |warned|
    ensures Current(before, warned[k]) && ReviewIsNear(warned[k], now)
    ensures after.Keys == before.Keys && KnowsDaysLeft(warned[k], after[warned[k].id], now)
  {
    assert warned[k].id in Matches(before, DueForWarn(now));
    SweptElsewhere(before, Warning, now, warned, fates, warned[k].id);
    assert FateOk(Warning, false, now, warned[k], fates[k]);
    if fates[k] == Applied {
      SweptAt(before, Warning, now, warned, fates, k);
    }
  }

  lemma {:induction false} WarningIsOnTime(
      before: Rows, after: Rows, now: Time, configured: int, warned: seq<Row>, fates: seq<Fate>)
    requires WarnedAlone(before, after, now, configured, warned, fates) && FatesOk(Warning, false, now, warned, fates)
    ensures WarnsOnTime(before, after, now, if configured > 0 then configured else 50, warned)
  {
    SweptElsewhere(before, Warning, now, warned, fates, 0);
    forall i | 0 <= i < |warned|
      ensures Current(before, warned[i]) && ReviewIsNear(warned[i], now) && KnowsDaysLeft(warned[i], after[warned[i].id], now)
    {
      WarnedRow(before, after, now, configured, warned, fates, i);
    }
    forall id | id in before && !Has(warned, id) ensures after[id] == before[id] {
      SweptElsewhere(before, Warning, now, warned, fates, id);
    }
    assert Matches(before, DueForWarn(now)) == set id | id in before && ReviewIsNear(before[id], now);
    if id :| id in Matches(before, DueForWarn(now)) && !Has(warned, id) {
      BacklogFits(before, DueForWarn(now), Limit(configured), warned, id);
    }
  }

  /** Both passes of a review tick, each on time. No row is in both, so a warned row stays as
      the first pass left it. */
  ghost predicate ReviewsOnTime(before: Rows, after: Rows, now: Time, batch: nat, warned: seq<Row>, due: seq<Row>) {
    exists rows: Rows :: WarnsOnTime(before, rows, now, batch, warned) && AutoEndsOnTime(rows, after, now, batch, due)
  }

  lemma {:induction false} ReviewIsOnTime(
      now: Time, configured: int, warned: seq<Row>, warnFates: seq<Fate>, due: seq<Row>, dueFates: seq<Fate>, before: Rows, after: Rows)
    requires ReviewAlone(now, configured, warned, warnFates, due, dueFates, before, after)
    requires |warnFates| == |warned| && FatesOk(Warning, false, now, warned, warnFates)
    ensures ReviewsOnTime(before, after, now, if configured > 0 then configured else 50, warned, due)
  {
    var rows: Rows :|
      && WarnedAlone(before, rows, now, configured, warned, warnFates)
      && TickedAlone(rows, after, AutoEnding, now, configured, due, dueFates);
    WarningIsOnTime(before, rows, now, configured, warned, warnFates);
    BatchHandled(rows, after, AutoEnding, now, configured, due, dueFates);
    AutoEndIsOnTime(rows, after, now, configured, due);
  }

  /** What a review tick has done to one row. */
  lemma {:induction false} RowReviewed(
      before: Rows, rows: Rows, after: Rows, now: Time, batch: nat, warned: seq<Row>, due: seq<Row>, id: Id)
    requires WarnsOnTime(before, rows, now, batch, warned) && AutoEndsOnTime(rows, after, now, batch, due) && id in before
    ensures id in rows && id in after
    ensures ReviewIsOverdue(before[id], now) ==>
              rows[id] == before[id] && (after[id] == before[id] || after[id] == before[id].(status := Ended, version := before[id].version + 1))
    ensures !ReviewIsOverdue(before[id], now) ==> !ReviewIsOverdue(rows[id], now) && after[id] == rows[id]
    ensures ReviewIsNear(before[id], now) && Has(warned, id) ==> KnowsDaysLeft(before[id], after[id], now)
    ensures !ReviewIsNear(before[id], now) ==> rows[id] == before[id]
  {
    if Has(warned, id) {
      var i :| 0 <= i < |warned| && warned[i].id == id;
      assert Current(before, warned[i]);
    }
    if Has(due, id) {
      var i :| 0 <= i < |due| && due[i].id == id;
      assert Current(rows, due[i]);
    }
  }

  /** With room for all of them, a review tick leaves no row past its deadline. */
  lemma {:induction false} ReviewLeavesNoneOverdue(
      before: Rows, rows: Rows, after: Rows, now: Time, batch: nat, warned: seq<Row>, due: seq<Row>)
    requires WarnsOnTime(before, rows, now, batch, warned) && AutoEndsOnTime(rows, after, now, batch, due)
    requires |set id | id in before && ReviewIsOverdue(before[id], now)| <= batch
    ensures forall id :: id in after ==> !ReviewIsOverdue(after[id], now)
  {
    forall id | id in before ensures ReviewIsOverdue(rows[id], now) <==> ReviewIsOverdue(before[id], now) {
      RowReviewed(before, rows, after, now, batch, warned, due, id);
    }
    assert (set id | id in rows && ReviewIsOverdue(rows[id], now)) == set id | id in before && ReviewIsOverdue(before[id], now);
  }

  /** It leaves no row near its deadline that does not know its days, and does not touch a row
      that is neither near nor past it. */
  lemma {:induction false} ReviewTellsAllNear(
      before: Rows, rows: Rows, after: Rows, now: Time, batch: nat, warned: seq<Row>, due: seq<Row>)
    requires WarnsOnTime(before, rows, now, batch, warned) && AutoEndsOnTime(rows, after, now, batch, due)
    ensures after.Keys == before.Keys
    ensures |set id | id in before && ReviewIsNear(before[id], now)| <= batch ==>
              forall id :: id in before && ReviewIsNear(before[id], now) ==> KnowsDaysLeft(before[id], after[id], now)
    ensures forall id :: id in before && !ReviewIsNear(before[id], now) && !ReviewIsOverdue(before[id], now) ==> after[id] == before[id]
  {
    forall id | id in before
      ensures ReviewIsNear(before[id], now) && Has(warned, id) ==> KnowsDaysLeft(before[id], after[id], now)
      ensures !ReviewIsNear(before[id], now) && !ReviewIsOverdue(before[id], now) ==> after[id] == before[id]
    {
      RowReviewed(before, rows, after, now, batch, warned, due, id);
    }
  }

  lemma {:induction false} PassesCompose(
      before: seq<Mark>, between: seq<Mark>, after: seq<Mark>, mid: Tally, res: Tally, now: Time,
      warned: seq<Row>, warnFates: seq<Fate>, due: seq<Row>, dueFates: seq<Fate>)
    requires |warnFates| == |warned| && |dueFates| == |due| && Skipped !in dueFates && NoneInBoth(warned, due)
    requires Accounted(before, between, ZERO, mid, Warning, now, warned, warnFates)
    requires Accounted(between, after, mid, res, AutoEnding, now, due, dueFates)
    ensures Reviewed(before, after, mid, res, now, warned, warnFates, due, dueFates)
  {
    WarningsMakeNoCalls(warned, warnFates);
    assert Calls(before) + [] == Calls(before);
  }

  lemma {:induction false} PassesRead(
      before: seq<Mark>, between: seq<Mark>, after: seq<Mark>, err: bool, now: Time, configured: int,
      warned: seq<Row>, due: seq<Row>)
    requires |before| <= |between| && between <= after
    requires WasRead(before, between, Warning, now, configured, warned)
    requires if err then due == [] else WasRead(between, after, AutoEnding, now, configured, due)
    ensures WasRead(before, after, Warning, now, configured, warned)
    ensures due != [] || !err ==> WasRead(before, after, AutoEnding, now, configured, due)
  {
    Widened(before, before, between, after, Warning, now, configured, warned);
    if !err {
      Widened(before, between, after, after, AutoEnding, now, configured, due);
    }
  }

  /** What each pass of a review tick read. */
  ghost predicate ReviewRead(
    now: Time, configured: int, err: bool, warned: seq<Row>, warnFates: seq<Fate>, due: seq<Row>, before: seq<Mark>, after: seq<Mark>)
  {
    && |warnFates| == |warned| && FatesOk(Warning, false, now, warned, warnFates)
    && (warned != [] || !err ==> WasRead(before, after, Warning, now, configured, warned))
    && (due != [] || !err ==> WasRead(before, after, AutoEnding, now, configured, due))
    && (forall i :: 0 <= i < |warned| ==> Selects(DueForWarn(now), warned[i]))
    && (forall j :: 0 <= j < |due| ==> Selects(DueForAutoEnd(now), due[j]))
  }

  /** Alone and with everything up, both passes handle their whole batch. */
  ghost predicate ReviewAlone(
    now: Time, configured: int, warned: seq<Row>, warnFates: seq<Fate>, due: seq<Row>, dueFates: seq<Fate>, before: Rows, after: Rows)
  {
    exists rows: Rows ::
      && WarnedAlone(before, rows, now, configured, warned, warnFates)
      && TickedAlone(rows, after, AutoEnding, now, configured, due, dueFates)
  }

  /** One tick of the review sweep. */
  ghost predicate ReviewTicked(
    now: Time, configured: int, mid: Tally, res: Tally, err: bool, warned: seq<Row>, warnFates: seq<Fate>,
    due: seq<Row>, dueFates: seq<Fate>, before: Moment, after: Moment, alone: bool, healthy: bool)
  {
    && Reviewed(before.log, after.log, mid, res, now, warned, warnFates, due, dueFates)
    && ReviewRead(now, configured, err, warned, warnFates, due, before.log, after.log)
    && (alone && healthy ==> !err && ReviewAlone(now, configured, warned, warnFates, due, dueFates, before.rows, after.rows))
  }

  lemma {:induction false} FatesAlone(job: Job, smooth: bool, now: Time, targets: seq<Row>, fates: seq<Fate>)
    requires |fates| == |targets| && FatesOk(job, smooth, now, targets, fates)
    ensures FatesOk(job, false, now, targets, fates)
    ensures smooth ==> forall i :: 0 <= i < |fates| ==> fates[i] == Applied || (job.Warning? && fates[i] == Skipped)
    ensures !job.Warning? ==> Skipped !in fates
  {
    forall i | 0 <= i < |fates|
      ensures FateOk(job, false, now, targets[i], fates[i])
      ensures smooth ==> fates[i] == Applied || (job.Warning? && fates[i] == Skipped)
      ensures !job.Warning? ==> fates[i] != Skipped
    {
      assert FateOk(job, smooth, now, targets[i], fates[i]);
    }
  }

  lemma {:induction false} PassesAlone(
      now: Time, configured: int, warned: seq<Row>, warnFates: seq<Fate>, due: seq<Row>, dueFates: seq<Fate>,
      before: Rows, between: Rows, after: Rows)
    requires |warnFates| == |warned| && FatesOk(Warning, true, now, warned, warnFates)
    requires |dueFates| == |due| && FatesOk(AutoEnding, true, now, due, dueFates)
    requires IsSelection(before, DueForWarn(now), Limit(configured), warned)
    requires IsSelection(between, DueForAutoEnd(now), Limit(configured), due)
    requires between == Swept(before, Warning, now, warned, warnFates)
    requires after == Swept(between, AutoEnding, now, due, dueFates)
    ensures ReviewAlone(now, configured, warned, warnFates, due, dueFates, before, after)
  {
    FatesAlone(Warning, true, now, warned, warnFates);
    FatesAlone(AutoEnding, true, now, due, dueFates);
    assert WarnedAlone(before, between, now, configured, warned, warnFates);
  }

  lemma {:induction false} TwoPasses(
      now: Time, configured: int, mid: Tally, res: Tally, err: bool, warned: seq<Row>, warnFates: seq<Fate>,
      due: seq<Row>, dueFates: seq<Fate>, before: Moment, between: Moment, after: Moment, alone: bool, healthy: bool)
    requires Passed(Warning, now, configured, ZERO, mid, false, warned, warnFates, before, between, alone, healthy)
    requires Passed(AutoEnding, now, configured, mid, res, err, due, dueFates, between, after, alone, healthy)
    requires NoneInBoth(warned, due)
    ensures ReviewTicked(now, configured, mid, res, err, warned, warnFates, due, dueFates, before, after, alone, healthy)
  {
    FatesAlone(Warning, alone && healthy, now, warned, warnFates);
    FatesAlone(AutoEnding, alone && healthy, now, due, dueFates);
    PassesCompose(before.log, between.log, after.log, mid, res, now, warned, warnFates, due, dueFates);
    PassesRead(before.log, between.log, after.log, err, now, configured, warned, due);
    if alone && healthy {
      PassesAlone(now, configured, warned, warnFates, due, dueFates, before.rows, between.rows, after.rows);
    }
  }

  lemma {:induction false} FailedFirstPass(
      now: Time, configured: int, mid: Tally, warned: seq<Row>, warnFates: seq<Fate>,
      before: Moment, after: Moment, alone: bool, healthy: bool)
    requires Passed(Warning, now, configured, ZERO, mid, true, warned, warnFates, before, after, alone, healthy)
    ensures ReviewTicked(now, configured, mid, mid, true, warned, warnFates, [], [], before, after, alone, healthy)
  {
    WarningsMakeNoCalls(warned, warnFates);
  }

  /** Both passes use the one clock read at the start: first the daily warnings, then the
      auto-end, continuing the counters. */
  method ReviewSweep(w: World, now: Time, configured: int)
    returns (
        res: Tally, err: bool, ghost mid: Tally,
        ghost warned: seq<Row>, ghost warnFates: seq<Fate>, ghost due: seq<Row>, ghost dueFates: seq<Fate>)
    requires w.Valid()
    modifies w, w.db
    ensures w.Valid()
    ensures ReviewTicked(now, configured, mid, res, err, warned, warnFates, due, dueFates, old(Here(w)), Here(w), w.alone, w.db.healthy)
    ensures w.alone && w.db.healthy ==>
              ReviewsOnTime(old(w.db.durable.rows), w.db.durable.rows, now, if configured > 0 then configured else 50, warned, due)
  {
    due, dueFates := [], [];
    res, err, warned, warnFates := Pass(w, Warning, now, configured, ZERO);
    mid := res;
    if err {
      FailedFirstPass(now, configured, mid, warned, warnFates, old(Here(w)), Here(w), w.alone, w.db.healthy);
      return;
    }
    ghost var between := Here(w);
    res, err, due, dueFates := Pass(w, AutoEnding, now, configured, res);
    BatchesAreDisjoint(between.log, w.log, err, now, configured, warned, due);
    TwoPasses(now, configured, mid, res, err, warned, warnFates, due, dueFates, old(Here(w)), between, Here(w), w.alone, w.db.healthy);
    if w.alone && w.db.healthy {
      ReviewIsOnTime(now, configured, warned, warnFates, due, dueFates, old(w.db.durable.rows), w.db.durable.rows);
    }
  }

  /** Every step of a batch is about a row of that batch whose call went through. */
  lemma {:induction false} StepsAreOfTargets(job: Job, now: Time, targets: seq<Row>, fates: seq<Fate>, step: Step) returns (k: nat)
    requires |fates| <= |targets| && step in StepsOf(job, now, targets, fates)
    ensures k < |fates| && fates[k] == Applied && step == StepFor(job, now, targets[k])
    ensures !job.Warning? ==> CallFor(job, targets[k]) in CallsOf(job, targets, fates)
  {
    var n := |fates| - 1;
    if step in StepsOf(job, now, targets, fates[..n]) {
      k := StepsAreOfTargets(job, now, targets, fates[..n], step);
    } else {
      k := n;
    }
  }

  lemma {:induction false} StepsAreSweepSteps(job: Job, now: Time, targets: seq<Row>, fates: seq<Fate>)
    requires |fates| <= |targets|
    ensures SweepSteps(StepsOf(job, now, targets, fates))
  {
    if fates != [] {
      StepsAreSweepSteps(job, now, targets, fates[..|fates| - 1]);
    }
  }

  /** The counters a job does not touch. */
  lemma {:induction false} OtherCountersStay(t: Tally, job: Job, now: Time, targets: seq<Row>, fates: seq<Fate>)
    requires |fates| <= |targets|
    ensures var r := TallyOf(t, job, now, targets, fates);
            && (!job.Warning? ==> r.warned3d == t.warned3d && r.warned2d == t.warned2d && r.warned1d == t.warned1d)
            && (!job.AutoEnding? ==> r.expired == t.expired)
            && (job.Warning? || job.AutoEnding? ==> r.succeeded == t.succeeded)
  {
    if fates != [] {
      OtherCountersStay(t, job, now, targets, fates[..|fates| - 1]);
    }
  }

  /** A job that ends publishes no start, and one that starts no end. */
  lemma {:induction false} OneKindPerJob(job: Job, now: Time, targets: seq<Row>, fates: seq<Fate>)
    requires |fates| <= |targets|
    ensures job.Expiring? ==> Published(StepsOf(job, now, targets, fates), Started) == 0
    ensures job.Activating? ==> Published(StepsOf(job, now, targets, fates), EndedBy(Expired)) == 0
  {
    if fates != [] {
      var k := |fates| - 1;
      OneKindPerJob(job, now, targets, fates[..k]);
      if fates[k] == Applied {
        PublishedSnoc(StepsOf(job, now, targets, fates[..k]), StepFor(job, now, targets[k]), Started);
        PublishedSnoc(StepsOf(job, now, targets, fates[..k]), StepFor(job, now, targets[k]), EndedBy(Expired));
      } else {
        assert StepsOf(job, now, targets, fates) == StepsOf(job, now, targets, fates[..k]);
      }
    }
  }

  /** Events of this kind that appeared between two moments of the log. */
  ghost function EmittedBetween(before: seq<Mark>, after: seq<Mark>, kind: Kind): int
    requires TrueLog(before) && TrueLog(after)
  {
    HowMany(Emitted(after), kind) - HowMany(Emitted(before), kind)
  }

  lemma {:induction false} TickCountersAreSteps(res: Tally, job: Job, now: Time, targets: seq<Row>, fates: seq<Fate>)
    requires (job.Expiring? || job.Activating?) && |fates| == |targets| && Skipped !in fates
    requires forall i :: 0 <= i < |targets| ==> Selects(QueryFor(job, now), targets[i])
    requires res == TallyOf(ZERO, job, now, targets, fates)
    ensures res.succeeded == |StepsOf(job, now, targets, fates)|
    ensures res.succeeded == Published(StepsOf(job, now, targets, fates), if job.Expiring? then EndedBy(Expired) else Started)
    ensures res.attempted == |targets| == res.succeeded + res.failed + res.deferred + HowOften(fates, Raced)
    ensures res.failed == HowOften(fates, Failed) && res.deferred == HowOften(fates, Deferred)
  {
    CountersAreEffects(ZERO, job, now, targets, fates);
    OtherCountersStay(ZERO, job, now, targets, fates);
    FailuresAreCounted(ZERO, job, now, targets, fates);
    OneKindPerJob(job, now, targets, fates);
  }

  /** The counters of an expiry or activation tick equal the events it published itself, and
      account for every row it attempted. Commits report truthfully here: a commit that took
      effect and lost its reply would publish an event and count as failed. */
  lemma {:induction false} TickCountersAreEffects(
      before: seq<Mark>, after: seq<Mark>, res: Tally, err: bool, job: Job, now: Time, configured: int,
      targets: seq<Row>, fates: seq<Fate>)
    requires (job.Expiring? || job.Activating?) && TrueLog(before) && TrueLog(after)
    requires Ticked(before, after, res, err, job, now, configured, targets, fates)
    ensures res.succeeded == EmittedBetween(before, after, if job.Expiring? then EndedBy(Expired) else Started)
    ensures res.succeeded == |Emitted(after)| - |Emitted(before)|
    ensures res.attempted == |targets| == res.succeeded + res.failed + res.deferred + HowOften(fates, Raced)
    ensures res.failed == HowOften(fates, Failed) && res.deferred == HowOften(fates, Deferred)
  {
    TickCountersAreSteps(res, job, now, targets, fates);
    StepsAreSweepSteps(job, now, targets, fates);
    StepsEmit(before, after, StepsOf(job, now, targets, fates), if job.Expiring? then EndedBy(Expired) else Started);
  }

  /** The counters of the review sweep equal the announcements and ends it published itself. */
  lemma {:induction false} ReviewCountersAreEffects(
      before: seq<Mark>, after: seq<Mark>, mid: Tally, res: Tally, now: Time,
      warned: seq<Row>, warnFates: seq<Fate>, due: seq<Row>, dueFates: seq<Fate>)
    requires TrueLog(before) && TrueLog(after)
    requires Reviewed(before, after, mid, res, now, warned, warnFates, due, dueFates)
    requires forall i :: 0 <= i < |warned| ==> Selects(DueForWarn(now), warned[i])
    requires forall j :: 0 <= j < |due| ==> Selects(DueForAutoEnd(now), due[j])
    ensures res.warned3d == EmittedBetween(before, after, ReviewRequested(3))
    ensures res.warned2d == EmittedBetween(before, after, ReviewRequested(2))
    ensures res.warned1d == EmittedBetween(before, after, ReviewRequested(1))
    ensures res.expired == EmittedBetween(before, after, EndedBy(ReviewExpired))
    ensures res.warned3d + res.warned2d + res.warned1d + res.expired == |Emitted(after)| - |Emitted(before)|
    ensures res.succeeded == 0
    ensures res.failed == HowOften(warnFates, Failed) + HowOften(dueFates, Failed)
    ensures res.deferred == HowOften(warnFates, Deferred) + HowOften(dueFates, Deferred)
  {
    FailuresAreCounted(ZERO, Warning, now, warned, warnFates);
    FailuresAreCounted(mid, AutoEnding, now, due, dueFates);
    var first, second := StepsOf(Warning, now, warned, warnFates), StepsOf(AutoEnding, now, due, dueFates);
    CountersAreEffects(ZERO, Warning, now, warned, warnFates);
    CountersAreEffects(mid, AutoEnding, now, due, dueFates);
    OtherCountersStay(ZERO, Warning, now, warned, warnFates);
    OtherCountersStay(mid, AutoEnding, now, due, dueFates);
    StepsAreSweepSteps(Warning, now, warned, warnFates);
    StepsAreSweepSteps(AutoEnding, now, due, dueFates);
    assert Commits(after) == Commits(before) + (first + second);
    forall kind ensures EmittedSince(before, after, first + second, kind) && Published(first + second, kind) == Published(first, kind) + Published(second, kind) {
      StepsEmit(before, after, first + second, kind);
      PublishedConcat(first, second, kind);
    }
  }

  lemma {:induction false} PublishedConcat(a: seq<Step>, b: seq<Step>, kind: Kind)
    ensures Published(a + b, kind) == Published(a, kind) + Published(b, kind)
  {
    if b == [] {
      assert a + b == a;
    } else {
      assert (a + b)[..|a + b| - 1] == a + b[..|b| - 1];
      PublishedConcat(a, b[..|b| - 1], kind);
    }
  }
}
