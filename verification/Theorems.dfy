/** What holds in every run of the system, from an empty database. */
module Theorems {
  import opened Domain
  import opened Table
  import opened EventLog
  import opened Lifecycle
  import opened Runs

  lemma {:induction false} ReachOk(run: seq<Entry>)
    requires Legal(EMPTY, run)
    ensures Inv(Reach(EMPTY, run))
  {
    StartOk();
    RunKeeps(EMPTY, run, |run|);
  }

  /** Opens the last step of a run. */
  lemma {:induction false} LastStep(run: seq<Entry>) returns (front: seq<Entry>, s: State, step: Step)
    requires Legal(EMPTY, run) && run != []
    ensures front == run[..|run| - 1] && step == run[|run| - 1].step
    ensures Legal(EMPTY, front) && s == Reach(EMPTY, front) && Inv(s)
    ensures Enabled(s, step) && Reach(EMPTY, run) == Apply(s, step)
  {
    front, step := run[..|run| - 1], run[|run| - 1].step;
    s := Reach(EMPTY, front);
    ReachOk(front);
  }

  // ---------------------------------------------------------------- event order

  /** How a delegation stands, told by its Started and Ended events. */
  predicate StandingTold(row: Option<Row>, left: Option<Cause>, evs: seq<Kind>) {
    var live := row.Some? && Live(row.value);
    && (live ==> if row.value.status == Scheduled then evs == [] else Boundaries(evs) == [Started])
    && (row.Some? && row.value.status == Cancelled ==> EndsOnce(evs, ByRequest) || EndsOnce(evs, Reassigned))
    && (!live ==>
          match left
          case None => false
          case Some(ByEvent(reason)) => EndsOnce(evs, reason)
          case Some(_) =>
            && (Boundaries(evs) == [] || Boundaries(evs) == [Started])
            && (row.Some? ==> row.value.deletedAt.Some?))
  }

  /** The promised order of a delegation's events, against its row and the way it left. */
  ghost predicate EventsMatch(c: Cell) {
    && WellOrdered(c.evs)
    && (EscalationRequested in c.evs <==> EndedBy(DelegateDisabled) in c.evs)
    && if c.hist.Some? then StandingTold(c.row, c.hist.value.left, c.evs) else c.row.None? && c.evs == []
  }

  lemma {:induction false} BoundariesKeepEnds(evs: seq<Kind>, r: EndReason)
    ensures EndedBy(r) in evs <==> EndedBy(r) in Boundaries(evs)
  {
    if evs != [] {
      BoundariesKeepEnds(evs[..|evs| - 1], r);
      assert evs == evs[..|evs| - 1] + [evs[|evs| - 1]];
    }
  }

  lemma {:induction false} EscalatedIfDisabled(id: Id, c: Cell)
    requires CellInv(id, c) && c.hist.Some? && PhaseMeans(c.evs)
    ensures EscalationRequested in c.evs <==> EndedBy(DelegateDisabled) in c.evs
  {
    assert LeftOk(DigestOf(c.hist.value, c.evs));
    PhaseTells(PhaseOf(c.evs), c.evs);
    BoundariesKeepEnds(c.evs, DelegateDisabled);
  }

  lemma {:induction false} PhaseTellsStanding(id: Id, row: Option<Row>, d: Digest, evs: seq<Kind>)
    requires StandingOk(id, row, d) && MeansIn(d.phase, evs)
    ensures StandingTold(row, d.left, evs)
  {
  }

  lemma {:induction false} CellEventsMatch(id: Id, c: Cell)
    requires CellInv(id, c)
    ensures EventsMatch(c)
  {
    if c.hist.Some? {
      AcceptedIsWellOrdered(c.evs);
      EscalatedIfDisabled(id, c);
      PhaseTellsStanding(id, c.row, DigestOf(c.hist.value, c.evs), c.evs);
    } else {
      assert Boundaries(c.evs) == [];
    }
  }

  /** In every run, each delegation's Started and Ended events form one of: none, S, SE, E;
      what is missing or present matches its row and the way it left. */
  lemma {:induction false} EventOrder(run: seq<Entry>, id: Id)
    requires Legal(EMPTY, run)
    ensures EventsMatch(CellOf(Reach(EMPTY, run), id))
  {
    ReachOk(run);
    CellAt(Reach(EMPTY, run), id);
    CellEventsMatch(id, CellOf(Reach(EMPTY, run), id));
  }

  /** A step that takes a live delegation away without announcing it. */
  ghost predicate SilentStep(s: State, step: Step, id: Id) {
    && id in s.rows && Live(s.rows[id])
    && match step
       case RevokeUser(tenant, user, _, _) => tenant == s.rows[id].tenant && user == s.rows[id].delegator
       case ScrubTenant(tenant, _) => tenant == s.rows[id].tenant
       case _ => false
  }

  predicate Silently(left: Option<Cause>) {
    left == Some(DelegatorRevoked) || left == Some(TenantScrubbed)
  }

  lemma {:induction false} OthersAreNotSilent(s: State, step: Step, id: Id)
    requires Enabled(s, step) && !step.RevokeUser? && !step.ScrubTenant? && id in HistAfter(s, step)
    requires Silently(HistAfter(s, step)[id].left)
    ensures id in s.hist && Silently(s.hist[id].left)
  {
  }

  lemma {:induction false} SilentStepFound(s: State, step: Step, id: Id)
    requires Inv(s) && Enabled(s, step) && id in HistAfter(s, step)
    requires Silently(HistAfter(s, step)[id].left) && !(id in s.hist && Silently(s.hist[id].left))
    ensures SilentStep(s, step, id)
  {
    if !step.RevokeUser? && !step.ScrubTenant? {
      OthersAreNotSilent(s, step, id);
    }
    CellAt(s, id);
  }

  /** A delegation leaves silently only when its delegator's membership is revoked or its
      tenant is scrubbed. */
  lemma {:induction false} SilentExitHasACause(run: seq<Entry>, id: Id) returns (k: nat)
    requires Legal(EMPTY, run)
    requires id in Reach(EMPTY, run).hist && Silently(Reach(EMPTY, run).hist[id].left)
    ensures k < |run| && SilentStep(At(run, k), run[k].step, id)
  {
    var front, s, step := LastStep(run);
    if id in s.hist && Silently(s.hist[id].left) {
      k := SilentExitHasACause(front, id);
    } else {
      k := |run| - 1;
      SilentStepFound(s, step, id);
      AtEnd(front);
    }
    AtFront(run, k);
  }

  // ---------------------------------------------------------------- review deadline

  function NextWindows(before: seq<int>, step: Step, id: Id): seq<int> {
    match step
    case Create(row, _) => if row.id == id then Newborn(row).windows else before
    case Extend(_, target, days, _) => if target == id then before + [days] else before
    case _ => before
  }

  function NextRounds(before: seq<seq<int>>, step: Step, id: Id): seq<seq<int>> {
    match step
    case Create(row, _) => if row.id == id then [[]] else before
    case Extend(_, target, _, _) => if target == id then before + [[]] else before
    case Warn(rd) =>
      if rd.row.id == id && rd.row.reviewDueAt.Some? && before != [] then
        before[..|before| - 1] + [before[|before| - 1] + [DaysRemaining(rd.row.reviewDueAt.value, rd.now)]]
      else before
    case _ => before
  }

  /** The creation window of `id` followed by its extensions, read off the run itself. */
  function WindowsOf(run: seq<Entry>, id: Id): seq<int> {
    if run == [] then [] else NextWindows(WindowsOf(run[..|run| - 1], id), run[|run| - 1].step, id)
  }

  /** The days announced for `id`, one sequence for its creation and one for each extension. */
  function RoundsOf(run: seq<Entry>, id: Id): seq<seq<int>> {
    if run == [] then [] else NextRounds(RoundsOf(run[..|run| - 1], id), run[|run| - 1].step, id)
  }

  /** The history component of an id holds these windows and rounds. */
  ghost predicate Holds(s: State, id: Id, windows: seq<int>, rounds: seq<seq<int>>) {
    if id in s.hist then s.hist[id].windows == windows && s.hist[id].rounds == rounds
    else windows == [] && rounds == []
  }

  /** Only creations, extensions and warnings touch the windows and rounds of an id. */
  lemma {:induction false} OtherStepsRecordNothing(s: State, step: Step, id: Id)
    requires Enabled(s, step) && !step.Create? && !step.Extend? && !step.Warn?
    ensures HistAfter(s, step).Keys == s.hist.Keys
    ensures id in s.hist ==>
              && HistAfter(s, step)[id].windows == s.hist[id].windows
              && HistAfter(s, step)[id].rounds == s.hist[id].rounds
  {
  }

  lemma {:induction false} WarningRecorded(s: State, step: Step, id: Id, windows: seq<int>, rounds: seq<seq<int>>)
    requires Inv(s) && Enabled(s, step) && step.Warn? && Holds(s, id, windows, rounds)
    ensures Holds(Apply(s, step), id, windows, NextRounds(rounds, step, id))
  {
    CellAt(s, id);
  }

  lemma {:induction false} WindowRecorded(s: State, step: Step, id: Id, windows: seq<int>, rounds: seq<seq<int>>)
    requires Inv(s) && Enabled(s, step) && (step.Create? || step.Extend?) && Holds(s, id, windows, rounds)
    ensures Holds(Apply(s, step), id, NextWindows(windows, step, id), NextRounds(rounds, step, id))
  {
    CellAt(s, id);
  }

  lemma {:induction false} HoldsStep(s: State, step: Step, id: Id, windows: seq<int>, rounds: seq<seq<int>>)
    requires Inv(s) && Enabled(s, step) && Holds(s, id, windows, rounds)
    ensures Holds(Apply(s, step), id, NextWindows(windows, step, id), NextRounds(rounds, step, id))
  {
    if step.Warn? {
      WarningRecorded(s, step, id, windows, rounds);
    } else if step.Create? || step.Extend? {
      WindowRecorded(s, step, id, windows, rounds);
    } else {
      OtherStepsRecordNothing(s, step, id);
    }
  }

  lemma {:induction false} HistoryIsTheRun(run: seq<Entry>, id: Id)
    requires Legal(EMPTY, run)
    ensures Holds(Reach(EMPTY, run), id, WindowsOf(run, id), RoundsOf(run, id))
  {
    if run != [] {
      var front, s, step := LastStep(run);
      HistoryIsTheRun(front, id);
      HoldsStep(s, step, id, WindowsOf(front, id), RoundsOf(front, id));
    }
  }

  ghost predicate DeadlineIs(r: Row, windows: seq<int>) {
    && (r.reviewDueAt.Some? <==> r.endsAt.None?)
    && (r.endsAt.None? ==> r.reviewDueAt == Some(r.startsAt + DAY * Sum(windows)))
    && InRange(windows, POLICY_DAYS_MIN, POLICY_DAYS_MAX)
    && (r.status == Scheduled ==> |windows| == 1)
  }

  lemma {:induction false} DeadlineNow(s: State, id: Id)
    requires Inv(s) && id in s.rows
    ensures id in s.hist && DeadlineIs(s.rows[id], s.hist[id].windows)
  {
    CellAt(s, id);
    assert CellInv(id, CellOf(s, id));
  }

  /** In every run, review_due_at is set exactly for open-ended rows and is the start plus
      every window granted so far; windows are within policy; scheduled rows were never extended. */
  lemma {:induction false} ReviewDeadline(run: seq<Entry>, id: Id)
    requires Legal(EMPTY, run) && id in Reach(EMPTY, run).rows
    ensures DeadlineIs(Reach(EMPTY, run).rows[id], WindowsOf(run, id))
  {
    ReachOk(run);
    HistoryIsTheRun(run, id);
    DeadlineNow(Reach(EMPTY, run), id);
  }

  /** The window Activation sends to User Profile. */
  function ActivationUntil(r: Row): Option<Time> {
    if r.endsAt.Some? then r.endsAt else r.reviewDueAt
  }

  /** For every scheduled row of every run the out-of-office window has an end, is not
      empty and fits User Profile's 180 days. */
  lemma {:induction false} ActivationWindow(run: seq<Entry>, id: Id)
    requires Legal(EMPTY, run) && id in Reach(EMPTY, run).rows
    requires Reach(EMPTY, run).rows[id].status == Scheduled
    ensures var r := Reach(EMPTY, run).rows[id];
            ActivationUntil(r).Some? && r.startsAt < ActivationUntil(r).value <= r.startsAt + POLICY_DAYS_MAX * DAY
  {
    ReachOk(run);
    CellAt(Reach(EMPTY, run), id);
    ScheduledWindow(Reach(EMPTY, run), id);
  }

  lemma {:induction false} ScheduledWindow(s: State, id: Id)
    requires Inv(s) && id in s.rows && s.rows[id].status == Scheduled
    ensures ActivationUntil(s.rows[id]).Some?
    ensures s.rows[id].startsAt < ActivationUntil(s.rows[id]).value <= s.rows[id].startsAt + POLICY_DAYS_MAX * DAY
  {
    CellAt(s, id);
    var w := s.hist[id].windows;
    assert w == [w[0]] && w[..0] == [];
    assert Sum(w) == Sum(w[..0]) + w[0];
  }

  // ---------------------------------------------------------------- nothing happens early

  /** In every run a sweep's step finds the row it read, live and not deleted, and its time
      has come by the sweep's clock: the start for an activation, the end or the deadline for
      an end; a warning comes within the last three days before the deadline. */
  lemma {:induction false} NothingHappensEarly(run: seq<Entry>, k: nat)
    requires Legal(EMPTY, run) && k < |run|
    ensures match run[k].step
            case Activate(rd) =>
              && rd.row.id in At(run, k).rows && At(run, k).rows[rd.row.id] == rd.row
              && rd.row.status == Scheduled && rd.row.deletedAt.None? && rd.row.startsAt <= rd.now
            case Expire(rd) =>
              && rd.row.id in At(run, k).rows && At(run, k).rows[rd.row.id] == rd.row
              && rd.row.status == Active && rd.row.deletedAt.None? && rd.row.endsAt.Some? && rd.row.endsAt.value < rd.now
            case ReviewExpire(rd) =>
              && rd.row.id in At(run, k).rows && At(run, k).rows[rd.row.id] == rd.row
              && rd.row.status == Active && rd.row.deletedAt.None? && rd.row.endsAt.None?
              && rd.row.reviewDueAt.Some? && rd.row.reviewDueAt.value <= rd.now
            case Warn(rd) =>
              && rd.row.id in At(run, k).rows && At(run, k).rows[rd.row.id] == rd.row
              && rd.row.status == Active && rd.row.deletedAt.None? && rd.row.endsAt.None?
              && rd.row.reviewDueAt.Some? && rd.now < rd.row.reviewDueAt.value <= rd.now + 3 * DAY
            case _ => true
  {
    AtOk(run, k);
    AtStep(run, k);
  }

  /** One field of one row and its version, and one event that names the row's parties. */
  ghost predicate ChangesOneRow(s: State, t: State, d: Row, after: Row, kind: Kind) {
    && t.policies == s.policies && t.rows == s.rows[d.id := after.(version := d.version + 1)]
    && t.outbox == s.outbox + [Event(d.id, d.tenant, kind, d.delegator, d.delegate)]
  }

  lemma {:induction false} SweepStepIs(s: State, step: Step, rd: Read) returns (days: int)
    requires Inv(s) && Enabled(s, step) && step in {Activate(rd), Step.Expire(rd), ReviewExpire(rd), Step.Warn(rd)}
    requires rd.row.id in s.rows && s.rows[rd.row.id] == rd.row
    requires step.Activate? ==> rd.row.status == Scheduled
    requires !step.Activate? ==> rd.row.status == Active
    ensures step.Activate? ==> ChangesOneRow(s, Apply(s, step), rd.row, rd.row.(status := Active), Started)
    ensures step.Expire? ==> ChangesOneRow(s, Apply(s, step), rd.row, rd.row.(status := Ended), EndedBy(Expired))
    ensures step.ReviewExpire? ==> ChangesOneRow(s, Apply(s, step), rd.row, rd.row.(status := Ended), EndedBy(ReviewExpired))
    ensures step.Warn? ==>
              && ChangesOneRow(s, Apply(s, step), rd.row, rd.row.(bucket := Some(days)), ReviewRequested(days))
              && rd.row.reviewDueAt.Some? && (days - 1) * DAY < rd.row.reviewDueAt.value - rd.now <= days * DAY
  {
    CellAt(s, rd.row.id);
    days := if rd.row.reviewDueAt.Some? then DaysRemaining(rd.row.reviewDueAt.value, rd.now) else 0;
  }

  /** What a sweep's step does in every run, and nothing else: one field of one row and its
      version, and one event. */
  lemma {:induction false} SweepStepDoes(run: seq<Entry>, k: nat, rd: Read) returns (days: int)
    requires Legal(EMPTY, run) && k < |run|
    requires run[k].step in {Activate(rd), Step.Expire(rd), ReviewExpire(rd), Step.Warn(rd)}
    ensures var s, t := At(run, k), At(run, k + 1);
            match run[k].step
            case Activate(_) => ChangesOneRow(s, t, rd.row, rd.row.(status := Active), Started)
            case Expire(_) => ChangesOneRow(s, t, rd.row, rd.row.(status := Ended), EndedBy(Expired))
            case ReviewExpire(_) => ChangesOneRow(s, t, rd.row, rd.row.(status := Ended), EndedBy(ReviewExpired))
            case _ =>
              && ChangesOneRow(s, t, rd.row, rd.row.(bucket := Some(days)), ReviewRequested(days))
              && rd.row.reviewDueAt.Some? && (days - 1) * DAY < rd.row.reviewDueAt.value - rd.now <= days * DAY
  {
    AtOk(run, k);
    AtStep(run, k);
    NothingHappensEarly(run, k);
    days := SweepStepIs(At(run, k), run[k].step, rd);
  }

  // ---------------------------------------------------------------- optimistic locking

  /** The row and version a versioned write names. */
  function Writes(step: Step): Option<(Id, int)> {
    match step
    case Cancel(_, id, version, _) => Some((id, version))
    case Extend(_, id, _, version) => Some((id, version))
    case Activate(rd) => Some((rd.row.id, rd.row.version))
    case Expire(rd) => Some((rd.row.id, rd.row.version))
    case ReviewExpire(rd) => Some((rd.row.id, rd.row.version))
    case Warn(rd) => Some((rd.row.id, rd.row.version))
    case _ => None
  }

  /** Between any two moments of a run, versions never fall, equal versions mean equal
      content, status only moves forward, a purged row stays away and a soft-deleted row
      changes only by being purged. */
  lemma {:induction false} RowsOnlyMoveForward(run: seq<Entry>, i: nat, j: nat, id: Id)
    requires Legal(EMPTY, run) && i <= j <= |run|
    requires id in At(run, i).rows
    ensures var a := At(run, i).rows[id];
            if id in At(run, j).rows then
              var b := At(run, j).rows[id];
              && a.version <= b.version && (a.version == b.version ==> a == b)
              && StatusLe(a.status, b.status) && SameTerms(a, b) && RowLe(a, b)
              && (a.deletedAt.Some? ==> a == b)
            else
              forall k :: j <= k <= |run| ==> id !in At(run, k).rows
  {
    AtOk(run, i);
    CellAt(At(run, i), id);
    AtLater(run, i, j);
    assert RowLater(At(run, i).rows, At(run, j).rows, id);
    if id !in At(run, j).rows {
      forall k | j <= k <= |run| ensures id !in At(run, k).rows {
        AtLater(run, j, k);
        assert RowLater(At(run, j).rows, At(run, k).rows, id);
      }
    }
  }

  /** A versioned write that succeeds acts on exactly the content its caller read. */
  lemma {:induction false} VersionedWriteIsExact(run: seq<Entry>, i: nat, j: nat, id: Id)
    requires Legal(EMPTY, run) && i <= j < |run|
    requires id in At(run, i).rows
    requires Writes(run[j].step) == Some((id, At(run, i).rows[id].version))
    ensures id in At(run, j).rows && At(run, j).rows[id] == At(run, i).rows[id]
  {
    AtStep(run, j);
    RowsOnlyMoveForward(run, i, j, id);
  }

  lemma {:induction false} WriteBumps(s: State, step: Step, id: Id, version: int)
    requires Inv(s) && Enabled(s, step) && Writes(step) == Some((id, version))
    ensures id in s.rows && s.rows[id].version == version
    ensures id in RowsAfter(s, step) && RowsAfter(s, step)[id].version == version + 1
  {
    CellAt(s, id);
    if step.Warn? {
      assert RowLe(step.read.row, s.rows[id]);
    }
  }

  /** At most one writer wins per version. */
  lemma {:induction false} OneWriterPerVersion(run: seq<Entry>, i: nat, j: nat, id: Id, v: int, w: int)
    requires Legal(EMPTY, run) && i < j < |run|
    requires Writes(run[i].step) == Some((id, v)) && Writes(run[j].step) == Some((id, w))
    ensures v < w
  {
    AtOk(run, i);
    AtOk(run, j);
    AtStep(run, i);
    AtStep(run, j);
    WriteBumps(At(run, i), run[i].step, id, v);
    WriteBumps(At(run, j), run[j].step, id, w);
    RowsOnlyMoveForward(run, i + 1, j, id);
  }

  // ---------------------------------------------------------------- warned and ended

  /** What a warning and an auto-end say about the row they act on. */
  lemma {:induction false} ReviewStepActsOn(run: seq<Entry>, k: nat)
    requires Legal(EMPTY, run) && k < |run|
    ensures run[k].step.Warn? ==>
              var rd := run[k].step.read;
              rd.row.id in At(run, k).rows && At(run, k).rows[rd.row.id] == rd.row && Selects(DueForWarn(rd.now), rd.row)
    ensures run[k].step.ReviewExpire? ==>
              var rd := run[k].step.read;
              && rd.row.id in At(run, k).rows && At(run, k).rows[rd.row.id] == rd.row && Selects(DueForAutoEnd(rd.now), rd.row)
              && rd.row.id in At(run, k + 1).rows && At(run, k + 1).rows[rd.row.id].status == Ended
  {
    var s := At(run, k);
    AtOk(run, k);
    AtStep(run, k);
    if run[k].step.Warn? || run[k].step.ReviewExpire? {
      assert RowLe(run[k].step.read.row, s.rows[run[k].step.read.row.id]);
    }
  }

  /** No delegation is both warned and auto-ended by one clock, however the two sweeps or the
      two passes of one sweep interleave with extensions, cancellations and cascades. */
  lemma {:induction false} NotWarnedAndEnded(run: seq<Entry>, i: nat, j: nat)
    requires Legal(EMPTY, run) && i < |run| && j < |run|
    requires run[i].step.Warn? && run[j].step.ReviewExpire?
    requires run[j].step.read.now <= run[i].step.read.now
    ensures run[i].step.read.row.id != run[j].step.read.row.id
  {
    ReviewStepActsOn(run, i);
    ReviewStepActsOn(run, j);
    if i < j {
      RowsOnlyMoveForward(run, i, j, run[i].step.read.row.id);
    } else if j < i {
      RowsOnlyMoveForward(run, j + 1, i, run[j].step.read.row.id);
    }
  }

  // ---------------------------------------------------------------- reassignment chains

  ghost predicate IsChain(s: State, chain: seq<Id>) {
    forall i :: 0 <= i < |chain| - 1 ==> chain[i] in s.hist && chain[i + 1] in s.hist[chain[i]].succs
  }

  ghost predicate LiveIn(s: State, id: Id) {
    id in s.rows && Live(s.rows[id])
  }

  lemma {:induction false} ChainNow(s: State, chain: seq<Id>)
    requires Inv(s) && IsChain(s, chain)
    ensures forall id :: id in s.hist ==> |s.hist[id].succs| <= 1
    ensures forall i :: 0 <= i < |chain| - 1 ==> !LiveIn(s, chain[i])
  {
    forall id | id in s.hist ensures |s.hist[id].succs| <= 1 { CellAt(s, id); }
    forall i | 0 <= i < |chain| - 1 ensures !LiveIn(s, chain[i]) {
      CellAt(s, chain[i]);
      assert chain[i + 1] in s.hist[chain[i]].succs;
    }
  }

  /** In every run a delegation is succeeded at most once, and of any reassignment chain at
      most the last member is live. */
  lemma {:induction false} ReassignChain(run: seq<Entry>, chain: seq<Id>)
    requires Legal(EMPTY, run)
    requires IsChain(Reach(EMPTY, run), chain)
    ensures var s := Reach(EMPTY, run);
            && (forall id :: id in s.hist ==> |s.hist[id].succs| <= 1)
            && (forall i :: 0 <= i < |chain| - 1 ==> !LiveIn(s, chain[i]))
  {
    ReachOk(run);
    ChainNow(Reach(EMPTY, run), chain);
  }

  predicate EndsForCaller(step: Step, id: Id, caller: Caller) {
    step.Cancel? && step.id == id && step.reassigning == Some(caller)
  }

  lemma {:induction false} OnlyCreateSucceeds(s: State, step: Step, id: Id)
    requires Enabled(s, step) && !step.Create? && id in HistAfter(s, step)
    ensures id in s.hist && HistAfter(s, step)[id].succs == s.hist[id].succs
  {
  }

  lemma {:induction false} SuccessorFound(s: State, step: Step, id: Id, next: Id)
    requires Inv(s) && Enabled(s, step) && id in HistAfter(s, step) && next in HistAfter(s, step)[id].succs
    requires !(id in s.hist && next in s.hist[id].succs)
    ensures step.Create? && step.row.id == next && step.pred.Some? && step.pred.value.0 == id
    ensures id in s.hist && step.pred.value.1 in s.hist[id].tickets
  {
    if !step.Create? {
      OnlyCreateSucceeds(s, step, id);
    }
  }

  lemma {:induction false} TicketFound(s: State, step: Step, id: Id, caller: Caller)
    requires Enabled(s, step) && id in HistAfter(s, step) && caller in HistAfter(s, step)[id].tickets
    requires !(id in s.hist && caller in s.hist[id].tickets)
    ensures EndsForCaller(step, id, caller)
  {
  }

  /** A successor is inserted only by the very call that ended its predecessor as
      reassigned, and only after that end. */
  lemma {:induction false} SuccessorIsInsertedAfterTheEnd(run: seq<Entry>, id: Id, next: Id)
    returns (i: nat, j: nat, caller: Caller)
    requires Legal(EMPTY, run)
    requires id in Reach(EMPTY, run).hist && next in Reach(EMPTY, run).hist[id].succs
    ensures i < j < |run| && EndsForCaller(run[i].step, id, caller)
    ensures run[j].step.Create? && run[j].step.row.id == next && run[j].step.pred == Some((id, caller))
  {
    var front, s, step := LastStep(run);
    if id in s.hist && next in s.hist[id].succs {
      i, j, caller := SuccessorIsInsertedAfterTheEnd(front, id, next);
    } else {
      SuccessorFound(s, step, id, next);
      j, caller := |run| - 1, step.pred.value.1;
      i := TicketFromACancel(front, id, caller);
    }
  }

  lemma {:induction false} TicketFromACancel(run: seq<Entry>, id: Id, caller: Caller) returns (i: nat)
    requires Legal(EMPTY, run)
    requires id in Reach(EMPTY, run).hist && caller in Reach(EMPTY, run).hist[id].tickets
    ensures i < |run| && EndsForCaller(run[i].step, id, caller)
  {
    var front, s, step := LastStep(run);
    if id in s.hist && caller in s.hist[id].tickets {
      i := TicketFromACancel(front, id, caller);
    } else {
      TicketFound(s, step, id, caller);
      i := |run| - 1;
    }
  }

  // ---------------------------------------------------------------- availability first

  lemma {:induction false} UpIsRecorded(run: seq<Entry>, call: UpCall) returns (k: nat)
    requires Legal(EMPTY, run) && call in Reach(EMPTY, run).up
    ensures k < |run| && run[k].step == UpOk(call)
  {
    var front, s, step := LastStep(run);
    if call in s.up {
      k := UpIsRecorded(front, call);
    } else {
      k := |run| - 1;
    }
  }

  /** User Profile was told about this event's parties before. */
  ghost predicate ToldBefore(run: seq<Entry>, k: nat, e: Event) {
    && (e.kind == Started ==>
          exists i :: 0 <= i < k <= |run| && run[i].step.UpOk? && run[i].step.call.SetAvailability?
            && run[i].step.call.tenant == e.tenant && run[i].step.call.user == e.delegator
            && run[i].step.call.delegate == e.delegate)
    && (e.kind == EndedBy(Expired) || e.kind == EndedBy(ReviewExpired) ==>
          exists i :: 0 <= i < k <= |run| && run[i].step == UpOk(ClearPointer(e.tenant, e.delegator)))
  }

  /** What User Profile confirmed by the time a step publishes an event. */
  lemma {:induction false} EventBacked(s: State, step: Step, e: Event)
    requires Inv(s) && Enabled(s, step) && e in EventsOf(s, step)
    ensures e.kind == Started ==> Announced(s.up, e.tenant, e.delegator, e.delegate)
    ensures e.kind == EndedBy(Expired) || e.kind == EndedBy(ReviewExpired) ==> ClearPointer(e.tenant, e.delegator) in s.up
  {
    EventsAbout(s, step, e);
    if step.Activate? || step.Expire? || step.ReviewExpire? {
      CellAt(s, step.read.row.id);
      assert RowLe(step.read.row, s.rows[step.read.row.id]);
    }
  }

  /** In every run, each DelegationStarted follows a successful SetAvailability for its
      delegator and delegate, and each Ended{expired, review_expired} follows a successful
      pointer clear for its delegator. */
  lemma {:induction false} AvailabilityFirst(run: seq<Entry>, k: nat, e: Event)
    requires Legal(EMPTY, run) && k < |run|
    requires Enabled(At(run, k), run[k].step) && e in EventsOf(At(run, k), run[k].step)
    ensures ToldBefore(run, k, e)
  {
    var s := At(run, k);
    AtOk(run, k);
    EventBacked(s, run[k].step, e);
    LegalPrefix(EMPTY, run, k);
    if e.kind == Started {
      var call :| call in s.up && call.SetAvailability? && call.tenant == e.tenant
                  && call.user == e.delegator && call.delegate == e.delegate;
      var i := UpIsRecorded(run[..k], call);
      assert run[i] == run[..k][i];
    } else if e.kind == EndedBy(Expired) || e.kind == EndedBy(ReviewExpired) {
      var i := UpIsRecorded(run[..k], ClearPointer(e.tenant, e.delegator));
      assert run[i] == run[..k][i];
    }
  }
}
