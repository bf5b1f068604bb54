/** The review warnings of every run: under which clocks the announced days fall. A sweep
    reads its clock before its query, so a later read may carry an earlier clock. */
module Warnings {
  import opened Domain
  import opened Table
  import opened EventLog
  import opened Lifecycle
  import opened Runs
  import opened Theorems

  /** The clocks of the warn reads, in the order of the reads. */
  function WarnClocks(run: seq<Entry>): seq<Time> {
    if run == [] then []
    else
      var last := run[|run| - 1].step;
      WarnClocks(run[..|run| - 1]) + if last.Snapshot? && last.warn then [last.now] else []
  }

  lemma {:induction false} ClocksAreTheRun(run: seq<Entry>)
    requires Legal(EMPTY, run)
    ensures Reach(EMPTY, run).clocks == WarnClocks(run)
  {
    if run != [] {
      var front, s, step := LastStep(run);
      ClocksAreTheRun(front);
    }
  }

  /** No read lies behind an earlier one by less than three days; one that lies further
      behind selects nothing the earlier one warned. */
  predicate NoShortLag(clocks: seq<Time>) {
    forall i, j :: 0 <= i < j < |clocks| ==> clocks[i] <= clocks[j] || clocks[j] + 3 * DAY <= clocks[i]
  }

  ghost predicate AllDecreasing(rounds: seq<seq<int>>) {
    forall i :: 0 <= i < |rounds| ==> Decreasing(rounds[i])
  }

  // ---------------------------------------------------------------- what the clocks keep

  /** A warning by this clock leaves this bucket. */
  predicate Gave(clock: Time, r: Row) {
    && r.bucket.Some? && r.reviewDueAt.Some?
    && clock < r.reviewDueAt.value <= clock + 3 * DAY
    && DaysRemaining(r.reviewDueAt.value, clock) == r.bucket.value
  }

  predicate Backed(clocks: seq<Time>, r: Row) {
    r.bucket.Some? && r.reviewDueAt.Some? ==> exists i :: 0 <= i < |clocks| && Gave(clocks[i], r)
  }

  predicate ReadBacked(clocks: seq<Time>, rd: Read) {
    exists j :: 0 <= j < |clocks| && clocks[j] == rd.now && Backed(clocks[..j], rd.row)
  }

  ghost predicate RowsBacked(s: State) {
    forall id :: id in s.rows ==> Backed(s.clocks, s.rows[id])
  }

  ghost predicate ReadsBacked(s: State) {
    forall rd :: rd in s.seen && rd.warn ==> ReadBacked(s.clocks, rd)
  }

  ghost predicate RoundsFall(s: State) {
    forall id :: id in s.hist ==> AllDecreasing(s.hist[id].rounds)
  }

  ghost predicate WarnOk(s: State) {
    RowsBacked(s) && ReadsBacked(s) && RoundsFall(s)
  }

  lemma {:induction false} BackedStays(clocks: seq<Time>, more: seq<Time>, r: Row)
    requires Backed(clocks, r)
    ensures Backed(clocks + more, r)
  {
    if r.bucket.Some? && r.reviewDueAt.Some? {
      var i :| 0 <= i < |clocks| && Gave(clocks[i], r);
      assert (clocks + more)[i] == clocks[i];
    }
  }

  lemma {:induction false} ReadBackedStays(clocks: seq<Time>, more: seq<Time>, rd: Read)
    requires ReadBacked(clocks, rd)
    ensures ReadBacked(clocks + more, rd)
  {
    var j :| 0 <= j < |clocks| && clocks[j] == rd.now && Backed(clocks[..j], rd.row);
    assert (clocks + more)[..j] == clocks[..j] && (clocks + more)[j] == clocks[j];
  }

  /** The version check makes the warned row the row that was read. */
  lemma {:induction false} WarnsWhatWasRead(s: State, rd: Read)
    requires Inv(s) && MayWarn(s, rd)
    ensures s.rows[rd.row.id] == rd.row
    ensures Gave(rd.now, Warned(rd.row, DaysRemaining(rd.row.reviewDueAt.value, rd.now)))
  {
    assert RowLe(rd.row, s.rows[rd.row.id]);
  }

  /** So its new bucket is below the old one. */
  lemma {:induction false} WarnIsLower(s: State, rd: Read)
    requires Inv(s) && ReadsBacked(s) && NoShortLag(s.clocks) && MayWarn(s, rd)
    ensures rd.row.bucket.Some? ==> DaysRemaining(rd.row.reviewDueAt.value, rd.now) < rd.row.bucket.value
  {
    if rd.row.bucket.Some? {
      var j :| 0 <= j < |s.clocks| && s.clocks[j] == rd.now && Backed(s.clocks[..j], rd.row);
      var i :| 0 <= i < j && Gave(s.clocks[..j][i], rd.row);
      assert s.clocks[..j][i] == s.clocks[i];
      if s.clocks[i] <= rd.now {
        DaysRemainingFalls(rd.row.reviewDueAt.value, s.clocks[i], rd.now);
      }
    }
  }

  lemma {:induction false} ActKeepsBacked(clocks: seq<Time>, r: Row, act: Act)
    requires !act.Notify? && Backed(clocks, r)
    ensures Backed(clocks, RowAct(r, act))
  {
    var r' := RowAct(r, act);
    if r'.bucket.Some? && r'.reviewDueAt.Some? {
      var i :| 0 <= i < |clocks| && Gave(clocks[i], r);
      assert Gave(clocks[i], r');
    }
  }

  lemma {:induction false} RowBackedAfter(s: State, step: Step, id: Id)
    requires Inv(s) && RowsBacked(s) && ReadsBacked(s) && Enabled(s, step) && id in RowsAfter(s, step)
    ensures Backed(s.clocks, RowsAfter(s, step)[id])
  {
    CellAt(s, id);
    forall x | x in s.rows ensures s.rows[x].id == x { CellAt(s, x); }
    RowSeen(s, step, id);
    var act := ActOn(s, step, id);
    if act.Notify? {
      WarnsWhatWasRead(s, step.read);
      var j :| 0 <= j < |s.clocks| && s.clocks[j] == step.read.now;
      assert Gave(s.clocks[j], RowsAfter(s, step)[id]);
    } else if id in s.rows {
      ActKeepsBacked(s.clocks, s.rows[id], act);
    }
  }

  lemma {:induction false} RoundKept(h: History, days: int)
    requires h.rounds != [] && AllDecreasing(h.rounds)
    requires LastWarned(h.rounds).Some? ==> days < LastWarned(h.rounds).value
    ensures AllDecreasing(Recorded(h, Notify(days)).rounds)
  {
    var last := h.rounds[|h.rounds| - 1];
    assert Decreasing(last);
    assert Decreasing(last + [days]);
  }

  lemma {:induction false} WarnedRoundKept(s: State, step: Step)
    requires Inv(s) && WarnOk(s) && NoShortLag(s.clocks) && Enabled(s, step) && step.Warn?
    ensures step.read.row.id in s.hist
    ensures AllDecreasing(Recorded(s.hist[step.read.row.id], ActOn(s, step, step.read.row.id)).rounds)
  {
    CellAt(s, step.read.row.id);
    WarnsWhatWasRead(s, step.read);
    WarnIsLower(s, step.read);
    RoundKept(s.hist[step.read.row.id], DaysRemaining(step.read.row.reviewDueAt.value, step.read.now));
  }

  lemma {:induction false} RoundsKept(s: State, step: Step, id: Id)
    requires Inv(s) && WarnOk(s) && NoShortLag(s.clocks) && Enabled(s, step) && id in HistAfter(s, step)
    ensures AllDecreasing(HistAfter(s, step)[id].rounds)
  {
    if step.Warn? {
      WarnedRoundKept(s, step);
    } else if step.Create? || step.Extend? {
      CellAt(s, id);
    } else {
      OtherStepsRecordNothing(s, step, id);
    }
  }

  lemma {:induction false} ReadsBackedAfter(s: State, step: Step)
    requires Inv(s) && WarnOk(s) && Enabled(s, step)
    ensures ReadsBacked(Apply(s, step))
  {
    var t := Apply(s, step);
    forall rd | rd in t.seen && rd.warn ensures ReadBacked(t.clocks, rd) {
      if rd in s.seen {
        ReadBackedStays(s.clocks, t.clocks[|s.clocks|..], rd);
        assert s.clocks + t.clocks[|s.clocks|..] == t.clocks;
      } else {
        assert t.clocks[..|s.clocks|] == s.clocks;
      }
    }
  }

  lemma {:induction false} WarnStep(s: State, step: Step)
    requires Inv(s) && WarnOk(s) && NoShortLag(s.clocks) && Enabled(s, step)
    ensures WarnOk(Apply(s, step))
  {
    var t := Apply(s, step);
    forall id | id in t.rows ensures Backed(t.clocks, t.rows[id]) {
      RowBackedAfter(s, step, id);
      BackedStays(s.clocks, t.clocks[|s.clocks|..], t.rows[id]);
      assert s.clocks + t.clocks[|s.clocks|..] == t.clocks;
    }
    forall id | id in t.hist ensures AllDecreasing(t.hist[id].rounds) {
      RoundsKept(s, step, id);
    }
    ReadsBackedAfter(s, step);
  }

  lemma {:induction false} WarnRun(run: seq<Entry>)
    requires Legal(EMPTY, run) && NoShortLag(WarnClocks(run))
    ensures WarnOk(Reach(EMPTY, run))
  {
    if run != [] {
      var front, s, step := LastStep(run);
      assert WarnClocks(front) <= WarnClocks(run);
      WarnRun(front);
      ClocksAreTheRun(front);
      WarnStep(s, step);
    }
  }

  /** If no warn read lies behind an earlier one by less than three days, the days announced
      for a delegation between two extensions fall strictly from at most 3 to at least 1,
      however many sweeps compete; so there are at most three announcements per window. */
  lemma {:induction false} WarnCascade(run: seq<Entry>, id: Id)
    requires Legal(EMPTY, run) && NoShortLag(WarnClocks(run))
    ensures var evs := Project(Reach(EMPTY, run).outbox, id);
            && WarnDays(evs) == Flatten(RoundsOf(run, id))
            && |RoundsOf(run, id)| == |WindowsOf(run, id)|
            && (forall i :: 0 <= i < |RoundsOf(run, id)| ==>
                  Decreasing(RoundsOf(run, id)[i]) && InRange(RoundsOf(run, id)[i], 1, 3))
            && |WarnDays(evs)| <= 3 * |WindowsOf(run, id)|
  {
    ReachOk(run);
    WarnRun(run);
    HistoryIsTheRun(run, id);
    CellAt(Reach(EMPTY, run), id);
    AtMostThreePerRound(RoundsOf(run, id));
  }

  // ---------------------------------------------------------------- the condition is exact

  lemma {:induction false} OneStepOn(run: seq<Entry>, step: Step) returns (longer: seq<Entry>)
    requires Legal(EMPTY, run) && Enabled(Reach(EMPTY, run), step)
    ensures Legal(EMPTY, longer) && Reach(EMPTY, longer) == Apply(Reach(EMPTY, run), step)
    ensures RoundsOf(longer, 0) == NextRounds(RoundsOf(run, 0), step, 0)
    ensures WindowsOf(longer, 0) == NextWindows(WindowsOf(run, 0), step, 0)
    ensures WarnClocks(longer) == WarnClocks(run) + if step.Snapshot? && step.warn then [step.now] else []
  {
    longer := run + [Entry(false, step)];
    LegalSnoc(EMPTY, run, Entry(false, step));
    assert longer[..|longer| - 1] == run;
  }

  /** A run whose table holds just this delegation, with these announcements and warn reads. */
  ghost predicate Holding(run: seq<Entry>, row: Row, announced: seq<int>, clocks: seq<Time>) {
    && Legal(EMPTY, run) && Reach(EMPTY, run).rows == map[0 := row] && row.id == 0
    && |WindowsOf(run, 0)| == 1 && RoundsOf(run, 0) == [announced] && WarnClocks(run) == clocks
  }

  lemma {:induction false} CreatedOnce(row: Row) returns (run: seq<Entry>)
    requires NewRow(row) && row.id == 0 && row.status == Active
    ensures Holding(run, row, [], [])
  {
    var call := SetAvailability(row.tenant, row.delegator, row.delegate, 0, None);
    run := OneStepOn([], UpOk(call));
    assert call in Reach(EMPTY, run).up;
    run := OneStepOn(run, Step.Create(row, None));
  }

  lemma {:induction false} ReadOnce(run: seq<Entry>, row: Row, announced: seq<int>, clocks: seq<Time>, now: Time)
    returns (longer: seq<Entry>)
    requires Holding(run, row, announced, clocks)
    ensures Holding(longer, row, announced, clocks + [now]) && Read(row, now, true) in Reach(EMPTY, longer).seen
  {
    longer := OneStepOn(run, Snapshot(now, true));
    assert Reach(EMPTY, run).rows[0] == row;
  }

  /** Sweeps that read and then do nothing. */
  lemma {:induction false} JustReads(run: seq<Entry>, row: Row, announced: seq<int>, clocks: seq<Time>, more: seq<Time>)
    returns (longer: seq<Entry>)
    requires Holding(run, row, announced, clocks)
    ensures Holding(longer, row, announced, clocks + more)
  {
    if more == [] {
      longer := run;
      assert clocks + more == clocks;
    } else {
      var before := JustReads(run, row, announced, clocks, more[..|more| - 1]);
      longer := ReadOnce(before, row, announced, clocks + more[..|more| - 1], more[|more| - 1]);
      assert clocks + more[..|more| - 1] + [more[|more| - 1]] == clocks + more;
    }
  }

  lemma {:induction false} WarnEffect(s: State, row: Row, now: Time)
    requires s.rows == map[0 := row] && row.id == 0 && Read(row, now, true) in s.seen
    requires Selects(DueForWarn(now), row) && row.bucket != Some(DaysRemaining(row.reviewDueAt.value, now))
    ensures Enabled(s, Step.Warn(Read(row, now, true)))
    ensures RowsAfter(s, Step.Warn(Read(row, now, true))) == map[0 := Warned(row, DaysRemaining(row.reviewDueAt.value, now))]
  {
    assert s.rows[0] == row;
  }

  /** A sweep that reads and warns. */
  lemma {:induction false} WarnedOnce(
      run: seq<Entry>, row: Row, announced: seq<int>, clocks: seq<Time>, now: Time, days: int)
    returns (longer: seq<Entry>)
    requires Holding(run, row, announced, clocks)
    requires Selects(DueForWarn(now), row) && row.bucket != Some(days) && days == DaysRemaining(row.reviewDueAt.value, now)
    ensures Holding(longer, Warned(row, days), announced + [days], clocks + [now])
  {
    var read := ReadOnce(run, row, announced, clocks, now);
    WarnEffect(Reach(EMPTY, read), row, now);
    longer := OneStepOn(read, Step.Warn(Read(row, now, true)));
    assert [announced][..0] + [announced + [days]] == [announced + [days]];
  }

  /** An open-ended delegation due at `due`, one day after its start. */
  function DueAt(due: Time): (row: Row)
    ensures NewRow(row) && row.id == 0 && row.status == Active && row.reviewDueAt == Some(due)
  {
    Row(0, 1, 2, 3, All, None, due - DAY, None, Active, 1, None, Some(due), None, Some(1))
  }

  /** A deadline the earlier read sees one day ahead and the later one at least two. */
  lemma {:induction false} Between(earlier: Time, later: Time) returns (due: Time)
    requires later < earlier < later + 3 * DAY
    ensures earlier < due <= later + 3 * DAY && due <= earlier + DAY
    ensures DaysRemaining(due, earlier) == 1 && DaysRemaining(due, later) > 1
  {
    due := if earlier + DAY <= later + 3 * DAY then earlier + DAY else later + 3 * DAY;
  }

  lemma {:induction false} ListSplits(clocks: seq<Time>, i: nat, j: nat)
    requires i < j < |clocks|
    ensures clocks == [] + clocks[..i] + [clocks[i]] + clocks[i + 1..j] + [clocks[j]] + clocks[j + 1..]
  {
  }

  lemma {:induction false} ShortLagRises(clocks: seq<Time>, i: nat, j: nat) returns (run: seq<Entry>)
    requires i < j < |clocks| && clocks[j] < clocks[i] < clocks[j] + 3 * DAY
    ensures Legal(EMPTY, run) && WarnClocks(run) == clocks && !AllDecreasing(RoundsOf(run, 0))
  {
    var due := Between(clocks[i], clocks[j]);
    var row, days := DueAt(due), DaysRemaining(due, clocks[j]);
    run := CreatedOnce(row);
    run := JustReads(run, row, [], [], clocks[..i]);
    run := WarnedOnce(run, row, [], [] + clocks[..i], clocks[i], 1);
    run := JustReads(run, Warned(row, 1), [] + [1], [] + clocks[..i] + [clocks[i]], clocks[i + 1..j]);
    run := WarnedOnce(run, Warned(row, 1), [] + [1], [] + clocks[..i] + [clocks[i]] + clocks[i + 1..j], clocks[j], days);
    run := JustReads(run, Warned(Warned(row, 1), days), [] + [1] + [days],
                     [] + clocks[..i] + [clocks[i]] + clocks[i + 1..j] + [clocks[j]], clocks[j + 1..]);
    ListSplits(clocks, i, j);
    var round := RoundsOf(run, 0)[0];
    assert round[0] == 1 && round[1] == days;
    assert !Decreasing(round);
  }

  /** Whatever happens, with these clocks the announced days fall. */
  ghost predicate AlwaysFalls(clocks: seq<Time>) {
    forall run, id: Id {:trigger RoundsOf(run, id)} ::
      Legal(EMPTY, run) && WarnClocks(run) == clocks ==> AllDecreasing(RoundsOf(run, id))
  }

  /** The exact condition on the clocks of the warn reads. */
  lemma {:induction false} FallsExactlyWithoutShortLag(clocks: seq<Time>)
    ensures AlwaysFalls(clocks) <==> NoShortLag(clocks)
  {
    if NoShortLag(clocks) {
      forall run, id: Id | Legal(EMPTY, run) && WarnClocks(run) == clocks ensures AllDecreasing(RoundsOf(run, id)) {
        WarnCascade(run, id);
      }
    } else {
      var i, j :| 0 <= i < j < |clocks| && clocks[j] < clocks[i] < clocks[j] + 3 * DAY;
      var run := ShortLagRises(clocks, i, j);
    }
  }

  const MIDNIGHT: Time := 88 * DAY

  lemma {:induction false} AroundMidnight()
    ensures DaysRemaining(90 * DAY, MIDNIGHT) == 2 && DaysRemaining(90 * DAY, MIDNIGHT - 1) == 3
  {
  }

  /** Two sweeps whose clocks are right, but whose queries overtake each other. */
  lemma {:induction false} Overtaken(run: seq<Entry>, row: Row, announced: seq<int>, clocks: seq<Time>) returns (longer: seq<Entry>)
    requires Holding(run, row, announced, clocks) && row.reviewDueAt == Some(90 * DAY)
    requires row.status == Active && row.deletedAt.None? && row.endsAt.None? && row.bucket != Some(2)
    ensures Holding(longer, Warned(Warned(row, 2), 3), announced + [2] + [3], clocks + [MIDNIGHT] + [MIDNIGHT - 1])
  {
    AroundMidnight();
    var once := WarnedOnce(run, row, announced, clocks, MIDNIGHT, 2);
    longer := WarnedOnce(once, Warned(row, 2), announced + [2], clocks + [MIDNIGHT], MIDNIGHT - 1, 3);
  }

  /** Two such pairs around a day boundary announce four times within one window. */
  lemma {:induction false} OvertakingSweepsAnnounceFourTimes() returns (run: seq<Entry>)
    ensures Legal(EMPTY, run) && WarnClocks(run) == [MIDNIGHT, MIDNIGHT - 1, MIDNIGHT, MIDNIGHT - 1]
    ensures |WindowsOf(run, 0)| == 1 && RoundsOf(run, 0) == [[2, 3, 2, 3]]
  {
    var row := DueAt(90 * DAY);
    var created := CreatedOnce(row);
    var first := Overtaken(created, row, [], []);
    run := Overtaken(first, Warned(Warned(row, 2), 3), [] + [2] + [3], [] + [MIDNIGHT] + [MIDNIGHT - 1]);
    assert [] + [2] + [3] + [2] + [3] == [2, 3, 2, 3];
  }
}
