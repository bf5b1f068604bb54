/** What the outbox says about one delegation: the projection of the outbox on an id, the
    order its events may come in, and the review warnings grouped by extension. */
module EventLog {
  import opened Domain

  function Project(outbox: seq<Event>, id: Id): seq<Kind> {
    if outbox == [] then []
    else
      var front := Project(outbox[..|outbox| - 1], id);
      var last := outbox[|outbox| - 1];
      if last.id == id then front + [last.kind] else front
  }

  lemma {:induction false} ProjectConcat(a: seq<Event>, b: seq<Event>, id: Id)
    ensures Project(a + b, id) == Project(a, id) + Project(b, id)
  {
    if b == [] {
      assert a + b == a;
    } else {
      var n := |b| - 1;
      assert (a + b)[..|a + b| - 1] == a + b[..n];
      ProjectConcat(a, b[..n], id);
    }
  }

  // The events of one delegation, read by an automaton.

  datatype Phase = Silent | Open | Closed(reason: EndReason) | Escalated | Broken

  function Advance(p: Phase, k: Kind): Phase {
    match k
    case Started => if p.Silent? then Open else Broken
    case EndedBy(reason) => if p.Silent? || p.Open? then Closed(reason) else Broken
    case ReviewRequested(_) => if p.Open? then Open else Broken
    case EscalationRequested => if p == Closed(DelegateDisabled) then Escalated else Broken
  }

  function PhaseOf(evs: seq<Kind>): Phase {
    if evs == [] then Silent else Advance(PhaseOf(evs[..|evs| - 1]), evs[|evs| - 1])
  }

  /** The Started and Ended events only. */
  function Boundaries(evs: seq<Kind>): seq<Kind> {
    if evs == [] then []
    else
      var k := evs[|evs| - 1];
      Boundaries(evs[..|evs| - 1]) + (if k.Started? || k.EndedBy? then [k] else [])
  }

  /** Exactly one Ended, with this reason, after at most one Started. */
  predicate EndsOnce(evs: seq<Kind>, r: EndReason) {
    Boundaries(evs) == [EndedBy(r)] || Boundaries(evs) == [Started, EndedBy(r)]
  }

  ghost predicate WellOrdered(evs: seq<Kind>) {
    && (Boundaries(evs) == [] || Boundaries(evs) == [Started]
        || exists r :: EndsOnce(evs, r))
    // a warning comes after Started and before any Ended
    && (forall k :: 0 <= k < |evs| && evs[k].ReviewRequested? ==>
          Started in evs[..k] && forall j :: 0 <= j < k ==> !evs[j].EndedBy?)
    // an escalation comes right after Ended{delegate_disabled}, and nothing follows it
    && (forall k :: 0 <= k < |evs| && evs[k].EscalationRequested? ==>
          0 < k == |evs| - 1 && evs[k - 1] == EndedBy(DelegateDisabled))
  }

  /** What has been read when the automaton is in each phase. */
  ghost predicate MeansIn(phase: Phase, evs: seq<Kind>) {
    match phase
    case Silent => evs == []
    case Open =>
      && Boundaries(evs) == [Started] && evs != [] && evs[0] == Started
      && forall j :: 0 <= j < |evs| ==> !evs[j].EndedBy? && !evs[j].EscalationRequested?
    case Closed(reason) => EndsOnce(evs, reason) && evs != [] && evs[|evs| - 1] == EndedBy(reason) && EscalationRequested !in evs
    case Escalated => EndsOnce(evs, DelegateDisabled) && |evs| >= 2 && evs[|evs| - 2..] == [EndedBy(DelegateDisabled), EscalationRequested]
    case Broken => true
  }

  ghost predicate PhaseMeans(evs: seq<Kind>) {
    MeansIn(PhaseOf(evs), evs)
  }

  lemma {:induction false} BoundariesSnoc(evs: seq<Kind>, k: Kind)
    ensures Boundaries(evs + [k]) == Boundaries(evs) + if k.Started? || k.EndedBy? then [k] else []
  {
    assert (evs + [k])[..|evs + [k]| - 1] == evs;
  }

  lemma {:induction false} StartedMeans(evs: seq<Kind>)
    requires MeansIn(Silent, evs)
    ensures MeansIn(Open, evs + [Started])
  {
    assert evs + [Started] == [Started];
    BoundariesSnoc([], Started);
    assert [] + [Started] == [Started];
  }

  lemma {:induction false} EndedMeans(phase: Phase, evs: seq<Kind>, reason: EndReason)
    requires (phase.Silent? || phase.Open?) && MeansIn(phase, evs)
    ensures MeansIn(Closed(reason), evs + [EndedBy(reason)])
  {
    var all := evs + [EndedBy(reason)];
    BoundariesSnoc(evs, EndedBy(reason));
    assert all[|all| - 1] == EndedBy(reason);
    assert EndsOnce(all, reason);
    assert EscalationRequested !in all;
  }

  lemma {:induction false} WarnedMeans(evs: seq<Kind>, days: int)
    requires MeansIn(Open, evs)
    ensures MeansIn(Open, evs + [ReviewRequested(days)])
  {
    var all := evs + [ReviewRequested(days)];
    BoundariesSnoc(evs, ReviewRequested(days));
    assert all[0] == evs[0];
  }

  lemma {:induction false} EscalatedMeans(evs: seq<Kind>)
    requires MeansIn(Closed(DelegateDisabled), evs)
    ensures MeansIn(Escalated, evs + [EscalationRequested])
  {
    var all := evs + [EscalationRequested];
    BoundariesSnoc(evs, EscalationRequested);
    assert all[|all| - 2..] == [evs[|evs| - 1], EscalationRequested];
    assert EndsOnce(all, DelegateDisabled);
  }

  lemma {:induction false} MeansSnoc(phase: Phase, evs: seq<Kind>, k: Kind)
    requires MeansIn(phase, evs)
    ensures MeansIn(Advance(phase, k), evs + [k])
  {
    if !Advance(phase, k).Broken? {
      match k {
        case Started => StartedMeans(evs);
        case EndedBy(reason) => EndedMeans(phase, evs, reason);
        case ReviewRequested(days) => WarnedMeans(evs, days);
        case EscalationRequested => EscalatedMeans(evs);
      }
    }
  }

  lemma {:induction false} AcceptedMeans(evs: seq<Kind>)
    ensures PhaseMeans(evs)
  {
    if evs != [] {
      var front, k := evs[..|evs| - 1], evs[|evs| - 1];
      AcceptedMeans(front);
      MeansSnoc(PhaseOf(front), front, k);
      assert evs == front + [k];
    }
  }

  lemma {:induction false} AcceptedPrefix(evs: seq<Kind>, k: nat)
    requires k <= |evs| && !PhaseOf(evs).Broken?
    ensures !PhaseOf(evs[..k]).Broken?
  {
    if k == |evs| {
      assert evs[..k] == evs;
    } else {
      assert evs[..|evs| - 1][..k] == evs[..k];
      AcceptedPrefix(evs[..|evs| - 1], k);
    }
  }

  /** The event at `k` was read in a phase that allows it. */
  lemma {:induction false} AcceptedAt(evs: seq<Kind>, k: nat)
    requires k < |evs| && !PhaseOf(evs).Broken?
    ensures !Advance(PhaseOf(evs[..k]), evs[k]).Broken? && PhaseMeans(evs[..k])
  {
    AcceptedPrefix(evs, k + 1);
    assert evs[..k + 1][..k] == evs[..k];
    AcceptedMeans(evs[..k]);
  }

  lemma {:induction false} WarnedWhileOpen(evs: seq<Kind>, k: nat)
    requires k < |evs| && !PhaseOf(evs).Broken? && evs[k].ReviewRequested?
    ensures Started in evs[..k] && forall j :: 0 <= j < k ==> !evs[j].EndedBy?
  {
    AcceptedAt(evs, k);
    forall j | 0 <= j < k ensures evs[j] == evs[..k][j] {}
  }

  lemma {:induction false} EscalationIsLast(evs: seq<Kind>, k: nat)
    requires k < |evs| && !PhaseOf(evs).Broken? && evs[k].EscalationRequested?
    ensures 0 < k == |evs| - 1 && evs[k - 1] == EndedBy(DelegateDisabled)
  {
    AcceptedAt(evs, k);
    if k + 1 < |evs| {
      assert evs[..k + 1][..k] == evs[..k];
      AcceptedAt(evs, k + 1);
    }
  }

  /** Every sequence the automaton accepts is one of the promised shapes. */
  lemma {:induction false} AcceptedIsWellOrdered(evs: seq<Kind>)
    requires !PhaseOf(evs).Broken?
    ensures WellOrdered(evs) && PhaseMeans(evs)
  {
    AcceptedMeans(evs);
    forall k | 0 <= k < |evs| && evs[k].ReviewRequested?
      ensures Started in evs[..k] && forall j :: 0 <= j < k ==> !evs[j].EndedBy?
    {
      WarnedWhileOpen(evs, k);
    }
    forall k | 0 <= k < |evs| && evs[k].EscalationRequested?
      ensures 0 < k == |evs| - 1 && evs[k - 1] == EndedBy(DelegateDisabled)
    {
      EscalationIsLast(evs, k);
    }
  }

  /** What was read tells about a disabled delegate. */
  lemma {:induction false} PhaseTells(phase: Phase, evs: seq<Kind>)
    requires MeansIn(phase, evs) && !phase.Broken?
    ensures EscalationRequested in evs <==> phase.Escalated?
    ensures EndedBy(DelegateDisabled) in Boundaries(evs) <==> phase == Closed(DelegateDisabled) || phase.Escalated?
  {
    if phase.Escalated? {
      assert evs[|evs| - 2..][1] == evs[|evs| - 1];
    }
  }

  // Review warnings.

  function WarnDays(evs: seq<Kind>): seq<int> {
    if evs == [] then []
    else
      var k := evs[|evs| - 1];
      WarnDays(evs[..|evs| - 1]) + (if k.ReviewRequested? then [k.days] else [])
  }

  function Flatten(rounds: seq<seq<int>>): seq<int> {
    if rounds == [] then [] else Flatten(rounds[..|rounds| - 1]) + rounds[|rounds| - 1]
  }

  function Sum(xs: seq<int>): int {
    if xs == [] then 0 else Sum(xs[..|xs| - 1]) + xs[|xs| - 1]
  }

  lemma {:induction false} SumSnoc(xs: seq<int>, x: int)
    ensures Sum(xs + [x]) == Sum(xs) + x
  {
    assert (xs + [x])[..|xs + [x]| - 1] == xs;
  }

  ghost predicate Decreasing(xs: seq<int>) {
    forall i, j :: 0 <= i < j < |xs| ==> xs[i] > xs[j]
  }

  ghost predicate InRange(xs: seq<int>, lo: int, hi: int) {
    forall i :: 0 <= i < |xs| ==> lo <= xs[i] <= hi
  }

  lemma {:induction false} DecreasingBound(xs: seq<int>, i: nat)
    requires Decreasing(xs) && InRange(xs, 1, 3) && i < |xs|
    ensures xs[i] <= 3 - i
  {
    if i > 0 {
      DecreasingBound(xs, i - 1);
    }
  }

  lemma {:induction false} AtMostThreePerRound(rounds: seq<seq<int>>)
    requires forall i :: 0 <= i < |rounds| ==> Decreasing(rounds[i]) && InRange(rounds[i], 1, 3)
    ensures |Flatten(rounds)| <= 3 * |rounds|
  {
    if rounds != [] {
      var last := rounds[|rounds| - 1];
      AtMostThreePerRound(rounds[..|rounds| - 1]);
      if last != [] {
        DecreasingBound(last, |last| - 1);
      }
    }
  }
}
