/** Whole queues of deliveries, with duplicates, failures, unknown types, overlapping workers
    and foreign writes between them. */
module Deliveries {
  import opened Domain
  import opened Table
  import opened Lifecycle
  import opened Persistence
  import opened Cascade
  import opened Consumer

  /** One delivery and how it ended, or writes of somebody else: those may replace rows,
      outbox and policies and mark events of their own. */
  datatype Item =
    | Delivery(plan: Plan, now: Time, order: seq<Id>, ok: bool, skipped: bool)
    | Elsewhere(rows: Rows, outbox: seq<Event>, policies: map<Id, Policy>, marks: set<LedgerKey>)

  function KeysOf(plan: Plan): set<LedgerKey> {
    match plan
    case Acknowledge(key) => {key}
    case Run(key, _) => {key}
    case _ => {}
  }

  /** The keys settled by the successful deliveries. */
  function Keys(items: seq<Item>): set<LedgerKey> {
    if items == [] then {}
    else
      var last := items[|items| - 1];
      Keys(items[..|items| - 1]) + if last.Delivery? && last.ok then KeysOf(last.plan) else {}
  }

  /** A probe finds only keys that are there; it may miss one that a worker handling the same
      event at the same moment is about to add. */
  predicate CanHappen(s: Store, item: Item) {
    item.Delivery? && item.ok ==>
      && !item.plan.Refuse? && Fits(s, item.plan, item.order, item.skipped)
      && (item.plan.Run? && item.skipped ==> item.plan.key in s.ledger)
  }

  function After(s: Store, item: Item): Store
    requires CanHappen(s, item)
  {
    match item
    case Delivery(plan, now, order, ok, skipped) => if ok then Handled(s, plan, now, order, skipped) else s
    case Elsewhere(rows, outbox, policies, marks) => Store(rows, outbox, policies, s.ledger + marks)
  }

  predicate Possible(s: Store, items: seq<Item>)
    decreases |items|, 0
  {
    items == [] || (Possible(s, items[..|items| - 1]) && CanHappen(Fold(s, items[..|items| - 1]), items[|items| - 1]))
  }

  /** The store after all of them. */
  function Fold(s: Store, items: seq<Item>): Store
    requires Possible(s, items)
    decreases |items|, 1
  {
    if items == [] then s else After(Fold(s, items[..|items| - 1]), items[|items| - 1])
  }

  lemma {:induction false} FoldSnoc(s: Store, items: seq<Item>, item: Item)
    requires Possible(s, items) && CanHappen(Fold(s, items), item)
    ensures Possible(s, items + [item]) && Fold(s, items + [item]) == After(Fold(s, items), item)
  {
    assert (items + [item])[..|items + [item]| - 1] == items;
  }

  /** A delivery whose event an earlier one on the list settled runs its cascade again only
      because its probe missed that. */
  predicate RunsAgain(front: seq<Item>, last: Item) {
    last.Delivery? && last.ok && last.plan.Run? && !last.skipped && last.plan.key in Keys(front)
  }

  /** Whenever a cascade runs again, it finds nothing to do. */
  ghost predicate RepeatsIdle(s: Store, items: seq<Item>)
    requires Possible(s, items)
  {
    items == [] || (
      var front, last := items[..|items| - 1], items[|items| - 1];
      RepeatsIdle(s, front) && (RunsAgain(front, last) && last.plan.work.Some? ==> Idle(Fold(s, front), last.plan.work.value)))
  }

  lemma {:induction false} RepeatsIdleSnoc(s: Store, items: seq<Item>, item: Item)
    requires Possible(s, items) && CanHappen(Fold(s, items), item) && RepeatsIdle(s, items) && !RunsAgain(items, item)
    ensures Possible(s, items + [item]) && RepeatsIdle(s, items + [item])
  {
    FoldSnoc(s, items, item);
    assert (items + [item])[..|items + [item]| - 1] == items;
  }

  /** The first successful delivery under each ledger key, and the foreign writes. */
  function FirstOnly(items: seq<Item>): seq<Item> {
    if items == [] then []
    else
      var front, last := items[..|items| - 1], items[|items| - 1];
      if last.Elsewhere? then FirstOnly(front) + [last]
      else if last.ok && KeysOf(last.plan) != {} && KeysOf(last.plan) !! Keys(front) then FirstOnly(front) + [last]
      else FirstOnly(front)
  }

  lemma {:induction false} LedgerAfter(s: Store, items: seq<Item>)
    requires Possible(s, items)
    ensures s.ledger + Keys(items) <= Fold(s, items).ledger
    ensures NoForeignWrites(items) ==> Fold(s, items).ledger == s.ledger + Keys(items)
  {
    if items != [] {
      LedgerAfter(s, items[..|items| - 1]);
    }
  }

  /** A delivery under a key that is settled already changes nothing. */
  lemma {:induction false} RepeatChangesNothing(t: Store, front: seq<Item>, last: Item)
    requires CanHappen(t, last) && last.Delivery? && Keys(front) <= t.ledger
    requires last.ok ==> KeysOf(last.plan) == {} || !(KeysOf(last.plan) !! Keys(front))
    requires RunsAgain(front, last) && last.plan.work.Some? ==> Idle(t, last.plan.work.value)
    ensures After(t, last) == t
  {
    if last.ok && KeysOf(last.plan) != {} {
      assert last.plan.key in Keys(front);
      assert t.ledger + {last.plan.key} == t.ledger;
      if last.plan.Run? && !last.skipped {
        IdleWork(t, last.plan.work.value, last.now, last.order);
      }
    }
  }

  /** For every list of deliveries, duplicates, failures and unknown types included, rows,
      outbox, policies and ledger end exactly as if only the first successful delivery of
      each envelope had been run. */
  lemma {:induction false} OnlyFirstDeliveriesMatter(s: Store, items: seq<Item>)
    requires Possible(s, items) && RepeatsIdle(s, items)
    ensures Possible(s, FirstOnly(items)) && Fold(s, FirstOnly(items)) == Fold(s, items)
  {
    if items != [] {
      var front, last := items[..|items| - 1], items[|items| - 1];
      OnlyFirstDeliveriesMatter(s, front);
      LedgerAfter(s, front);
      if last.Elsewhere? || (last.ok && KeysOf(last.plan) != {} && KeysOf(last.plan) !! Keys(front)) {
        FoldSnoc(s, FirstOnly(front), last);
      } else {
        RepeatChangesNothing(Fold(s, front), front, last);
      }
    }
  }

  /** Running only the first deliveries makes the same of the store. */
  ghost predicate Agrees(s: Store, items: seq<Item>) {
    Possible(s, items) && Possible(s, FirstOnly(items)) && Fold(s, FirstOnly(items)) == Fold(s, items)
  }

  /** It does so at every point of the list. */
  ghost predicate AgreesThroughout(s: Store, items: seq<Item>) {
    forall k :: 0 <= k <= |items| ==> Agrees(s, items[..k])
  }

  lemma {:induction false} AgreesSnoc(s: Store, front: seq<Item>, last: Item)
    ensures AgreesThroughout(s, front + [last]) <==> AgreesThroughout(s, front) && Agrees(s, front + [last])
  {
    var items := front + [last];
    assert items[..|items|] == items;
    assert forall k :: 0 <= k <= |front| ==> items[..k] == front[..k];
    if AgreesThroughout(s, items) {
      forall k | 0 <= k <= |front| ensures Agrees(s, front[..k]) {
        assert Agrees(s, items[..k]);
      }
    }
  }

  /** If a cascade that ran again left the store as it was, it had nothing to do. */
  lemma {:induction false} AgreeingRerunIsIdle(s: Store, front: seq<Item>, last: Item)
    requires Agrees(s, front) && Agrees(s, front + [last])
    requires RunsAgain(front, last) && last.plan.work.Some?
    ensures Idle(Fold(s, front), last.plan.work.value)
  {
    var items, t := front + [last], Fold(s, front);
    assert items[..|items| - 1] == front;
    assert FirstOnly(items) == FirstOnly(front) && After(t, last) == t;
    LedgerAfter(s, front);
    assert t.ledger + {last.plan.key} == t.ledger;
    IdleWork(t, last.plan.work.value, last.now, last.order);
  }

  /** Overlapping workers are harmless at every point of a list exactly when no cascade that
      runs again finds anything to do. */
  lemma {:induction false} HarmlessExactlyWhenRepeatsIdle(s: Store, items: seq<Item>)
    requires Possible(s, items)
    ensures AgreesThroughout(s, items) <==> RepeatsIdle(s, items)
  {
    if items == [] {
      assert forall k :: 0 <= k <= |items| ==> items[..k] == [];
    } else {
      var front, last := items[..|items| - 1], items[|items| - 1];
      assert items == front + [last];
      HarmlessExactlyWhenRepeatsIdle(s, front);
      AgreesSnoc(s, front, last);
      if RepeatsIdle(s, items) {
        OnlyFirstDeliveriesMatter(s, items);
      } else if AgreesThroughout(s, items) {
        assert front[..|front|] == front;
        AgreeingRerunIsIdle(s, front, last);
      }
    }
  }

  function Revocation(key: LedgerKey, row: Row): Plan {
    Run(key, Some(RevokeMember(row.tenant, row.delegate)))
  }

  lemma {:induction false} FirstOnlySnoc(items: seq<Item>, item: Item)
    ensures Keys(items + [item]) == Keys(items) + if item.Delivery? && item.ok then KeysOf(item.plan) else {}
    ensures FirstOnly(items + [item]) == FirstOnly(items)
              + if item.Elsewhere? || (item.ok && KeysOf(item.plan) != {} && KeysOf(item.plan) !! Keys(items)) then [item] else []
  {
    assert (items + [item])[..|items + [item]| - 1] == items;
  }

  /** A settled event and then somebody else's writes. */
  lemma {:induction false} SettledThenElsewhere(s: Store, first: Item, others: Item)
    requires first.Delivery? && first.ok && KeysOf(first.plan) != {} && others.Elsewhere? && CanHappen(s, first)
    ensures Possible(s, [first, others]) && Fold(s, [first, others]) == After(After(s, first), others)
    ensures Keys([first, others]) == KeysOf(first.plan) && FirstOnly([first, others]) == [first, others]
  {
    assert [] + [first] == [first] && [first] + [others] == [first, others];
    FirstOnlySnoc([], first);
    FoldSnoc(s, [], first);
    FirstOnlySnoc([first], others);
    FoldSnoc(s, [first], others);
  }

  /** A worker revokes the membership of somebody who takes part in no delegation yet, and
      then the delegation `row` to this member is created. */
  lemma {:induction false} RevokedThenCreated(key: LedgerKey, row: Row) returns (items: seq<Item>, t: Store)
    ensures items == [Delivery(Revocation(key, row), 0, [], true, false), Elsewhere(map[row.id := row], [], map[], {})]
    ensures Possible(EMPTY_STORE, items) && t == Fold(EMPTY_STORE, items) && t.rows == map[row.id := row]
    ensures Keys(items) == {key} && FirstOnly(items) == items
  {
    var first, create := Delivery(Revocation(key, row), 0, [], true, false), Elsewhere(map[row.id := row], [], map[], {});
    SettledThenElsewhere(EMPTY_STORE, first, create);
    items, t := [first, create], After(After(EMPTY_STORE, first), create);
  }

  lemma {:induction false} RevokedAgain(t: Store, key: LedgerKey, row: Row)
    requires t.rows == map[row.id := row] && Live(row)
    ensures var again := Delivery(Revocation(key, row), 0, [row.id], true, false);
            CanHappen(t, again) && row.id !in LiveIds(After(t, again).rows)
    ensures !Idle(t, RevokeMember(row.tenant, row.delegate))
  {
    assert HitByRevoke(t.rows[row.id], row.tenant, row.delegate);
    assert RevokeHits(t.rows, row.tenant, row.delegate) == {row.id};
    assert Hits(RevokeMember(row.tenant, row.delegate), t.rows[row.id]);
  }

  /** And harm is possible: two workers probe for one revoked membership before either
      commits, and a delegation to the member is created between their transactions. The
      second worker ends it; after the first delivery alone it would be live. */
  lemma {:induction false} OverlapEndsALaterDelegation(key: LedgerKey, row: Row) returns (items: seq<Item>)
    requires Live(row)
    ensures Possible(EMPTY_STORE, items) && Possible(EMPTY_STORE, FirstOnly(items)) && !RepeatsIdle(EMPTY_STORE, items)
    ensures row.id in LiveIds(Fold(EMPTY_STORE, FirstOnly(items)).rows) && row.id !in LiveIds(Fold(EMPTY_STORE, items).rows)
  {
    var front, t := RevokedThenCreated(key, row);
    var again := Delivery(Revocation(key, row), 0, [row.id], true, false);
    RevokedAgain(t, key, row);
    items := front + [again];
    FoldSnoc(EMPTY_STORE, front, again);
    FirstOnlySnoc(front, again);
    assert key in KeysOf(again.plan) * Keys(front) && RunsAgain(front, again);
    assert items[..|items| - 1] == front;
  }

  // ---------------------------------------------------------------- running a queue

  /** One delivery, after whatever others wrote in the meantime. */
  method DeliverNext(c: CascadeConsumer, env: Envelope, now: Time) returns (ghost others: Item, ghost item: Item)
    requires c.Ready()
    modifies c.db, c.cascade`attempted
    ensures c.Ready() && others.Elsewhere? && item.Delivery? && item.plan == PlanOf(env)
    ensures CanHappen(After(old(c.db.durable), others), item)
    ensures c.db.durable == After(After(old(c.db.durable), others), item)
    ensures c.alone ==> After(old(c.db.durable), others) == old(c.db.durable)
    ensures item.ok && item.plan.Run? && !item.skipped ==> item.plan.key !in old(c.db.durable.ledger)
    ensures c.db.healthy && !item.ok ==> item.plan.Refuse? || (item.plan.Run? && item.plan.work.None?)
  {
    ghost var before := c.db.durable;
    c.Meanwhile();
    var err, order, skipped, mid := c.Handle(env, now);
    others := Elsewhere(mid.rows, mid.outbox, mid.policies, mid.ledger);
    assert before.ledger + mid.ledger == mid.ledger;
    item := Delivery(PlanOf(env), now, order, !err, skipped);
  }

  /** What a healthy consumer may refuse. */
  ghost predicate Prompt(items: seq<Item>) {
    forall i :: 0 <= i < |items| && items[i].Delivery? && !items[i].ok ==>
      items[i].plan.Refuse? || (items[i].plan.Run? && items[i].plan.work.None?)
  }

  lemma {:induction false} OneMore(s: Store, items: seq<Item>, item: Item)
    requires Possible(s, items) && RepeatsIdle(s, items) && CanHappen(Fold(s, items), item)
    requires item.Delivery? && item.ok && item.plan.Run? && !item.skipped ==> item.plan.key !in Keys(items)
    ensures Possible(s, items + [item]) && RepeatsIdle(s, items + [item])
    ensures Fold(s, items + [item]) == After(Fold(s, items), item)
    ensures PlansOf(items + [item]) == PlansOf(items) + if item.Delivery? then [item.plan] else []
    ensures Keys(items + [item]) == Keys(items) + if item.Delivery? && item.ok then KeysOf(item.plan) else {}
  {
    FoldSnoc(s, items, item);
    RepeatsIdleSnoc(s, items, item);
    PlansSnoc(items, item);
    assert (items + [item])[..|items + [item]| - 1] == items;
  }

  /** What the items so far have made of the store. */
  ghost predicate Consumed(start: Store, t: Store, items: seq<Item>, plans: seq<Plan>, alone: bool, healthy: bool) {
    && Possible(start, items) && RepeatsIdle(start, items) && t == Fold(start, items)
    && PlansOf(items) == plans && Keys(items) <= t.ledger
    && (alone ==> NoForeignWrites(items))
    && (healthy ==> Prompt(items))
  }

  lemma {:induction false} ConsumedMore(
      start: Store, t: Store, items: seq<Item>, plans: seq<Plan>, alone: bool, healthy: bool, item: Item)
    requires Consumed(start, t, items, plans, alone, healthy) && CanHappen(t, item)
    requires item.Elsewhere? ==> !alone
    requires item.Delivery? && item.ok && item.plan.Run? && !item.skipped ==> item.plan.key !in Keys(items)
    requires healthy && item.Delivery? && !item.ok ==> item.plan.Refuse? || (item.plan.Run? && item.plan.work.None?)
    ensures Consumed(start, After(t, item), items + [item], plans + if item.Delivery? then [item.plan] else [], alone, healthy)
  {
    OneMore(start, items, item);
    LedgerAfter(start, items + [item]);
  }

  /** A turn of the queue: others' writes, of which there are none if the consumer is alone,
      and then one delivery. */
  lemma {:induction false} ConsumedTurn(
      start: Store, t: Store, items: seq<Item>, plans: seq<Plan>, alone: bool, healthy: bool, others: Item, item: Item)
    returns (longer: seq<Item>)
    requires Consumed(start, t, items, plans, alone, healthy)
    requires others.Elsewhere? && item.Delivery? && CanHappen(After(t, others), item) && (alone ==> After(t, others) == t)
    requires item.ok && item.plan.Run? && !item.skipped ==> item.plan.key !in t.ledger
    requires healthy && !item.ok ==> item.plan.Refuse? || (item.plan.Run? && item.plan.work.None?)
    ensures Consumed(start, After(After(t, others), item), longer, plans + [item.plan], alone, healthy)
  {
    longer := items;
    if !alone {
      OneMore(start, items, others);
      ConsumedMore(start, t, items, plans, alone, healthy, others);
      assert plans + [] == plans;
      longer := items + [others];
    }
    ConsumedMore(start, After(t, others), longer, plans, alone, healthy, item);
    longer := longer + [item];
  }

  /** Running a queue through Handle, while others write and work on the same events unless
      the consumer is alone. */
  method Consume(c: CascadeConsumer, queue: seq<(Envelope, Time)>) returns (ghost items: seq<Item>)
    requires c.Ready()
    modifies c.db, c.cascade`attempted
    ensures c.Ready() && Consumed(old(c.db.durable), c.db.durable, items, PlansAsked(queue), c.alone, c.db.healthy)
    ensures Possible(old(c.db.durable), FirstOnly(items)) && c.db.durable == Fold(old(c.db.durable), FirstOnly(items))
  {
    items := [];
    ghost var start := c.db.durable;
    var i := 0;
    while i < |queue|
      invariant 0 <= i <= |queue| && c.Ready()
      invariant Consumed(start, c.db.durable, items, PlansAsked(queue[..i]), c.alone, c.db.healthy)
    {
      ghost var t := c.db.durable;
      ghost var others, item := DeliverNext(c, queue[i].0, queue[i].1);
      items := ConsumedTurn(start, t, items, PlansAsked(queue[..i]), c.alone, c.db.healthy, others, item);
      assert queue[..i + 1][..i] == queue[..i];
      i := i + 1;
    }
    assert queue[..|queue|] == queue;
    OnlyFirstDeliveriesMatter(start, items);
  }

  function PlansOf(items: seq<Item>): seq<Plan> {
    if items == [] then []
    else PlansOf(items[..|items| - 1]) + if items[|items| - 1].Delivery? then [items[|items| - 1].plan] else []
  }

  function PlansAsked(queue: seq<(Envelope, Time)>): seq<Plan> {
    if queue == [] then [] else PlansAsked(queue[..|queue| - 1]) + [PlanOf(queue[|queue| - 1].0)]
  }

  lemma {:induction false} PlansSnoc(items: seq<Item>, item: Item)
    ensures PlansOf(items + [item]) == PlansOf(items) + if item.Delivery? then [item.plan] else []
  {
    assert (items + [item])[..|items + [item]| - 1] == items;
  }

  // ---------------------------------------------------------------- delivery order

  /** The rows a piece of work is about, whatever their state. */
  predicate Concerns(work: Work, r: Row) {
    match work
    case RevokeMember(tenant, user) => r.tenant == tenant && (r.delegator == user || r.delegate == user)
    case DisableMember(tenant, user) => r.tenant == tenant && r.delegate == user
    case PurgeTenant(tenant) => r.tenant == tenant
  }

  ghost predicate Settles(items: seq<Item>, plan: Plan) {
    exists i :: 0 <= i < |items| && items[i].Delivery? && items[i].ok && items[i].plan == plan
  }

  /** Some successful delivery concerns the row. */
  ghost predicate Struck(items: seq<Item>, r: Row) {
    exists plan: Plan :: plan.Run? && plan.work.Some? && Settles(items, plan) && Concerns(plan.work.value, r)
  }

  function LiveIds(t: Rows): set<Id> {
    set id | id in t && Live(t[id])
  }

  /** Distinct envelopes have distinct ids: a ledger key stands for one plan. */
  ghost predicate DistinctIds(items: seq<Item>) {
    forall p: Plan, q: Plan :: Settles(items, p) && Settles(items, q) && KeysOf(p) * KeysOf(q) != {} ==> p == q
  }

  lemma {:induction false} WorkOnRow(s: Store, work: Work, now: Time, order: seq<Id>, id: Id)
    requires Visits(s.rows, work, order) && id in s.rows
    ensures var t := Performed(s, work, now, order).rows;
            && t.Keys == s.rows.Keys && SameTerms(s.rows[id], t[id])
            && (Live(t[id]) <==> Live(s.rows[id]) && !Concerns(work, s.rows[id]))
            && (!Concerns(work, s.rows[id]) ==> t[id] == s.rows[id])
  {
  }

  lemma {:induction false} SettlesSnoc(items: seq<Item>, item: Item, plan: Plan)
    ensures Settles(items + [item], plan) <==> Settles(items, plan) || (item.Delivery? && item.ok && item.plan == plan)
  {
    if Settles(items, plan) {
      var i :| 0 <= i < |items| && items[i].Delivery? && items[i].ok && items[i].plan == plan;
      assert (items + [item])[i] == items[i];
    } else if item.Delivery? && item.ok && item.plan == plan {
      assert (items + [item])[|items|] == item;
    }
  }

  lemma {:induction false} KeySettled(items: seq<Item>, key: LedgerKey) returns (plan: Plan)
    requires key in Keys(items)
    ensures Settles(items, plan) && KeysOf(plan) == {key}
  {
    var front, last := items[..|items| - 1], items[|items| - 1];
    assert items == front + [last];
    if key in Keys(front) {
      plan := KeySettled(front, key);
    } else {
      plan := last.plan;
    }
    SettlesSnoc(front, last, plan);
  }

  /** What a row has come to after the deliveries. */
  ghost predicate RowAfter(s: Store, items: seq<Item>, t: Rows, id: Id)
    requires id in s.rows && id in t
  {
    && SameTerms(s.rows[id], t[id])
    && (Live(t[id]) <==> Live(s.rows[id]) && !Struck(items, s.rows[id]))
    && (!Struck(items, s.rows[id]) ==> t[id] == s.rows[id])
  }

  lemma {:induction false} RowAfterDelivery(s: Store, front: seq<Item>, last: Item, t: Store, id: Id)
    requires id in s.rows && id in t.rows && RowAfter(s, front, t.rows, id)
    requires last.Delivery? && CanHappen(t, last) && DistinctIds(front + [last])
    requires t.ledger == s.ledger + Keys(front) && s.ledger !! Keys(front + [last])
    ensures After(t, last).rows.Keys == t.rows.Keys && RowAfter(s, front + [last], After(t, last).rows, id)
  {
    assert (front + [last])[..|front + [last]| - 1] == front;
    forall plan ensures Settles(front + [last], plan) <==> Settles(front, plan) || (last.ok && last.plan == plan) {
      SettlesSnoc(front, last, plan);
    }
    if last.ok && last.plan.Run? {
      if last.skipped {
        var earlier := KeySettled(front, last.plan.key);
        assert last.plan.key in KeysOf(earlier) * KeysOf(last.plan);
        assert earlier == last.plan;
      } else {
        WorkOnRow(t, last.plan.work.value, last.now, last.order, id);
      }
    }
  }

  ghost predicate NoForeignWrites(items: seq<Item>) {
    forall i :: 0 <= i < |items| ==> items[i].Delivery?
  }

  lemma {:induction false} DistinctFront(front: seq<Item>, last: Item)
    requires DistinctIds(front + [last])
    ensures DistinctIds(front)
  {
    forall p: Plan, q: Plan | Settles(front, p) && Settles(front, q) && KeysOf(p) * KeysOf(q) != {} ensures p == q {
      SettlesSnoc(front, last, p);
      SettlesSnoc(front, last, q);
    }
  }

  /** Starting from one table, each row ends live exactly if it was live and no delivered
      event concerns it; and a row none of them concerns, such as any row of another tenant,
      is not touched at all. */
  lemma {:induction false} EachRowAfter(s: Store, items: seq<Item>, id: Id)
    requires Possible(s, items) && NoForeignWrites(items) && DistinctIds(items)
    requires s.ledger !! Keys(items) && id in s.rows
    ensures Fold(s, items).rows.Keys == s.rows.Keys && RowAfter(s, items, Fold(s, items).rows, id)
  {
    if items != [] {
      var front, last := items[..|items| - 1], items[|items| - 1];
      assert items == front + [last];
      DistinctFront(front, last);
      EachRowAfter(s, front, id);
      LedgerAfter(s, front);
      RowAfterDelivery(s, front, last, Fold(s, front), id);
    }
  }

  /** However the same events are ordered, repeated or retried, the same delegations are
      left live. */
  lemma {:induction false} DeliveryOrderDoesNotMatter(s: Store, a: seq<Item>, b: seq<Item>)
    requires Possible(s, a) && NoForeignWrites(a) && DistinctIds(a) && s.ledger !! Keys(a)
    requires Possible(s, b) && NoForeignWrites(b) && DistinctIds(b) && s.ledger !! Keys(b)
    requires forall plan :: Settles(a, plan) <==> Settles(b, plan)
    ensures LiveIds(Fold(s, a).rows) == LiveIds(Fold(s, b).rows)
    ensures forall id :: id in LiveIds(Fold(s, a).rows) <==> id in LiveIds(s.rows) && !Struck(a, s.rows[id])
  {
    KeysKept(s, a);
    KeysKept(s, b);
    forall id | id in s.rows
      ensures RowAfter(s, a, Fold(s, a).rows, id) && RowAfter(s, b, Fold(s, b).rows, id)
      ensures Struck(a, s.rows[id]) <==> Struck(b, s.rows[id])
    {
      EachRowAfter(s, a, id);
      EachRowAfter(s, b, id);
    }
  }

  lemma {:induction false} KeysKept(s: Store, items: seq<Item>)
    requires Possible(s, items) && NoForeignWrites(items)
    ensures Fold(s, items).rows.Keys == s.rows.Keys
  {
    if items != [] {
      KeysKept(s, items[..|items| - 1]);
    }
  }

  // ---------------------------------------------------------------- overlapping workers

  /** Work settled by a list without foreign writes stays done. */
  lemma {:induction false} SettledWorkIsDone(s: Store, items: seq<Item>, plan: Plan)
    requires Possible(s, items) && NoForeignWrites(items) && DistinctIds(items) && s.ledger !! Keys(items)
    requires plan.Run? && plan.work.Some? && Settles(items, plan)
    ensures Idle(Fold(s, items), plan.work.value)
  {
    var front, last := items[..|items| - 1], items[|items| - 1];
    assert items == front + [last];
    SettlesSnoc(front, last, plan);
    DistinctFront(front, last);
    LedgerAfter(s, front);
    var t := Fold(s, front);
    if last.ok && last.plan == plan && last.skipped {
      var earlier := KeySettled(front, plan.key);
      SettlesSnoc(front, last, earlier);
      assert plan.key in KeysOf(earlier) * KeysOf(plan);
    }
    if Settles(front, plan) {
      SettledWorkIsDone(s, front, plan);
      if last.ok && last.plan.Run? && !last.skipped {
        IdleStays(t, plan.work.value, last.plan.work.value, last.now, last.order);
      }
    } else {
      PerformedIsIdle(t, plan.work.value, last.now, last.order);
    }
  }

  /** Workers that handle the same events at the same time do no harm: without other writers,
      a cascade that runs again finds nothing to do, so OnlyFirstDeliveriesMatter applies. */
  lemma {:induction false} OverlapsAreIdle(s: Store, items: seq<Item>)
    requires Possible(s, items) && NoForeignWrites(items) && DistinctIds(items) && s.ledger !! Keys(items)
    ensures RepeatsIdle(s, items)
  {
    if items != [] {
      var front, last := items[..|items| - 1], items[|items| - 1];
      assert items == front + [last];
      DistinctFront(front, last);
      OverlapsAreIdle(s, front);
      if RunsAgain(front, last) && last.plan.work.Some? {
        var earlier := KeySettled(front, last.plan.key);
        SettlesSnoc(front, last, earlier);
        SettlesSnoc(front, last, last.plan);
        assert last.plan.key in KeysOf(earlier) * KeysOf(last.plan);
        SettledWorkIsDone(s, front, last.plan);
      }
    }
  }

  // ---------------------------------------------------------------- a queue and its outcome

  function Envelopes(queue: seq<(Envelope, Time)>): set<Envelope> {
    set i | 0 <= i < |queue| :: queue[i].0
  }

  /** Distinct events have distinct ids. */
  ghost predicate DistinctEnvelopes(envs: set<Envelope>) {
    forall a, b :: a in envs && b in envs && KeysOf(PlanOf(a)) * KeysOf(PlanOf(b)) != {} ==> PlanOf(a) == PlanOf(b)
  }

  /** None of them was processed before. */
  ghost predicate Unprocessed(ledger: set<LedgerKey>, envs: set<Envelope>) {
    forall env :: env in envs ==> ledger !! KeysOf(PlanOf(env))
  }

  /** The event is readable and about a party or the tenant of this row. */
  predicate Touches(env: Envelope, r: Row) {
    && env.parsed.Some? && env.payload.valid && env.payload.decodes
    && match env.kind
       case MembershipRevoked => r.tenant == env.payload.tenant && (r.delegator == env.payload.user || r.delegate == env.payload.user)
       case TenantMembershipsPurged => r.tenant == env.payload.tenant
       case UserUpdated =>
         env.payload.status == Some("disabled") && env.tenant == Some(r.tenant) && r.delegate == env.payload.user
       case Unknown => false
  }

  ghost predicate Named(envs: set<Envelope>, r: Row) {
    exists env :: env in envs && Touches(env, r)
  }

  lemma {:induction false} TouchesAsPlanned(env: Envelope, r: Row)
    ensures Touches(env, r) <==> PlanOf(env).Run? && PlanOf(env).work.Some? && Concerns(PlanOf(env).work.value, r)
  {
  }

  /** The live delegations none of these events concerns; in what order and how often they
      are delivered does not enter. */
  ghost function Survivors(t: Rows, envs: set<Envelope>): set<Id> {
    set id | id in t && Live(t[id]) && !Named(envs, t[id])
  }

  lemma {:induction false} PlanWasAsked(queue: seq<(Envelope, Time)>, plan: Plan)
    ensures plan in PlansAsked(queue) <==> exists env :: env in Envelopes(queue) && PlanOf(env) == plan
  {
    if queue != [] {
      var front, last := queue[..|queue| - 1], queue[|queue| - 1];
      PlanWasAsked(front, plan);
      assert Envelopes(queue) == Envelopes(front) + {last.0} by {
        forall i | 0 <= i < |queue| ensures queue[i].0 in Envelopes(front) + {last.0} {
          if i < |front| { assert front[i].0 in Envelopes(front); }
        }
        forall env | env in Envelopes(front) ensures env in Envelopes(queue) {
          var i :| 0 <= i < |front| && front[i].0 == env;
          assert queue[i].0 == env;
        }
      }
      assert last.0 in Envelopes(queue);
    }
  }

  lemma {:induction false} PlanWasDelivered(items: seq<Item>, plan: Plan)
    ensures Settles(items, plan) ==> plan in PlansOf(items)
    ensures Prompt(items) && plan in PlansOf(items) && plan.Run? && plan.work.Some? ==> Settles(items, plan)
  {
    if items != [] {
      var front, last := items[..|items| - 1], items[|items| - 1];
      assert items == front + [last];
      PlanWasDelivered(front, plan);
      SettlesSnoc(front, last, plan);
    }
  }

  lemma {:induction false} KeysWereAsked(items: seq<Item>, queue: seq<(Envelope, Time)>, ledger: set<LedgerKey>)
    requires PlansOf(items) == PlansAsked(queue) && Unprocessed(ledger, Envelopes(queue))
    ensures ledger !! Keys(items)
  {
    forall key | key in Keys(items) ensures key !in ledger {
      var plan := KeySettled(items, key);
      PlanWasDelivered(items, plan);
      PlanWasAsked(queue, plan);
    }
  }

  lemma {:induction false} ItemsAreDistinct(items: seq<Item>, queue: seq<(Envelope, Time)>)
    requires PlansOf(items) == PlansAsked(queue) && DistinctEnvelopes(Envelopes(queue))
    ensures DistinctIds(items)
  {
    forall p: Plan, q: Plan | Settles(items, p) && Settles(items, q) && KeysOf(p) * KeysOf(q) != {} ensures p == q {
      PlanWasDelivered(items, p);
      PlanWasDelivered(items, q);
      PlanWasAsked(queue, p);
      PlanWasAsked(queue, q);
    }
  }

  lemma {:induction false} StruckIsNamed(items: seq<Item>, queue: seq<(Envelope, Time)>, r: Row)
    requires PlansOf(items) == PlansAsked(queue) && Prompt(items)
    ensures Struck(items, r) <==> Named(Envelopes(queue), r)
  {
    if Struck(items, r) {
      var plan: Plan :| plan.Run? && plan.work.Some? && Settles(items, plan) && Concerns(plan.work.value, r);
      PlanWasDelivered(items, plan);
      PlanWasAsked(queue, plan);
      var env :| env in Envelopes(queue) && PlanOf(env) == plan;
      TouchesAsPlanned(env, r);
    }
    if Named(Envelopes(queue), r) {
      var env :| env in Envelopes(queue) && Touches(env, r);
      TouchesAsPlanned(env, r);
      PlanWasAsked(queue, PlanOf(env));
      PlanWasDelivered(items, PlanOf(env));
    }
  }

  /** A healthy consumer without other writers leaves live exactly the delegations no event
      of the queue concerns, whatever the order of the queue and however often it repeats. */
  method ConsumeAlone(c: CascadeConsumer, queue: seq<(Envelope, Time)>)
    requires c.Ready() && c.alone && c.db.healthy
    requires DistinctEnvelopes(Envelopes(queue)) && Unprocessed(c.db.durable.ledger, Envelopes(queue))
    modifies c.db, c.cascade`attempted
    ensures LiveIds(c.db.durable.rows) == Survivors(old(c.db.durable.rows), Envelopes(queue))
    ensures forall id :: id in old(c.db.durable.rows) && !Named(Envelopes(queue), old(c.db.durable.rows)[id]) ==>
              id in c.db.durable.rows && c.db.durable.rows[id] == old(c.db.durable.rows)[id]
  {
    ghost var start := c.db.durable;
    ghost var items := Consume(c, queue);
    KeysWereAsked(items, queue, start.ledger);
    ItemsAreDistinct(items, queue);
    KeysKept(start, items);
    forall id | id in start.rows
      ensures RowAfter(start, items, c.db.durable.rows, id) && (Struck(items, start.rows[id]) <==> Named(Envelopes(queue), start.rows[id]))
    {
      EachRowAfter(start, items, id);
      StruckIsNamed(items, queue, start.rows[id]);
    }
  }
}
