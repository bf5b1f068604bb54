/** CascadeConsumer: at-least-once deliveries, each settled in one transaction together with
    its entry in the processed-events ledger. */
module Consumer {
  import opened Domain
  import opened Table
  import opened Persistence
  import opened Cascade

  datatype EventType = MembershipRevoked | TenantMembershipsPurged | UserUpdated | Unknown

  /** A payload as the schema check and the decoder see it. */
  datatype Payload = Payload(valid: bool, decodes: bool, tenant: Id, user: Id, status: Option<string>)

  /** id: the envelope id as sent; parsed: the canonical form of that id, if it is a UUID and
      not nil; tenant: the envelope's own tenant, if it parses. */
  datatype Envelope = Envelope(id: string, parsed: Option<string>, kind: EventType, tenant: Option<Id>, payload: Payload)

  predicate SchemaViolated(env: Envelope) {
    !env.kind.Unknown? && !env.payload.valid
  }

  predicate IsDisabling(env: Envelope) {
    env.payload.status == Some("disabled")
  }

  /** The cascade an envelope asks for; None if its data cannot be read. */
  function WorkOf(env: Envelope): Option<Work> {
    match env.kind
    case MembershipRevoked => if env.payload.decodes then Some(RevokeMember(env.payload.tenant, env.payload.user)) else None
    case TenantMembershipsPurged => if env.payload.decodes then Some(PurgeTenant(env.payload.tenant)) else None
    case UserUpdated =>
      if env.payload.decodes && env.tenant.Some? then Some(DisableMember(env.tenant.value, env.payload.user)) else None
    case Unknown => None
  }

  /** What Handle means to do with an envelope. */
  datatype Plan =
    | Drop
    | Refuse
    | Acknowledge(key: LedgerKey)
    | Run(key: LedgerKey, work: Option<Work>)

  function PlanOf(env: Envelope): Plan {
    if env.parsed.None? then Drop
    else if SchemaViolated(env) then Refuse
    else
      match env.kind
      case MembershipRevoked => Run(LedgerKey(Consumer.Cascade, env.parsed.value), WorkOf(env))
      case TenantMembershipsPurged => Run(LedgerKey(Offboarding, env.parsed.value), WorkOf(env))
      case UserUpdated =>
        if !env.payload.decodes then Refuse
        else if IsDisabling(env) then Run(LedgerKey(DelegateDisable, env.parsed.value), WorkOf(env))
        else Acknowledge(LedgerKey(DelegateDisable, env.parsed.value))
      case Unknown => Acknowledge(LedgerKey(Consumer.Cascade, env.id))
  }

  /** Envelopes no redelivery can settle. */
  predicate Hopeless(plan: Plan, ledger: set<LedgerKey>) {
    plan.Refuse? || (plan.Run? && plan.work.None? && plan.key !in ledger)
  }

  /** `skipped`: the ledger probe found the key. */
  predicate Fits(s: Store, plan: Plan, order: seq<Id>, skipped: bool) {
    plan.Run? && !skipped ==> plan.work.Some? && Visits(s.rows, plan.work.value, order)
  }

  /** The store after a successful delivery. */
  function Handled(s: Store, plan: Plan, now: Time, order: seq<Id>, skipped: bool): Store
    requires Fits(s, plan, order, skipped)
  {
    match plan
    case Acknowledge(key) => s.(ledger := s.ledger + {key})
    case Run(key, work) => if skipped then s else Performed(s, work.value, now, order).(ledger := s.ledger + {key})
    case _ => s
  }

  /** `alone`: nobody else writes between the ledger probe and the transaction. */
  class CascadeConsumer {
    const db: Database
    const cascade: CascadeService
    const alone: bool

    constructor (db: Database, alone: bool)
      ensures this.db == db && this.cascade.db == db && this.alone == alone && fresh(cascade)
    {
      this.db, this.alone := db, alone;
      this.cascade := new CascadeService(db);
    }

    ghost predicate Ready()
      reads this, db
    {
      cascade.db == db && db.tx.None? && Keyed(db.durable.rows)
    }

    /** Whatever other writers do in the meantime. Other workers may mark events. */
    method Meanwhile()
      requires Ready()
      modifies db`durable
      ensures Ready() && old(db.durable.ledger) <= db.durable.ledger
      ensures alone ==> db.durable == old(db.durable)
    {
      if alone { return; }
      var rows: Rows, outbox: seq<Event>, policies: map<Id, Policy>, marks: set<LedgerKey> := *, *, *, *;
      if !Keyed(rows) {
        rows := db.durable.rows;
      }
      db.durable := Store(rows, outbox, policies, db.durable.ledger + marks);
    }

    method MarkProcessedInTx(key: LedgerKey) returns (err: bool)
      requires db.tx.None?
      modifies db
      ensures db.tx.None?
      ensures db.durable == if err then old(db.durable) else old(db.durable).(ledger := old(db.durable.ledger) + {key})
      ensures db.healthy ==> !err
    {
      var joined := db.Enter();
      err := db.MarkProcessed(key);
      err := db.Leave(joined, err);
    }

    /** The cascade and its ledger entry in one transaction, which the cascade joins. */
    method RunCascadeAndMark(key: LedgerKey, work: Work, now: Time) returns (err: bool, ghost order: seq<Id>)
      requires Ready()
      modifies db, cascade`attempted
      ensures db.tx.None?
      ensures err ==> db.durable == old(db.durable)
      ensures !err ==>
                && Visits(old(db.durable.rows), work, order)
                && db.durable == Performed(old(db.durable), work, now, order).(ledger := old(db.durable.ledger) + {key})
      ensures !err ==>
                match work {
                  case RevokeMember(tenant, user) => MemberGone(old(db.durable), db.durable, tenant, user, now)
                  case DisableMember(tenant, user) => DelegateOut(old(db.durable), db.durable, tenant, user)
                  case PurgeTenant(tenant) => TenantGone(old(db.durable), db.durable, tenant, now)
                }
      ensures db.healthy ==> !err
    {
      order := [];
      var joined := db.Enter();
      match work {
        case RevokeMember(tenant, user) => err, order := cascade.EndForUser(tenant, user, now);
        case DisableMember(tenant, user) => err, order := cascade.EndForDisabledDelegate(tenant, user, now);
        case PurgeTenant(tenant) => err := cascade.ScrubTenant(tenant, now);
      }
      if !err {
        err := db.MarkProcessed(key);
      }
      err := db.Leave(joined, err);
      if !err {
        match work {
          case RevokeMember(tenant, user) => RevocationEffect(old(db.durable), tenant, user, now, order);
          case DisableMember(tenant, user) => DisablingEffect(old(db.durable), tenant, user, now, order);
          case PurgeTenant(tenant) => PurgeEffect(old(db.durable), tenant, now);
        }
      }
    }

    /** An error leaves rows, outbox, policies and ledger as others left them; a nil return
        means the delivery is settled, or its id is malformed and it was dropped. `mid` is
        what others had made of the store when this delivery's transaction began. */
    method Handle(env: Envelope, now: Time) returns (err: bool, ghost order: seq<Id>, ghost skipped: bool, ghost mid: Store)
      requires Ready()
      modifies db, cascade`attempted
      ensures Ready() && Keyed(mid.rows) && old(db.durable.ledger) <= mid.ledger
      ensures alone ==> mid == old(db.durable)
      ensures err ==> db.durable == mid
      ensures !err ==>
                && !Hopeless(PlanOf(env), old(db.durable.ledger)) && Fits(mid, PlanOf(env), order, skipped)
                && db.durable == Handled(mid, PlanOf(env), now, order, skipped)
      ensures !err && PlanOf(env).Run? ==> (skipped <==> PlanOf(env).key in old(db.durable.ledger))
      ensures db.healthy ==> (err <==> Hopeless(PlanOf(env), old(db.durable.ledger)))
      // a membership was revoked
      ensures !err && env.parsed.Some? && env.kind.MembershipRevoked? ==>
                if LedgerKey(Consumer.Cascade, env.parsed.value) in old(db.durable.ledger) then db.durable == mid
                else MemberGone(mid, db.durable, env.payload.tenant, env.payload.user, now)
                     && db.durable.ledger == mid.ledger + {LedgerKey(Consumer.Cascade, env.parsed.value)}
      // a tenant's memberships were purged
      ensures !err && env.parsed.Some? && env.kind.TenantMembershipsPurged? ==>
                if LedgerKey(Offboarding, env.parsed.value) in old(db.durable.ledger) then db.durable == mid
                else TenantGone(mid, db.durable, env.payload.tenant, now)
                     && db.durable.ledger == mid.ledger + {LedgerKey(Offboarding, env.parsed.value)}
      // a user was disabled: the tenant is the envelope's own
      ensures !err && env.parsed.Some? && env.kind.UserUpdated? && env.payload.status == Some("disabled") ==>
                if LedgerKey(DelegateDisable, env.parsed.value) in old(db.durable.ledger) then db.durable == mid
                else env.tenant.Some? && DelegateOut(mid, db.durable, env.tenant.value, env.payload.user)
                     && db.durable.ledger == mid.ledger + {LedgerKey(DelegateDisable, env.parsed.value)}
      // anything else is only marked
      ensures !err && env.parsed.Some? && env.kind.UserUpdated? && env.payload.status != Some("disabled") ==>
                db.durable == mid.(ledger := mid.ledger + {LedgerKey(DelegateDisable, env.parsed.value)})
      ensures !err && env.parsed.Some? && env.kind.Unknown? ==>
                db.durable == mid.(ledger := mid.ledger + {LedgerKey(Consumer.Cascade, env.id)})
      ensures env.parsed.None? ==> !err && db.durable == old(db.durable)
      ensures db.healthy && env.parsed.Some? ==>
                var consumer := if env.kind.TenantMembershipsPurged? then Offboarding
                                else if env.kind.UserUpdated? then DelegateDisable else Consumer.Cascade;
                var unseen := LedgerKey(consumer, env.parsed.value) !in old(db.durable.ledger);
                err <==> (|| (!env.kind.Unknown? && !env.payload.valid)
                          || (env.kind.UserUpdated? && !env.payload.decodes)
                          || (env.kind.UserUpdated? && env.payload.status == Some("disabled") && env.tenant.None? && unseen)
                          || ((env.kind.MembershipRevoked? || env.kind.TenantMembershipsPurged?) && !env.payload.decodes && unseen))
    {
      err, order, skipped, mid := false, [], false, db.durable;
      if env.parsed.None? { return; }
      if SchemaViolated(env) {
        err := true;
        return;
      }
      var consumer := Consumer.Cascade;
      match env.kind {
        case MembershipRevoked =>
        case TenantMembershipsPurged => consumer := Offboarding;
        case UserUpdated =>
          if !env.payload.decodes {
            err := true;
            return;
          }
          consumer := DelegateDisable;
          if !IsDisabling(env) {
            err, mid := SkipOrMark(LedgerKey(consumer, env.parsed.value));
            return;
          }
        case Unknown =>
          err := MarkProcessedInTx(LedgerKey(consumer, env.id));
          return;
      }
      err, order, skipped, mid := Dispatch(LedgerKey(consumer, env.parsed.value), WorkOf(env), now);
    }

    /** The path of a UserUpdated that disables nobody. */
    method SkipOrMark(key: LedgerKey) returns (err: bool, ghost mid: Store)
      requires Ready()
      modifies db
      ensures Ready() && Keyed(mid.rows) && old(db.durable.ledger) <= mid.ledger
      ensures alone ==> mid == old(db.durable)
      ensures db.durable == if err then mid else mid.(ledger := mid.ledger + {key})
      ensures db.healthy ==> !err
    {
      mid := db.durable;
      var processed := db.IsProcessed(key);
      if processed.Err? {
        err := true;
        return;
      }
      if processed.value {
        assert db.durable.ledger + {key} == db.durable.ledger;
        err := false;
        return;
      }
      Meanwhile();
      mid := db.durable;
      err := MarkProcessedInTx(key);
    }

    /** Probe the ledger, then decode and run the cascade. */
    method Dispatch(key: LedgerKey, work: Option<Work>, now: Time)
      returns (err: bool, ghost order: seq<Id>, ghost skipped: bool, ghost mid: Store)
      requires Ready()
      modifies db, cascade`attempted
      ensures Ready() && Keyed(mid.rows) && old(db.durable.ledger) <= mid.ledger
      ensures alone ==> mid == old(db.durable)
      ensures err ==> db.durable == mid
      ensures !err ==>
                && (skipped <==> key in old(db.durable.ledger)) && Fits(mid, Run(key, work), order, skipped)
                && db.durable == Handled(mid, Run(key, work), now, order, skipped)
      ensures !err && !skipped ==> work.Some?
      ensures !err && !skipped ==>
                match work.value {
                  case RevokeMember(tenant, user) => MemberGone(mid, db.durable, tenant, user, now)
                  case DisableMember(tenant, user) => DelegateOut(mid, db.durable, tenant, user)
                  case PurgeTenant(tenant) => TenantGone(mid, db.durable, tenant, now)
                }
      ensures db.healthy ==> (err <==> Hopeless(Run(key, work), old(db.durable.ledger)))
      ensures !err ==> !Hopeless(Run(key, work), old(db.durable.ledger))
    {
      err, order, skipped, mid := false, [], false, db.durable;
      var processed := db.IsProcessed(key);
      if processed.Err? {
        err := true;
        return;
      }
      if processed.value {
        skipped := true;
        return;
      }
      if work.None? {
        err := true;
        return;
      }
      Meanwhile();
      mid := db.durable;
      err, order := RunCascadeAndMark(key, work.value, now);
    }
  }
}
