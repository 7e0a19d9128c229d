/** Which Stripe events were handled already, and what handling one does. */
module Webhook {
  import opened Billing
  import opened BillingLaws
  import opened BillingState
  import opened Plans
  import opened Subscription
  import opened Wrappers

  // ---- the bounded memory of event ids ----

  const PROCESSED_LIMIT: nat := 1000

  /** The ids that count as processed, and the order in which they came. */
  datatype Log = Log(processed: set<string>, order: seq<string>)

  const NO_EVENTS: Log := Log({}, [])

  /** The oldest ids go as long as there are too many; the empty id, when it goes, stays in the set. */
  function Trimmed(log: Log): Log
    decreases |log.order|
  {
    if |log.order| <= PROCESSED_LIMIT then log
    else Trimmed(Log(if log.order[0] != "" then log.processed - {log.order[0]} else log.processed, log.order[1..]))
  }

  function Marked(log: Log, id: string): Log {
    if id in log.processed then log else Trimmed(Log(log.processed + {id}, log.order + [id]))
  }

  predicate Distinct(order: seq<string>) {
    forall i, j :: 0 <= i < j < |order| ==> order[i] != order[j]
  }

  /** The set and the list agree, the empty id aside, and the list is short. */
  predicate Sound(log: Log) {
    && |log.order| <= PROCESSED_LIMIT && Distinct(log.order)
    && (forall id :: id in log.order ==> id in log.processed)
    && (forall id :: id in log.processed ==> id in log.order || id == "")
  }

  lemma {:induction false} TrimmedOnce(log: Log)
    requires |log.order| == PROCESSED_LIMIT + 1
    ensures Trimmed(log) == Log(if log.order[0] != "" then log.processed - {log.order[0]} else log.processed, log.order[1..])
  {
    var rest := Log(if log.order[0] != "" then log.processed - {log.order[0]} else log.processed, log.order[1..]);
    assert Trimmed(rest) == rest;
  }

  lemma {:induction false} DistinctSnoc(order: seq<string>, id: string)
    requires Distinct(order) && id !in order
    ensures Distinct(order + [id]) && (order != [] ==> Distinct((order + [id])[1..]))
  {
  }

  /** A new id comes in at the end, and the oldest goes if the list was full. */
  lemma {:induction false} MarkedIs(log: Log, id: string)
    requires Sound(log) && id !in log.processed
    ensures var next := Marked(log, id);
      next.order == (if |log.order| < PROCESSED_LIMIT then log.order else log.order[1..]) + [id] && Sound(next)
  {
    var next := Log(log.processed + {id}, log.order + [id]);
    assert id !in log.order;
    DistinctSnoc(log.order, id);
    if |log.order| == PROCESSED_LIMIT {
      TrimmedOnce(next);
      assert next.order[1..] == log.order[1..] + [id];
      assert next.order == [next.order[0]] + next.order[1..];
    }
  }

  lemma {:induction false} StaysSound(log: Log, id: string)
    requires Sound(log)
    ensures Sound(Marked(log, id)) && id in Marked(log, id).processed
  {
    if id !in log.processed {
      MarkedIs(log, id);
      var order := Marked(log, id).order;
      assert order[|order| - 1] == id;
    }
  }

  function MarkedAll(log: Log, ids: seq<string>): Log
    decreases |ids|
  {
    if ids == [] then log else MarkedAll(Marked(log, ids[0]), ids[1..])
  }

  /** An id that stands `k`-th in the list is still processed behind so many more events. */
  lemma {:induction false} StillThere(log: Log, k: nat, ids: seq<string>)
    requires Sound(log) && k < |log.order| && |ids| < k + 1 + PROCESSED_LIMIT - |log.order|
    ensures log.order[k] in MarkedAll(log, ids).processed && Sound(MarkedAll(log, ids))
    decreases |ids|
  {
    if ids == [] {
    } else {
      StaysSound(log, ids[0]);
      if ids[0] in log.processed {
        StillThere(log, k, ids[1..]);
      } else {
        MarkedIs(log, ids[0]);
        StillThere(Marked(log, ids[0]), if |log.order| < PROCESSED_LIMIT then k else k - 1, ids[1..]);
      }
    }
  }

  /** A newly marked event is remembered over any 999 others. */
  lemma {:induction false} Remembered(log: Log, id: string, others: seq<string>)
    requires Sound(log) && id !in log.processed && |others| < 1000
    ensures id in MarkedAll(Marked(log, id), others).processed && Sound(MarkedAll(Marked(log, id), others))
  {
    MarkedIs(log, id);
    var next := Marked(log, id);
    assert next.order[|next.order| - 1] == id;
    StillThere(next, |next.order| - 1, others);
  }

  predicate AllNew(log: Log, ids: seq<string>)
    decreases |ids|
  {
    ids == [] || (ids[0] !in log.processed && AllNew(Marked(log, ids[0]), ids[1..]))
  }

  /** How many new ids it takes until the one in place `k` goes is at most this many. */
  predicate GoesWithin(log: Log, id: string, n: nat) {
    forall k :: 0 <= k < |log.order| && log.order[k] == id ==> k + PROCESSED_LIMIT - |log.order| < n
  }

  lemma {:induction false} Pushed(log: Log, id: string, ids: seq<string>)
    requires Sound(log) && id != "" && AllNew(log, ids) && id !in ids && GoesWithin(log, id, |ids|)
    ensures id !in MarkedAll(log, ids).processed
    decreases |ids|
  {
    if ids == [] {
    } else {
      MarkedIs(log, ids[0]);
      var next := Marked(log, ids[0]);
      var shift := if |log.order| < PROCESSED_LIMIT then 0 else 1;
      forall k | 0 <= k < |next.order| && next.order[k] == id
        ensures k + PROCESSED_LIMIT - |next.order| < |ids| - 1
      {
        assert next.order[|next.order| - 1] == ids[0] && ids[0] in ids;
        assert log.order[k + shift] == id;
      }
      Pushed(next, id, ids[1..]);
    }
  }

  lemma {:induction false} EmptyNotTrimmed(log: Log)
    requires "" in log.processed
    ensures "" in Trimmed(log).processed
    decreases |log.order|
  {
    if |log.order| <= PROCESSED_LIMIT {
    } else {
      EmptyNotTrimmed(Log(if log.order[0] != "" then log.processed - {log.order[0]} else log.processed, log.order[1..]));
    }
  }

  /** The empty id, once processed, counts as processed for ever. */
  lemma {:induction false} EmptyStays(log: Log, ids: seq<string>)
    requires "" in log.processed
    ensures "" in MarkedAll(log, ids).processed
    decreases |ids|
  {
    if ids == [] {
    } else {
      if ids[0] !in log.processed {
        EmptyNotTrimmed(Log(log.processed + {ids[0]}, log.order + [ids[0]]));
      }
      EmptyStays(Marked(log, ids[0]), ids[1..]);
    }
  }

  /** A thousand new ones push an id out, so that a redelivery after that is handled again, unless it is the empty one. */
  lemma {:induction false} Forgotten(log: Log, id: string, others: seq<string>)
    requires Sound(log) && id !in log.processed && AllNew(Marked(log, id), others) && id !in others
    requires |others| >= 1000
    ensures id !in MarkedAll(Marked(log, id), others).processed <==> id != ""
  {
    MarkedIs(log, id);
    StaysSound(log, id);
    if id == "" {
      EmptyStays(Marked(log, id), others);
    } else {
      Pushed(Marked(log, id), id, others);
    }
  }

  class ProcessedEvents {
    var processed: set<string>
    var order: seq<string>

    ghost function Value(): Log
      reads this
    {
      Log(processed, order)
    }

    constructor ()
      ensures Value() == NO_EVENTS && Sound(Value())
    {
      processed, order := {}, [];
    }

    method MarkProcessed(id: string)
      requires Sound(Value())
      modifies this
      ensures Value() == Marked(old(Value()), id) && Sound(Value()) && id in processed
    {
      StaysSound(Value(), id);
      if id in processed {
        return;
      }
      processed, order := processed + {id}, order + [id];
      while |order| > PROCESSED_LIMIT
        invariant Trimmed(Value()) == Marked(old(Value()), id)
        decreases |order|
      {
        var evicted := order[0];
        order := order[1..];
        if evicted != "" {
          processed := processed - {evicted};
        }
      }
    }

    method WasProcessed(id: string) returns (r: bool)
      ensures r <==> id in processed
    {
      r := id in processed;
    }
  }

  // ---- handling ----

  datatype Kind = Created | Updated | Deleted

  datatype Event = SubscriptionEvent(id: string, kind: Kind, sub: Sub) | PaymentFailed(id: string) | Other(id: string)

  datatype Outcome = Duplicate | NoSubscriptionId | NoOrganization | Handled(plan: Plan, posted: Option<Post>) | Logged | Ignored

  /** What an event about a subscription does to the organization that it was resolved to. */
  function AccountAfter(a: Account, kind: Kind, sub: Sub, humans: nat, settings: Settings, stripe: Stripe, now: string): Account {
    match kind
    case Created => Applied(a, sub, settings.prices, None, now)
    case Deleted => Applied(a, sub, settings.prices, Some(Free), now)
    case Updated => Billing.Updated(a, sub, humans, settings, stripe, now)
  }

  function Forced(kind: Kind): Option<Plan> {
    if kind == Deleted then Some(Free) else None
  }

  /** The memory, the organization if the event was resolved to one, and what the handler answers. */
  datatype Result = Result(log: Log, account: Option<Account>, outcome: Outcome)

  function Delivered(log: Log, account: Option<Account>, event: Event, humans: nat, settings: Settings, stripe: Stripe, now: string): Result {
    if event.id in log.processed then Result(log, account, Duplicate)
    else
      match event
      case PaymentFailed(id) => Result(Marked(log, id), account, Logged)
      case Other(_) => Result(log, account, Ignored)
      case SubscriptionEvent(id, kind, sub) =>
        if sub.id == "" then Result(log, account, NoSubscriptionId)
        else if account == None then Result(log, account, NoOrganization)
        else
          var plan := NormalisePlan(Applied(account.value, sub, settings.prices, Forced(kind), now).row.plan);
          Result(Marked(log, id), Some(AccountAfter(account.value, kind, sub, humans, settings, stripe, now)),
                 Handled(plan, if kind == Updated then PostedBy(account.value, sub, humans, settings, now) else None))
  }

  /** An organization that may not be there. */
  ghost function AccountOf(org: Ledger?): Option<Account>
    reads org
  {
    if org == null then None else Some(org.Value())
  }

  lemma {:induction false} OnlyBusinessPosts(a: Account, sub: Sub, humans: nat, settings: Settings, now: string)
    requires NormalisePlan(Applied(a, sub, settings.prices, None, now).row.plan) != Business
    ensures PostedBy(a, sub, humans, settings, now) == None
  {
  }

  method HandleEvent(log: ProcessedEvents, event: Event, org: Ledger?, humans: nat, settings: Settings, stripe: Stripe, now: string)
    returns (outcome: Outcome)
    requires Sound(log.Value())
    modifies log, org
    ensures Sound(log.Value())
    ensures Result(log.Value(), AccountOf(org), outcome) ==
      Delivered(old(log.Value()), old(AccountOf(org)), event, humans, settings, stripe, now)
  {
    var done := log.WasProcessed(event.id);
    if done {
      return Duplicate;
    }
    match event
    case SubscriptionEvent(id, kind, sub) =>
      if sub.id == "" {
        return NoSubscriptionId;
      }
      if org == null {
        return NoOrganization;
      }
      var plan, _ := org.ApplySubscriptionState(sub, settings.prices, Forced(kind), now);
      var posted := None;
      if kind == Updated {
        if plan == Business {
          posted := org.SyncSeatQuantity(humans, settings, stripe, now);
        } else {
          OnlyBusinessPosts(old(org.Value()), sub, humans, settings, now);
        }
      }
      log.MarkProcessed(id);
      outcome := Handled(plan, posted);
    case PaymentFailed(id) =>
      log.MarkProcessed(id);
      outcome := Logged;
    case Other(_) =>
      outcome := Ignored;
  }

  /** The event carries what it takes to handle it. */
  predicate CanHandle(event: Event, account: Option<Account>) {
    match event
    case SubscriptionEvent(_, _, sub) => sub.id != "" && account.Some?
    case PaymentFailed(_) => true
    case Other(_) => false
  }

  /** A new event is remembered exactly if it could be handled; otherwise nothing changes, and a redelivery finds nothing done. */
  lemma {:induction false} RememberedIfHandled(log: Log, account: Option<Account>, event: Event, humans: nat, settings: Settings,
                                               stripe: Stripe, now: string)
    requires Sound(log) && event.id !in log.processed
    ensures var r := Delivered(log, account, event, humans, settings, stripe, now);
      && r.outcome != Duplicate && (event.id in r.log.processed <==> CanHandle(event, account))
      && (!CanHandle(event, account) ==> r.log == log && r.account == account)
  {
    StaysSound(log, event.id);
  }

  /** A `deleted` event leaves the organization free, without a subscription and with nothing cached, whatever its status says. */
  lemma {:induction false} DeletedClears(log: Log, a: Account, id: string, sub: Sub, humans: nat, settings: Settings, stripe: Stripe, now: string)
    requires id !in log.processed && sub.id != ""
    ensures var r := Delivered(log, Some(a), SubscriptionEvent(id, Deleted, sub), humans, settings, stripe, now);
      && r.outcome == Handled(Free, None) && r.account.Some?
      && NormalisePlan(r.account.value.row.plan) == Free && r.account.value.row.subscription == None && r.account.value.stored == None
  {
    ColumnsAfter(a, sub, settings.prices, Some(Free), now);
  }

  /** A `created` event applies the subscription and posts nothing; an `updated` one posts what the head count of the moment asks for. */
  lemma {:induction false} AppliedByKind(log: Log, a: Account, id: string, kind: Kind, sub: Sub, humans: nat, settings: Settings,
                                         stripe: Stripe, now: string)
    requires id !in log.processed && sub.id != "" && kind != Deleted
    ensures var r := Delivered(log, Some(a), SubscriptionEvent(id, kind, sub), humans, settings, stripe, now);
      var b := Applied(a, sub, settings.prices, None, now);
      && r.account.Some? && r.account.value.row == b.row && r.outcome.Handled? && r.outcome.plan == NormalisePlan(b.row.plan)
      && (kind == Created ==> r.account.value == b && r.outcome.posted == None)
      && (kind == Updated ==> r.outcome.posted == PostedBy(a, sub, humans, settings, now))
      && (kind == Updated && r.outcome.posted.Some? && stripe(r.outcome.posted.value) == None ==> r.account.value == b)
  {
    UpdatedRow(a, sub, humans, settings, stripe, now);
  }

  /** A redelivery, with fewer than a thousand other events in between, changes nothing and posts nothing. */
  lemma {:induction false} RedeliveredIsIgnored(log: Log, account: Option<Account>, event: Event, others: seq<string>, between: Option<Account>,
                                                humans: nat, settings: Settings, stripe: Stripe, now: string, later: string)
    requires Sound(log) && |others| < 1000
    requires var o := Delivered(log, account, event, humans, settings, stripe, now).outcome; o.Handled? || o.Logged?
    ensures var first := Delivered(log, account, event, humans, settings, stripe, now); var meanwhile := MarkedAll(first.log, others);
      Delivered(meanwhile, between, event, humans, settings, stripe, later) == Result(meanwhile, between, Duplicate)
  {
    Remembered(log, event.id, others);
  }

  /** Even a forgotten event, delivered again, leaves the columns and the cache as they are, time stamp and seat sync aside. */
  lemma {:induction false} ForgottenIsHarmless(log: Log, again: Log, a: Account, event: Event, humans: nat, settings: Settings,
                                              stripe: Stripe, now: string, later: string)
    requires event.SubscriptionEvent? && event.kind != Updated
    requires Delivered(log, Some(a), event, humans, settings, stripe, now).outcome.Handled?
    ensures var b := Delivered(log, Some(a), event, humans, settings, stripe, now).account.value;
      var c := Delivered(again, Some(b), event, humans, settings, stripe, later).account.value;
      c.row == b.row && UndatedOption(c.stored) == UndatedOption(b.stored)
  {
    AppliedTwice(a, event.sub, settings.prices, Forced(event.kind), now, later);
  }

  /**
   * A forgotten `updated` event about a paid Business subscription changes no column either, and makes a post exactly if the
   * quantity it carries is not the one that is due by now.
   */
  lemma {:induction false} ForgottenUpdate(a: Account, sub: Sub, humans: nat, settings: Settings, stripe: Stripe, now: string,
                                           nowHumans: nat, nowStripe: Stripe, later: string)
    requires settings.hosted && sub.id != "" && HealthOf(sub.status) == Healthy
    requires ShapeOf(sub, settings.prices).plan == Some(Business) && Countable(sub, settings.prices)
    ensures var b := AccountAfter(a, Updated, sub, humans, settings, stripe, now);
      var shape := ShapeOf(sub, settings.prices);
      var quantity, seat := SeatOverage(Business, nowHumans), SeatAfter(b, shape);
      var interval := if shape.interval.Some? then shape.interval.value else Month;
      && AccountAfter(b, Updated, sub, nowHumans, settings, nowStripe, later).row == b.row
      && (PostedBy(b, sub, nowHumans, settings, later) == None <==>
          if seat.Some? then shape.seatQuantity == Some(quantity)
          else quantity == 0 || SeatPriceId(interval, settings.prices) == None)
  {
    var b := AccountAfter(a, Updated, sub, humans, settings, stripe, now);
    UpdatedRow(a, sub, humans, settings, stripe, now);
    RowStays(a.row, sub, settings.prices, None);
    UpdatedRow(b, sub, nowHumans, settings, nowStripe, later);
    QuietExactly(b, sub, nowHumans, settings, later);
  }

  // ---- runs ----

  /** An event as it arrives, with the head count and the answers of that moment. */
  datatype Arrival = Arrival(event: Event, humans: nat, stripe: Stripe, now: string)

  function Run(log: Log, account: Option<Account>, settings: Settings, arrivals: seq<Arrival>): (Log, Option<Account>)
    decreases |arrivals|
  {
    if arrivals == [] then (log, account) else
      var a := arrivals[0];
      var r := Delivered(log, account, a.event, a.humans, settings, a.stripe, a.now);
      Run(r.log, r.account, settings, arrivals[1..])
  }

  predicate Clear(account: Option<Account>) {
    account.Some? ==> FreeIsClear(account.value)
  }

  lemma {:induction false} DeliveredKeeps(log: Log, account: Option<Account>, event: Event, humans: nat, settings: Settings, stripe: Stripe, now: string)
    requires Sound(log) && Clear(account)
    ensures var r := Delivered(log, account, event, humans, settings, stripe, now); Sound(r.log) && Clear(r.account)
  {
    StaysSound(log, event.id);
    if event.SubscriptionEvent? && account.Some? {
      AppliedIsClear(account.value, event.sub, settings.prices, Forced(event.kind), now);
    }
  }

  /** Over every run: the memory stays sound and short, and a free organization has no subscription and nothing cached. */
  lemma {:induction false} EveryRunKeeps(log: Log, account: Option<Account>, settings: Settings, arrivals: seq<Arrival>)
    requires Sound(log) && Clear(account)
    ensures var end := Run(log, account, settings, arrivals); Sound(end.0) && |end.0.order| <= 1000 && Clear(end.1)
    decreases |arrivals|
  {
    if arrivals == [] {
    } else {
      var a := arrivals[0];
      var r := Delivered(log, account, a.event, a.humans, settings, a.stripe, a.now);
      DeliveredKeeps(log, account, a.event, a.humans, settings, a.stripe, a.now);
      EveryRunKeeps(r.log, r.account, settings, arrivals[1..]);
    }
  }
}
