/** Reconciling one organization with Stripe: its row, its cached state, and the seat quantity. */
module Billing {
  import opened BillingState
  import opened Plans
  import opened Subscription
  import opened Wrappers

  /** The billing columns of the organization. */
  datatype Row = Row(plan: string, customer: Option<string>, subscription: Option<string>)

  datatype Account = Account(row: Row, stored: Option<State>)

  /** What the deployment is configured with. */
  datatype Settings = Settings(hosted: bool, prices: Prices)

  // ---- applying a subscription ----

  /** The base price says which plan, the status whether it applies. */
  function NextPlan(current: Plan, health: Health, shape: Shape, force: Option<Plan>): Plan {
    if force.Some? then force.value
    else match health
         case Dead => Free
         case Healthy => if shape.plan.Some? then shape.plan.value else if current == Free then Team else current
         case MidFlight => current
  }

  function NextRow(row: Row, sub: Sub, prices: Prices, force: Option<Plan>): Row {
    var plan := NextPlan(NormalisePlan(row.plan), HealthOf(sub.status), ShapeOf(sub, prices), force);
    var customer := IdOf(sub.customer);
    Row(PlanName(plan), if customer.Some? then customer else row.customer, if plan == Free then None else Some(sub.id))
  }

  /** A column differs, the plan as it is read. */
  predicate Differs(row: Row, next: Row) {
    NormalisePlan(row.plan) != NormalisePlan(next.plan) || row.customer != next.customer || row.subscription != next.subscription
  }

  function FullPatch(sub: Sub, shape: Shape): Patch {
    Patch(Set(shape.interval), shape.items, Set(PeriodStart(sub)), Set(PeriodEnd(sub)), Set(sub.status), Set(sub.cancelAtPeriodEnd),
          Set(shape.seatQuantity))
  }

  function Applied(a: Account, sub: Sub, prices: Prices, force: Option<Plan>, now: string): Account {
    var next := NextRow(a.row, sub, prices, force);
    Account(if Differs(a.row, next) then next else a.row,
            if NormalisePlan(next.plan) == Free then None else Some(Written(a.stored, FullPatch(sub, ShapeOf(sub, prices)), now)))
  }

  predicate Changes(a: Account, sub: Sub, prices: Prices, force: Option<Plan>) {
    Differs(a.row, NextRow(a.row, sub, prices, force))
  }

  /** The seat quantity that Stripe reports can be stored. */
  predicate Countable(sub: Sub, prices: Prices) {
    var quantity := ShapeOf(sub, prices).seatQuantity;
    quantity.Some? ==> quantity.value >= 0
  }

  lemma {:induction false} RowStays(row: Row, sub: Sub, prices: Prices, force: Option<Plan>)
    ensures var next := NextRow(row, sub, prices, force); var kept := if Differs(row, next) then next else row;
      !Differs(kept, NextRow(kept, sub, prices, force)) && NormalisePlan(kept.plan) == NormalisePlan(next.plan)
      && NormalisePlan(NextRow(kept, sub, prices, force).plan) == NormalisePlan(next.plan)
  {
    var plan := NextPlan(NormalisePlan(row.plan), HealthOf(sub.status), ShapeOf(sub, prices), force);
    NameReadsBack(plan);
    NameReadsBack(NextPlan(plan, HealthOf(sub.status), ShapeOf(sub, prices), force));
  }

  /** Applying the same subscription again changes no column, and nothing in the cached state but at most its time stamp. */
  lemma {:induction false} AppliedTwice(a: Account, sub: Sub, prices: Prices, force: Option<Plan>, now: string, later: string)
    ensures var b := Applied(a, sub, prices, force, now); var c := Applied(b, sub, prices, force, later);
      && !Changes(b, sub, prices, force) && c.row == b.row && UndatedOption(c.stored) == UndatedOption(b.stored)
      && (Countable(sub, prices) ==> c == b)
  {
    RowStays(a.row, sub, prices, force);
    WrittenTwice(a.stored, FullPatch(sub, ShapeOf(sub, prices)), now, later);
  }

  /** A free organization has no subscription and nothing cached. */
  predicate FreeIsClear(a: Account) {
    NormalisePlan(a.row.plan) == Free ==> a.row.subscription == None && a.stored == None
  }

  lemma {:induction false} AppliedIsClear(a: Account, sub: Sub, prices: Prices, force: Option<Plan>, now: string)
    ensures FreeIsClear(Applied(a, sub, prices, force, now))
  {
    RowStays(a.row, sub, prices, force);
    NameReadsBack(NextPlan(NormalisePlan(a.row.plan), HealthOf(sub.status), ShapeOf(sub, prices), force));
  }

  /** The plan is what the base price sells as long as the subscription is paid for, and Free when it is over. */
  lemma {:induction false} PriceIsTheTruth(a: Account, sub: Sub, prices: Prices, now: string)
    ensures var b := Applied(a, sub, prices, None, now); var shape := ShapeOf(sub, prices);
      && (HealthOf(sub.status) == Healthy && shape.plan.Some? ==> NormalisePlan(b.row.plan) == shape.plan.value)
      && (HealthOf(sub.status) == Dead ==> NormalisePlan(b.row.plan) == Free)
      && (HealthOf(sub.status) == MidFlight ==> NormalisePlan(b.row.plan) == NormalisePlan(a.row.plan))
  {
    NameReadsBack(NextPlan(NormalisePlan(a.row.plan), HealthOf(sub.status), ShapeOf(sub, prices), None));
  }

  /** A row that still says `hosted` keeps saying so exactly as long as it stays on Team and no id changes. */
  lemma {:induction false} HostedStays(a: Account, sub: Sub, prices: Prices, force: Option<Plan>, now: string)
    requires a.row.plan == "hosted"
    ensures Applied(a, sub, prices, force, now).row.plan == "hosted" <==>
      NextPlan(Team, HealthOf(sub.status), ShapeOf(sub, prices), force) == Team
      && (IdOf(sub.customer).Some? ==> a.row.customer == IdOf(sub.customer)) && a.row.subscription == Some(sub.id)
  {
    assert NormalisePlan("hosted") == Team;
    var plan := NextPlan(Team, HealthOf(sub.status), ShapeOf(sub, prices), force);
    NameReadsBack(plan);
    NotHosted(plan);
  }

  lemma {:induction false} NotHosted(plan: Plan)
    ensures PlanName(plan) != "hosted"
  {
    assert "hosted"[0] == 'h';
  }

  // ---- the seat quantity ----

  /** The item to post: an existing one by its id, or a new one by its price. */
  datatype Post = Post(subscription: string, item: Option<string>, price: Option<string>, quantity: nat)

  /** What Stripe answers to a post; none if the call fails. */
  type Stripe = Post -> Option<Sub>

  datatype Decision = Idle | Unchanged | NoOverage | NoSeatPrice | Send(post: Post)

  function Decide(a: Account, humans: nat, settings: Settings): Decision {
    var state := ReadBack(a.stored);
    var quantity := SeatOverage(Business, humans);
    var price := SeatPriceId(if state.interval.Some? then state.interval.value else Month, settings.prices);
    if !settings.hosted || NormalisePlan(a.row.plan) != Business || a.row.subscription == None || a.row.subscription == Some("") then Idle
    else if state.seatQuantity == Some(quantity) && (quantity == 0 || state.items.seat.Some?) then Unchanged
    else if state.items.seat.None? && quantity == 0 then NoOverage
    else if state.items.seat.None? && price.None? then NoSeatPrice
    else Send(Post(a.row.subscription.value, state.items.seat, if state.items.seat.Some? then None else price, quantity))
  }

  const ZERO_SEATS: Patch := Patch(Keep, NO_ITEMS, Keep, Keep, Keep, Keep, Set(Some(0)))

  function Or<T>(first: Option<T>, second: Option<T>): Option<T> {
    if first.Some? then first else second
  }

  /** What Stripe's answer to a post changes in the cached state. */
  function AnswerPatch(state: State, answer: Sub, quantity: nat, prices: Prices): Patch {
    var shape := ShapeOf(answer, prices);
    Patch(Keep, shape.items, Set(Or(PeriodStart(answer), state.start)), Set(Or(PeriodEnd(answer), state.end)),
          Set(Or(answer.status, state.status)), Keep, Set(Or(shape.seatQuantity, Some(quantity))))
  }

  /** The account after a seat sync; a failed call leaves it alone. */
  function Synced(a: Account, humans: nat, settings: Settings, stripe: Stripe, now: string): Account {
    match Decide(a, humans, settings)
    case NoOverage => a.(stored := Some(Written(a.stored, ZERO_SEATS, now)))
    case Send(post) =>
      (match stripe(post)
       case None => a
       case Some(answer) => a.(stored := Some(Written(a.stored, AnswerPatch(ReadBack(a.stored), answer, post.quantity, settings.prices), now))))
    case _ => a
  }

  /** An `updated` event, and the seat sync that follows it. */
  function Updated(a: Account, sub: Sub, humans: nat, settings: Settings, stripe: Stripe, now: string): Account {
    var b := Applied(a, sub, settings.prices, None, now);
    if NormalisePlan(b.row.plan) == Business then Synced(b, humans, settings, stripe, now) else b
  }

  /** The seat sync touches the cache only. */
  lemma {:induction false} UpdatedRow(a: Account, sub: Sub, humans: nat, settings: Settings, stripe: Stripe, now: string)
    ensures Updated(a, sub, humans, settings, stripe, now).row == Applied(a, sub, settings.prices, None, now).row
  {
  }

  /** What an `updated` event makes us post. */
  function PostedBy(a: Account, sub: Sub, humans: nat, settings: Settings, now: string): Option<Post> {
    match Decide(Applied(a, sub, settings.prices, None, now), humans, settings)
    case Send(post) => Some(post)
    case _ => None
  }

  /** Stripe's answer says the posted quantity, on an item with an id. */
  predicate Echoes(answer: Sub, quantity: nat, prices: Prices) {
    var shape := ShapeOf(answer, prices);
    shape.seatQuantity == Some(quantity) && shape.items.seat.Some? && shape.items.seat.value != ""
  }

  lemma {:induction false} SeatIdKept(items: seq<Item>, prices: Prices)
    ensures LastSeat(items, prices).Some? ==> LastSeat(items, prices).value.id != ""
    decreases |items|
  {
    if items == [] {
    } else {
      SeatIdKept(items[..|items| - 1], prices);
    }
  }

  /** An event whose subscription carries the right quantity makes no post, whatever was cached before. */
  lemma {:induction false} EchoIsQuiet(a: Account, sub: Sub, humans: nat, settings: Settings, now: string)
    requires Echoes(sub, SeatOverage(Business, humans), settings.prices)
    ensures PostedBy(a, sub, humans, settings, now) == None
  {
    var b := Applied(a, sub, settings.prices, None, now);
    RowStays(a.row, sub, settings.prices, None);
    if NormalisePlan(b.row.plan) == Business {
      ReadsWritten(a.stored, FullPatch(sub, ShapeOf(sub, settings.prices)), now);
    }
  }

  /** The seat id that is known after the event: its own, or the one cached before. */
  function SeatAfter(a: Account, shape: Shape): Option<string> {
    if shape.items.seat.Some? then shape.items.seat else ReadBack(a.stored).items.seat
  }

  /** Exactly which events about a paid Business subscription make no post. */
  lemma {:induction false} QuietExactly(a: Account, sub: Sub, humans: nat, settings: Settings, now: string)
    requires settings.hosted && sub.id != "" && HealthOf(sub.status) == Healthy
    requires ShapeOf(sub, settings.prices).plan == Some(Business) && Countable(sub, settings.prices)
    ensures var shape := ShapeOf(sub, settings.prices);
      var quantity, seat := SeatOverage(Business, humans), SeatAfter(a, shape);
      var interval := if shape.interval.Some? then shape.interval.value else Month;
      PostedBy(a, sub, humans, settings, now) == None <==>
        if seat.Some? then shape.seatQuantity == Some(quantity)
        else quantity == 0 || SeatPriceId(interval, settings.prices) == None
  {
    var shape := ShapeOf(sub, settings.prices);
    RowStays(a.row, sub, settings.prices, None);
    NameReadsBack(Business);
    SeatIdKept(sub.items, settings.prices);
    ReadsWritten(a.stored, FullPatch(sub, shape), now);
  }

  /**
   * So if Stripe reports a subscription without a seat item while an id is still cached, every such event makes another post:
   * ids are never dropped from the cache, and the quantity that is due is not the one reported.
   */
  lemma {:induction false} MissingItemPostsAgain(a: Account, sub: Sub, humans: nat, settings: Settings, now: string)
    requires settings.hosted && sub.id != "" && HealthOf(sub.status) == Healthy
    requires ShapeOf(sub, settings.prices).plan == Some(Business) && LastSeat(sub.items, settings.prices) == None
    requires ReadBack(a.stored).items.seat.Some?
    ensures PostedBy(a, sub, humans, settings, now).Some?
    ensures ReadBack(Applied(a, sub, settings.prices, None, now).stored).items.seat == ReadBack(a.stored).items.seat
  {
    QuietExactly(a, sub, humans, settings, now);
    RowStays(a.row, sub, settings.prices, None);
    NameReadsBack(Business);
    ReadsWritten(a.stored, FullPatch(sub, ShapeOf(sub, settings.prices)), now);
  }

  /**
   * Our own seat update comes back as an event and ends there: one post at most, and behind it the cached quantity is the
   * one that is due, so that the next sync finds nothing to do.
   */
  lemma {:induction false} UpdateSettles(a: Account, sub: Sub, humans: nat, settings: Settings, stripe: Stripe, now: string, later: string)
    requires var post := PostedBy(a, sub, humans, settings, now);
      post.Some? ==> stripe(post.value).Some? && Echoes(stripe(post.value).value, post.value.quantity, settings.prices)
    ensures var post := PostedBy(a, sub, humans, settings, now);
      var b := Updated(a, sub, humans, settings, stripe, now);
      post.Some? ==>
        post.value.quantity == SeatOverage(Business, humans)
        && ReadBack(b.stored).seatQuantity == Some(post.value.quantity)
        && !Decide(b, humans, settings).Send?
        && PostedBy(b, stripe(post.value).value, humans, settings, later) == None
  {
    var post := PostedBy(a, sub, humans, settings, now);
    if post.Some? {
      var applied := Applied(a, sub, settings.prices, None, now);
      var answer := stripe(post.value).value;
      var b := Updated(a, sub, humans, settings, stripe, now);
      ReadsWritten(applied.stored, AnswerPatch(ReadBack(applied.stored), answer, post.value.quantity, settings.prices), now);
      EchoIsQuiet(b, answer, humans, settings, later);
    }
  }

  // ---- the columns and the cache in place ----

  class Ledger {
    var row: Row
    var stored: Option<State>

    ghost function Value(): Account
      reads this
    {
      Account(row, stored)
    }

    constructor (row: Row, stored: Option<State>)
      ensures Value() == Account(row, stored)
    {
      this.row, this.stored := row, stored;
    }

    method WriteBillingState(patch: Patch, now: string)
      modifies this`stored
      ensures stored == Some(Written(old(stored), patch, now))
    {
      var current := ReadBack(stored);
      var next := Merged(current, patch, now);
      if stored.Some? {
        var before, config := ToConfig(current, now), ToConfig(next, now);
        if Undated(before) == Undated(config) {
          return;
        }
      }
      stored := Some(ToConfig(next, now));
    }

    method ClearBillingState()
      modifies this`stored
      ensures stored == None
    {
      if stored.Some? {
        stored := None;
      }
    }

    method ApplySubscriptionState(sub: Sub, prices: Prices, force: Option<Plan>, now: string) returns (plan: Plan, changed: bool)
      modifies this
      ensures Value() == Applied(old(Value()), sub, prices, force, now)
      ensures plan == NormalisePlan(row.plan) && changed == old(Changes(Value(), sub, prices, force))
    {
      var current := NormalisePlan(row.plan);
      var shape := SubscriptionShape(sub, prices);
      plan := NextPlan(current, HealthOf(sub.status), shape, force);
      var customer := IdOf(sub.customer);
      var next := Row(PlanName(plan), if customer.Some? then customer else row.customer, if plan == Free then None else Some(sub.id));
      NameReadsBack(plan);
      changed := current != plan || row.customer != next.customer || row.subscription != next.subscription;
      if changed {
        row := next;
      }
      if plan == Free {
        ClearBillingState();
      } else {
        WriteBillingState(FullPatch(sub, shape), now);
      }
    }

    /** What is posted, and the state after the answer; a call that fails changes nothing. */
    method SyncSeatQuantity(humans: nat, settings: Settings, stripe: Stripe, now: string) returns (posted: Option<Post>)
      modifies this`stored
      ensures Value() == Synced(old(Value()), humans, settings, stripe, now)
      ensures posted == match Decide(old(Value()), humans, settings) { case Send(post) => Some(post) case _ => None }
    {
      posted := None;
      if !settings.hosted || NormalisePlan(row.plan) != Business || row.subscription == None || row.subscription.value == "" {
        return;
      }
      var quantity := SeatOverage(Business, humans);
      var state := ReadBack(stored);
      if state.seatQuantity == Some(quantity) && (quantity == 0 || state.items.seat.Some?) {
        return;
      }
      if state.items.seat.None? && quantity == 0 {
        WriteBillingState(ZERO_SEATS, now);
        return;
      }
      var seatPrice := SeatPriceId(if state.interval.Some? then state.interval.value else Month, settings.prices);
      if state.items.seat.None? && seatPrice.None? {
        return;
      }
      var post := Post(row.subscription.value, state.items.seat, if state.items.seat.Some? then None else seatPrice, quantity);
      posted := Some(post);
      var answer := stripe(post);
      if answer.Some? {
        WriteBillingState(AnswerPatch(state, answer.value, quantity, settings.prices), now);
      }
    }
  }
}
