/** What reconciling comes to, field by field: which plan, which columns, what is cached, and what is posted to Stripe. */
module BillingLaws {
  import opened Billing
  import opened BillingState
  import opened Plans
  import opened Subscription
  import opened Wrappers

  // ---- what an item bills for ----

  /** The lookup keys, as they are registered with Stripe. */
  lemma {:induction false} LookupKeys()
    ensures RoleOfKey("ptd_team_monthly") == Some(Base(Team, Month)) && RoleOfKey("ptd_team_yearly") == Some(Base(Team, Year))
    ensures RoleOfKey("ptd_business_monthly") == Some(Base(Business, Month))
    ensures RoleOfKey("ptd_business_yearly") == Some(Base(Business, Year))
    ensures RoleOfKey("ptd_seat_monthly") == Some(Seat(Month)) && RoleOfKey("ptd_seat_yearly") == Some(Seat(Year))
    ensures RoleOfKey("ptd_certified_invoice_metered") == Some(Cert) && RoleOfKey("ptd_ai_usage_metered") == Some(Ai)
  {
    OfferKeysTell(0);
    OfferKeysTell(1);
    OfferKeysTell(2);
    OfferKeysTell(3);
    OtherKeysTell(Seat(Month));
    OtherKeysTell(Seat(Year));
    OtherKeysTell(Cert);
    OtherKeysTell(Ai);
  }

  /** How the stored names are read. */
  lemma {:induction false} StoredNames(name: string)
    ensures NormalisePlan(name) == Team <==> name == "team" || name == "hosted"
    ensures NormalisePlan(name) == Business <==> name == "business"
    ensures NormalisePlan(name) == SelfHosted <==> name == "self_hosted"
  {
    assert "team"[0] == 't' && "free"[0] == 'f' && "business"[0] == 'b' && "self_hosted"[0] == 's' && "hosted"[0] == 'h';
  }

  /** An offer that is sold under this id: it is configured with it, or it is Team by the month and the id is the old variable's. */
  predicate SoldAs(offer: (Plan, Interval), id: string, prices: Prices) {
    || (offer in prices.plans && prices.plans[offer] == id)
    || (offer == (Team, Month) && offer !in prices.plans && prices.legacyTeamMonth == Some(id))
  }

  lemma {:induction false} SoldAsIs(offer: (Plan, Interval), id: string, prices: Prices)
    ensures SoldAs(offer, id, prices) <==> PlanPriceId(offer, prices) == Some(id)
  {
  }

  lemma {:induction false} NoOffer(id: string, offers: seq<(Plan, Interval)>, prices: Prices)
    requires forall k :: 0 <= k < |offers| ==> !SoldAs(offers[k], id, prices)
    ensures OfferWithId(id, offers, prices) == None
    decreases |offers|
  {
    if offers == [] {
    } else {
      SoldAsIs(offers[0], id, prices);
      NoOffer(id, offers[1..], prices);
    }
  }

  predicate SellsNoPlan(id: string, prices: Prices) {
    forall plan, interval :: plan == Team || plan == Business ==> !SoldAs((plan, interval), id, prices)
  }

  predicate IsSeatId(id: string, prices: Prices) {
    exists interval :: interval in prices.seats && prices.seats[interval] == id
  }

  /** Unless a plan is sold under it, an id is read as a seat of the month, of the year, or a meter, in this order. */
  lemma {:induction false} SeatIdTells(id: string, recurring: Option<Interval>, prices: Prices)
    requires id != "" && SellsNoPlan(id, prices)
    ensures var role := PriceRole(Some(Price(id, "", recurring)), prices);
      && (role == Some(Seat(Month)) <==> Month in prices.seats && prices.seats[Month] == id)
      && (role == Some(Seat(Year)) <==> Year in prices.seats && prices.seats[Year] == id && role != Some(Seat(Month)))
      && (role == Some(Cert) <==> prices.cert == Some(id) && !IsSeatId(id, prices))
      && (role == Some(Ai) <==> prices.ai == Some(id) && prices.cert != Some(id) && !IsSeatId(id, prices))
  {
    NoOfferKey("", OFFERS);
    assert RoleOfKey("") == None;
    forall k | 0 <= k < |OFFERS|
      ensures !SoldAs(OFFERS[k], id, prices)
    {
      assert OFFERS[k] == (OFFERS[k].0, OFFERS[k].1) && (OFFERS[k].0 == Team || OFFERS[k].0 == Business);
    }
    NoOffer(id, OFFERS, prices);
    SeatIdIs(id, prices);
  }

  lemma {:induction false} SeatIdIs(id: string, prices: Prices)
    ensures IsSeatId(id, prices) <==> SeatPriceId(Month, prices) == Some(id) || SeatPriceId(Year, prices) == Some(id)
  {
    if IsSeatId(id, prices) {
      var interval :| interval in prices.seats && prices.seats[interval] == id;
      assert interval == Month || interval == Year;
    }
    assert Month in prices.seats && prices.seats[Month] == id ==> IsSeatId(id, prices);
    assert Year in prices.seats && prices.seats[Year] == id ==> IsSeatId(id, prices);
  }

  predicate Bills(item: Item, role: Role, prices: Prices) {
    item.id != "" && PriceRole(item.price, prices) == Some(role)
  }

  predicate BillsSeats(item: Item, prices: Prices) {
    Bills(item, Seat(Month), prices) || Bills(item, Seat(Year), prices)
  }

  predicate BillsPlan(item: Item, prices: Prices) {
    item.id != "" && PriceRole(item.price, prices).Some? && PriceRole(item.price, prices).value.Base?
  }

  /** The item that counts for seats is the last one that bills for them. */
  lemma {:induction false} LastSeatIs(items: seq<Item>, k: nat, prices: Prices)
    requires k < |items| && BillsSeats(items[k], prices) && forall j :: k < j < |items| ==> !BillsSeats(items[j], prices)
    ensures LastSeat(items, prices) == Some(items[k])
    decreases |items|
  {
    if k < |items| - 1 {
      assert !BillsSeats(items[|items| - 1], prices);
      LastSeatIs(items[..|items| - 1], k, prices);
    }
  }

  lemma {:induction false} NoSeatItem(items: seq<Item>, prices: Prices)
    requires forall j :: 0 <= j < |items| ==> !BillsSeats(items[j], prices)
    ensures LastSeat(items, prices) == None
    decreases |items|
  {
    if items == [] {
    } else {
      assert !BillsSeats(items[|items| - 1], prices);
      NoSeatItem(items[..|items| - 1], prices);
    }
  }

  lemma {:induction false} LastBaseIs(items: seq<Item>, k: nat, prices: Prices)
    requires k < |items| && BillsPlan(items[k], prices) && forall j :: k < j < |items| ==> !BillsPlan(items[j], prices)
    ensures LastBase(items, prices) == Some(items[k])
    decreases |items|
  {
    if k < |items| - 1 {
      assert !BillsPlan(items[|items| - 1], prices);
      LastBaseIs(items[..|items| - 1], k, prices);
    }
  }

  lemma {:induction false} LastMeterIs(meter: Role, items: seq<Item>, k: nat, prices: Prices)
    requires k < |items| && Bills(items[k], meter, prices) && forall j :: k < j < |items| ==> !Bills(items[j], meter, prices)
    ensures LastMeter(meter, items, prices) == Some(items[k])
    decreases |items|
  {
    if k < |items| - 1 {
      assert !Bills(items[|items| - 1], meter, prices);
      LastMeterIs(meter, items[..|items| - 1], k, prices);
    }
  }

  /** What the shape says of the last item of each kind. */
  lemma {:induction false} ShapeIs(sub: Sub, k: nat, prices: Prices)
    requires k < |sub.items|
    ensures var shape, item := ShapeOf(sub, prices), sub.items[k];
      && (BillsPlan(item, prices) && (forall j :: k < j < |sub.items| ==> !BillsPlan(sub.items[j], prices)) ==>
           && shape.items.base == Some(item.id)
           && Some(Base(shape.plan.value, shape.interval.value)) == PriceRole(item.price, prices))
      && (BillsSeats(item, prices) && (forall j :: k < j < |sub.items| ==> !BillsSeats(sub.items[j], prices)) ==>
           shape.items.seat == Some(item.id) && shape.seatQuantity == item.quantity)
      && (Bills(item, Cert, prices) && (forall j :: k < j < |sub.items| ==> !Bills(sub.items[j], Cert, prices)) ==>
           shape.items.cert == Some(item.id))
      && (Bills(item, Ai, prices) && (forall j :: k < j < |sub.items| ==> !Bills(sub.items[j], Ai, prices)) ==>
           shape.items.ai == Some(item.id))
  {
    var item := sub.items[k];
    if BillsPlan(item, prices) && forall j :: k < j < |sub.items| ==> !BillsPlan(sub.items[j], prices) {
      LastBaseIs(sub.items, k, prices);
    }
    if BillsSeats(item, prices) && forall j :: k < j < |sub.items| ==> !BillsSeats(sub.items[j], prices) {
      LastSeatIs(sub.items, k, prices);
    }
    if Bills(item, Cert, prices) && forall j :: k < j < |sub.items| ==> !Bills(sub.items[j], Cert, prices) {
      LastMeterIs(Cert, sub.items, k, prices);
    }
    if Bills(item, Ai, prices) && forall j :: k < j < |sub.items| ==> !Bills(sub.items[j], Ai, prices) {
      LastMeterIs(Ai, sub.items, k, prices);
    }
  }

  // ---- what is written about the organization ----

  const PAID: set<Option<string>> := {Some("active"), Some("trialing"), Some("past_due")}
  const OVER: set<Option<string>> := {Some("canceled"), Some("unpaid"), Some("incomplete_expired")}

  /** The plan that follows from the status and the base price, where nothing is forced. */
  lemma {:induction false} PlanByStatus(a: Account, sub: Sub, prices: Prices, now: string)
    ensures var before, after := NormalisePlan(a.row.plan), NormalisePlan(Applied(a, sub, prices, None, now).row.plan);
      && (sub.status in PAID && ShapeOf(sub, prices).plan.Some? ==> after == ShapeOf(sub, prices).plan.value)
      && (sub.status in PAID && ShapeOf(sub, prices).plan.None? ==> after == if before == Free then Team else before)
      && (sub.status in OVER ==> after == Free)
      && (sub.status !in PAID && sub.status !in OVER ==> after == before)
  {
    RowStays(a.row, sub, prices, None);
    NameReadsBack(NextPlan(NormalisePlan(a.row.plan), HealthOf(sub.status), ShapeOf(sub, prices), None));
  }

  /** The columns afterwards: a customer is never forgotten, and a subscription is kept exactly with a plan that is not free. */
  lemma {:induction false} ColumnsAfter(a: Account, sub: Sub, prices: Prices, force: Option<Plan>, now: string)
    ensures var b := Applied(a, sub, prices, force, now); var plan := NormalisePlan(b.row.plan);
      && b.row.subscription == (if plan == Free then None else Some(sub.id))
      && b.row.customer == (match sub.customer
                            case NoRef => a.row.customer
                            case Id(id) => if id == "" then a.row.customer else Some(id)
                            case Object(inner) => if inner.Some? then inner else a.row.customer)
      && (force.Some? ==> plan == force.value) && (b.stored == None <==> plan == Free)
  {
    RowStays(a.row, sub, prices, force);
    NameReadsBack(NextPlan(NormalisePlan(a.row.plan), HealthOf(sub.status), ShapeOf(sub, prices), force));
  }

  /** The period bound that counts: the first item's if it has one, the subscription's own if not, and only after the epoch. */
  predicate IsBound(found: Option<int>, ofItem: Option<int>, ofSub: Option<int>) {
    match found
    case Some(t) => t > 0 && (ofItem == Some(t) || (ofItem == None && ofSub == Some(t)))
    case None => if ofItem.Some? then ofItem.value <= 0 else ofSub.None? || ofSub.value <= 0
  }

  function FirstStart(sub: Sub): Option<int> {
    if sub.items == [] then None else sub.items[0].start
  }

  function FirstEnd(sub: Sub): Option<int> {
    if sub.items == [] then None else sub.items[0].end
  }

  predicate KeepsId(after: Option<string>, news: Option<string>, before: Option<string>) {
    after == if news.Some? && news.value != "" then news else if news.None? && before != Some("") then before else None
  }

  predicate KeepsIds(after: Items, news: Items, before: Items) {
    && KeepsId(after.base, news.base, before.base) && KeepsId(after.seat, news.seat, before.seat)
    && KeepsId(after.cert, news.cert, before.cert) && KeepsId(after.ai, news.ai, before.ai)
  }

  /** What is cached afterwards: everything as the subscription has it, but ids of items that it does not show stay known. */
  lemma {:induction false} CacheAfter(a: Account, sub: Sub, prices: Prices, force: Option<Plan>, now: string)
    requires Countable(sub, prices) && NormalisePlan(Applied(a, sub, prices, force, now).row.plan) != Free
    ensures var read, shape := ReadBack(Applied(a, sub, prices, force, now).stored), ShapeOf(sub, prices);
      && read.interval == shape.interval && read.seatQuantity == shape.seatQuantity
      && KeepsIds(read.items, shape.items, ReadBack(a.stored).items)
      && IsBound(read.start, FirstStart(sub), sub.start) && IsBound(read.end, FirstEnd(sub), sub.end)
      && read.status == (if sub.status == Some("") then None else sub.status) && read.cancelAtPeriodEnd == sub.cancelAtPeriodEnd
  {
    ColumnsAfter(a, sub, prices, force, now);
    ReadsWritten(a.stored, FullPatch(sub, ShapeOf(sub, prices)), now);
  }

  // ---- what is posted ----

  /** The interval whose seat price applies: that of the subscription, and the month if it shows none. */
  function SeatInterval(sub: Sub, prices: Prices): Interval {
    if ShapeOf(sub, prices).interval == Some(Year) then Year else Month
  }

  /**
   * What an event makes us post: the quantity of people beyond the fifty included, for the seat item and no other, by its id
   * if one is known and as a new item with the seat price of the interval if not; and only for a hosted Business organization.
   */
  lemma {:induction false} PostIs(a: Account, sub: Sub, humans: nat, settings: Settings, now: string, post: Post)
    requires PostedBy(a, sub, humans, settings, now) == Some(post) && Countable(sub, settings.prices)
    ensures settings.hosted && NormalisePlan(Applied(a, sub, settings.prices, None, now).row.plan) == Business
    ensures post.subscription == sub.id != ""
    ensures post.quantity == if humans > 50 then humans - 50 else 0
    ensures var seat := SeatAfter(a, ShapeOf(sub, settings.prices)); var interval := SeatInterval(sub, settings.prices);
      && post.item == seat && (seat.Some? ==> post.price == None)
      && (seat.None? ==> interval in settings.prices.seats && post.price == Some(settings.prices.seats[interval]))
  {
    var b := Applied(a, sub, settings.prices, None, now);
    Sent(b, humans, settings, post);
    ColumnsAfter(a, sub, settings.prices, None, now);
    CacheAfter(a, sub, settings.prices, None, now);
    SeatIdKept(sub.items, settings.prices);
    SeatRead(a);
  }

  lemma {:induction false} Sent(b: Account, humans: nat, settings: Settings, post: Post)
    requires Decide(b, humans, settings) == Send(post)
    ensures settings.hosted && NormalisePlan(b.row.plan) == Business && b.row.subscription == Some(post.subscription)
    ensures post.subscription != "" && post.quantity == if humans > 50 then humans - 50 else 0
    ensures var state := ReadBack(b.stored);
      && post.item == state.items.seat && (post.item.Some? ==> post.price == None)
      && (post.item.None? ==> post.price.Some?)
      && (post.item.None? ==> post.price == SeatPriceId(if state.interval == Some(Year) then Year else Month, settings.prices))
  {
    match ReadBack(b.stored).interval
    case None =>
    case Some(Month) =>
    case Some(Year) =>
  }

  lemma {:induction false} SeatRead(a: Account)
    ensures ReadBack(a.stored).items.seat != Some("")
  {
  }

  /** After Stripe's answer: its ids, quantity, status and period where it gives them, and the rest as it was. */
  lemma {:induction false} CacheAfterAnswer(a: Account, humans: nat, settings: Settings, stripe: Stripe, now: string, post: Post, answer: Sub)
    requires Decide(a, humans, settings) == Send(post) && stripe(post) == Some(answer) && Countable(answer, settings.prices)
    ensures var before, read := ReadBack(a.stored), ReadBack(Synced(a, humans, settings, stripe, now).stored);
      var shape := ShapeOf(answer, settings.prices);
      && read.seatQuantity == (if shape.seatQuantity.Some? then shape.seatQuantity else Some(post.quantity))
      && KeepsIds(read.items, shape.items, before.items)
      && read.interval == before.interval && read.cancelAtPeriodEnd == before.cancelAtPeriodEnd
      && read.status == (if answer.status == Some("") then None else if answer.status.Some? then answer.status else before.status)
      && (IsBound(read.start, FirstStart(answer), answer.start) || (IsBound(None, FirstStart(answer), answer.start) && read.start == before.start))
      && (IsBound(read.end, FirstEnd(answer), answer.end) || (IsBound(None, FirstEnd(answer), answer.end) && read.end == before.end))
  {
    ReadsWritten(a.stored, AnswerPatch(ReadBack(a.stored), answer, post.quantity, settings.prices), now);
  }

  /** Without a seat item and without anyone to bill, zero is remembered and nothing else changes. */
  lemma {:induction false} ZeroIsRemembered(a: Account, humans: nat, settings: Settings, stripe: Stripe, now: string)
    requires settings.hosted && NormalisePlan(a.row.plan) == Business && a.row.subscription.Some? && a.row.subscription.value != ""
    requires ReadBack(a.stored).items.seat == None && humans <= 50
    ensures var before, read := ReadBack(a.stored), ReadBack(Synced(a, humans, settings, stripe, now).stored);
      read.(updatedAt := None) == before.(seatQuantity := Some(0), updatedAt := None)
    ensures !Decide(a, humans, settings).Send?
  {
    if ReadBack(a.stored).seatQuantity != Some(0) {
      ReadsWritten(a.stored, ZERO_SEATS, now);
    }
  }

  // ---- what Stripe makes of a post ----

  function Given(item: Item, id: string, quantity: int): Item {
    if item.id == id then item.(quantity := Some(quantity)) else item
  }

  function GivenAll(items: seq<Item>, id: string, quantity: int): (r: seq<Item>)
    ensures |r| == |items| && forall k :: 0 <= k < |items| ==> r[k] == Given(items[k], id, quantity)
  {
    if items == [] then [] else
      GivenAll(items[..|items| - 1], id, quantity) + [Given(items[|items| - 1], id, quantity)]
  }

  /** The item with the posted id gets the quantity; without an id there is a new item, with an id of Stripe's choice. */
  function StripeItems(items: seq<Item>, post: Post, newId: string): seq<Item> {
    match post.item
    case Some(id) => GivenAll(items, id, post.quantity)
    case None =>
      (match post.price
       case Some(price) => items + [Item(newId, Some(post.quantity), None, None, Some(Price(price, "", None)))]
       case None => items)
  }

  function Quantified(item: Option<Item>, id: string, quantity: int): Option<Item> {
    match item
    case None => None
    case Some(i) => Some(Given(i, id, quantity))
  }

  lemma {:induction false} GivenRoles(items: seq<Item>, id: string, quantity: int, prices: Prices)
    ensures LastSeat(GivenAll(items, id, quantity), prices) == Quantified(LastSeat(items, prices), id, quantity)
    ensures LastBase(GivenAll(items, id, quantity), prices) == Quantified(LastBase(items, prices), id, quantity)
    ensures forall meter :: LastMeter(meter, GivenAll(items, id, quantity), prices) == Quantified(LastMeter(meter, items, prices), id, quantity)
    decreases |items|
  {
    if items == [] {
    } else {
      var n, r := |items| - 1, GivenAll(items, id, quantity);
      GivenRoles(items[..n], id, quantity, prices);
      assert r[..n] == GivenAll(items[..n], id, quantity) && r[n] == Given(items[n], id, quantity);
      assert RoleOf(r[n], prices) == RoleOf(items[n], prices);
    }
  }

  lemma {:induction false} LastSeatBills(items: seq<Item>, prices: Prices)
    ensures LastSeat(items, prices).Some? ==>
      LastSeat(items, prices).value in items && RoleOf(LastSeat(items, prices).value, prices).Some?
      && RoleOf(LastSeat(items, prices).value, prices).value.Seat?
    decreases |items|
  {
    if items == [] {
    } else {
      LastSeatBills(items[..|items| - 1], prices);
    }
  }

  predicate DistinctItems(items: seq<Item>) {
    forall j, k :: 0 <= j < k < |items| ==> items[j].id != items[k].id
  }

  lemma {:induction false} SameItem(items: seq<Item>, a: Item, b: Item)
    requires DistinctItems(items) && a in items && b in items && a.id == b.id
    ensures a == b
  {
    var j :| 0 <= j < |items| && items[j] == a;
    var k :| 0 <= k < |items| && items[k] == b;
    assert j == k;
  }

  /** With a known seat item: that item gets the quantity, and the one that sells the plan is what it was. */
  lemma {:induction false} KnownSeat(items: seq<Item>, id: string, quantity: int, prices: Prices)
    requires DistinctItems(items) && LastSeat(items, prices).Some? && LastSeat(items, prices).value.id == id
    ensures var after := GivenAll(items, id, quantity);
      && LastBase(after, prices) == LastBase(items, prices)
      && LastSeat(after, prices) == Some(LastSeat(items, prices).value.(quantity := Some(quantity)))
  {
    GivenRoles(items, id, quantity, prices);
    LastSeatBills(items, prices);
    LastBaseHasRole(items, prices);
    var base, seat := LastBase(items, prices), LastSeat(items, prices).value;
    if base.Some? && base.value.id == id {
      SameItem(items, base.value, seat);
    }
  }

  lemma {:induction false} NewSeat(items: seq<Item>, newId: string, price: string, quantity: int, interval: Interval, prices: Prices)
    requires newId != "" && price != "" && interval in prices.seats && prices.seats[interval] == price && SellsNoPlan(price, prices)
    ensures var item := Item(newId, Some(quantity), None, None, Some(Price(price, "", None)));
      LastSeat(items + [item], prices) == Some(item) && LastBase(items + [item], prices) == LastBase(items, prices)
  {
    var item := Item(newId, Some(quantity), None, None, Some(Price(price, "", None)));
    SeatIdTells(price, None, prices);
    assert (items + [item])[..|items|] == items;
    if interval == Month {
      assert RoleOf(item, prices) == Some(Seat(Month));
    } else {
      assert RoleOf(item, prices) == Some(Seat(Month)) || RoleOf(item, prices) == Some(Seat(Year));
    }
  }

  /** The seat item that we know is on the subscription, or we know of none and can tell a seat price from a plan price. */
  predicate Consistent(a: Account, sub: Sub, settings: Settings) {
    && DistinctItems(sub.items)
    && SeatAfter(a, ShapeOf(sub, settings.prices)) == ShapeOf(sub, settings.prices).items.seat
    && forall interval :: interval in settings.prices.seats ==>
         settings.prices.seats[interval] != "" && SellsNoPlan(settings.prices.seats[interval], settings.prices)
  }

  /**
   * A post leaves the item that sells the plan alone, and afterwards the seats are billed for exactly the people beyond fifty,
   * so that Stripe's answer carries the quantity that is due.
   */
  lemma {:induction false} PostBillsSeats(a: Account, sub: Sub, humans: nat, settings: Settings, now: string, post: Post, newId: string)
    requires PostedBy(a, sub, humans, settings, now) == Some(post) && Countable(sub, settings.prices)
    requires Consistent(a, sub, settings) && newId != ""
    ensures var after := StripeItems(sub.items, post, newId);
      && LastBase(after, settings.prices) == LastBase(sub.items, settings.prices)
      && LastSeat(after, settings.prices).Some?
      && LastSeat(after, settings.prices).value.quantity == Some(if humans > 50 then humans - 50 else 0)
      && LastSeat(after, settings.prices).value.id != ""
  {
    PostIs(a, sub, humans, settings, now, post);
    SeatIdKept(sub.items, settings.prices);
    match post.item {
      case Some(id) =>
        KnownSeat(sub.items, id, post.quantity, settings.prices);
      case None =>
        NewSeat(sub.items, newId, post.price.value, post.quantity, SeatInterval(sub, settings.prices), settings.prices);
    }
  }

  /** With Stripe so, an event makes at most one post, and the event that the post brings about makes none. */
  lemma {:induction false} PostSettles(a: Account, sub: Sub, humans: nat, settings: Settings, stripe: Stripe, now: string, later: string,
                                       post: Post, newId: string)
    requires PostedBy(a, sub, humans, settings, now) == Some(post) && Countable(sub, settings.prices)
    requires Consistent(a, sub, settings) && newId != ""
    requires stripe(post) == Some(sub.(items := StripeItems(sub.items, post, newId)))
    ensures var b := Updated(a, sub, humans, settings, stripe, now);
      && ReadBack(b.stored).seatQuantity == Some(if humans > 50 then humans - 50 else 0)
      && PostedBy(b, stripe(post).value, humans, settings, later) == None
  {
    PostIs(a, sub, humans, settings, now, post);
    PostBillsSeats(a, sub, humans, settings, now, post, newId);
    UpdateSettles(a, sub, humans, settings, stripe, now, later);
  }
}
