/** What a Stripe subscription says: its status, and its items read back into roles. */
module Subscription {
  import opened Plans
  import opened Wrappers

  /** An item; an empty id is none. */
  datatype Item = Item(id: string, quantity: Option<int>, start: Option<int>, end: Option<int>, price: Option<Price>)

  /** A customer is an id, or an object that may carry one. */
  datatype Ref = NoRef | Id(id: string) | Object(inner: Option<string>)

  datatype Sub = Sub(id: string, status: Option<string>, customer: Ref, cancelAtPeriodEnd: bool, start: Option<int>, end: Option<int>,
                     items: seq<Item>)

  function IdOf(r: Ref): Option<string> {
    match r
    case NoRef => None
    case Id(id) => if id == "" then None else Some(id)
    case Object(inner) => inner
  }

  datatype Health = Healthy | Dead | MidFlight

  function HealthOf(status: Option<string>): Health {
    if status == Some("active") || status == Some("trialing") || status == Some("past_due") then Healthy
    else if status == Some("canceled") || status == Some("unpaid") || status == Some("incomplete_expired") then Dead
    else MidFlight
  }

  /** A moment that counts, in seconds; as text it would be written in ISO form. */
  function Moment(epoch: Option<int>): Option<int> {
    if epoch.Some? && epoch.value > 0 then epoch else None
  }

  /** The first item's bound, and the subscription's own if that one has none. */
  function PeriodStart(sub: Sub): Option<int> {
    Moment(if sub.items != [] && sub.items[0].start.Some? then sub.items[0].start else sub.start)
  }

  function PeriodEnd(sub: Sub): Option<int> {
    Moment(if sub.items != [] && sub.items[0].end.Some? then sub.items[0].end else sub.end)
  }

  /** The item ids by what they bill for. */
  datatype Items = Items(base: Option<string>, seat: Option<string>, cert: Option<string>, ai: Option<string>)

  const NO_ITEMS: Items := Items(None, None, None, None)

  datatype Shape = Shape(plan: Option<Plan>, interval: Option<Interval>, items: Items, seatQuantity: Option<int>)

  // ---- the shape, item by item ----

  /** The role of an item that has both an id and a price with a role. */
  function RoleOf(item: Item, prices: Prices): Option<Role> {
    if item.id == "" then None else PriceRole(item.price, prices)
  }

  /** The last item with a role of this kind. */
  function LastBase(items: seq<Item>, prices: Prices): Option<Item> {
    if items == [] then None else
      var last := items[|items| - 1];
      var role := RoleOf(last, prices);
      if role.Some? && role.value.Base? then Some(last) else LastBase(items[..|items| - 1], prices)
  }

  function LastSeat(items: seq<Item>, prices: Prices): Option<Item> {
    if items == [] then None else
      var last := items[|items| - 1];
      var role := RoleOf(last, prices);
      if role.Some? && role.value.Seat? then Some(last) else LastSeat(items[..|items| - 1], prices)
  }

  function LastMeter(meter: Role, items: seq<Item>, prices: Prices): Option<Item> {
    if items == [] then None else
      var last := items[|items| - 1];
      if RoleOf(last, prices) == Some(meter) then Some(last) else LastMeter(meter, items[..|items| - 1], prices)
  }

  /** The interval of the first seat item, which counts only without a base item. */
  function FirstSeatInterval(items: seq<Item>, prices: Prices): Option<Interval> {
    if items == [] then None else
      var front := FirstSeatInterval(items[..|items| - 1], prices);
      var role := RoleOf(items[|items| - 1], prices);
      if front.Some? then front else if role.Some? && role.value.Seat? then Some(role.value.interval) else None
  }

  function IdOption(item: Option<Item>): Option<string> {
    match item
    case None => None
    case Some(i) => Some(i.id)
  }

  lemma {:induction false} LastBaseHasRole(items: seq<Item>, prices: Prices)
    ensures var item := LastBase(items, prices);
      item.Some? ==> item.value in items && RoleOf(item.value, prices).Some? && RoleOf(item.value, prices).value.Base?
    decreases |items|
  {
    if items == [] {
    } else {
      LastBaseHasRole(items[..|items| - 1], prices);
    }
  }

  /** What the items say, without the last resort for the interval. */
  function ItemShape(items: seq<Item>, prices: Prices): Shape {
    var base, seat := LastBase(items, prices), LastSeat(items, prices);
    LastBaseHasRole(items, prices);
    Shape(
      match base { case None => None case Some(i) => Some(RoleOf(i, prices).value.plan) },
      match base { case None => FirstSeatInterval(items, prices) case Some(i) => Some(RoleOf(i, prices).value.interval) },
      Items(IdOption(base), IdOption(seat), IdOption(LastMeter(Cert, items, prices)), IdOption(LastMeter(Ai, items, prices))),
      match seat { case None => None case Some(i) => i.quantity })
  }

  /** With the recurring interval of the first item as a last resort. */
  function ShapeOf(sub: Sub, prices: Prices): Shape {
    var shape := ItemShape(sub.items, prices);
    if shape.interval.None? && sub.items != [] && sub.items[0].price.Some? then shape.(interval := sub.items[0].price.value.recurring)
    else shape
  }

  /** One turn of the loop over the items. */
  function Turn(shape: Shape, item: Item, prices: Prices): Shape {
    match RoleOf(item, prices)
    case None => shape
    case Some(role) =>
      match role
      case Base(plan, interval) => shape.(plan := Some(plan), interval := Some(interval), items := shape.items.(base := Some(item.id)))
      case Seat(interval) =>
        shape.(items := shape.items.(seat := Some(item.id)), seatQuantity := item.quantity,
               interval := if shape.interval.None? then Some(interval) else shape.interval)
      case Cert => shape.(items := shape.items.(cert := Some(item.id)))
      case Ai => shape.(items := shape.items.(ai := Some(item.id)))
  }

  /** Each role ends up with its last item, and the interval with the base item's, wherever that one stands. */
  lemma {:induction false} TurnIs(items: seq<Item>, item: Item, prices: Prices)
    ensures Turn(ItemShape(items, prices), item, prices) == ItemShape(items + [item], prices)
  {
    var more := items + [item];
    assert more[..|more| - 1] == items;
    LastBaseHasRole(items, prices);
  }

  method SubscriptionShape(sub: Sub, prices: Prices) returns (shape: Shape)
    ensures shape == ShapeOf(sub, prices)
  {
    shape := Shape(None, None, NO_ITEMS, None);
    for k := 0 to |sub.items|
      invariant shape == ItemShape(sub.items[..k], prices)
    {
      var item := sub.items[k];
      assert sub.items[..k + 1] == sub.items[..k] + [item];
      TurnIs(sub.items[..k], item, prices);
      var role := RoleOf(item, prices);
      if role.Some? {
        if role.value.Base? {
          shape := shape.(plan := Some(role.value.plan), interval := Some(role.value.interval), items := shape.items.(base := Some(item.id)));
        } else if role.value.Seat? {
          shape := shape.(items := shape.items.(seat := Some(item.id)), seatQuantity := item.quantity);
          if shape.interval.None? {
            shape := shape.(interval := Some(role.value.interval));
          }
        } else if role.value.Cert? {
          shape := shape.(items := shape.items.(cert := Some(item.id)));
        } else {
          shape := shape.(items := shape.items.(ai := Some(item.id)));
        }
      }
    }
    assert sub.items[..|sub.items|] == sub.items;
    if shape.interval.None? && sub.items != [] && sub.items[0].price.Some? {
      shape := shape.(interval := sub.items[0].price.value.recurring);
    }
  }
}
