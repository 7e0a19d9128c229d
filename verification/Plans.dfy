/** The plans, and what a Stripe price sells. */
module Plans {
  import opened Wrappers

  datatype Plan = SelfHosted | Free | Team | Business

  datatype Interval = Month | Year

  function PlanName(plan: Plan): string {
    match plan
    case SelfHosted => "self_hosted"
    case Free => "free"
    case Team => "team"
    case Business => "business"
  }

  /** The plan of a stored name; `hosted` is what the first price list wrote for Team, and an unknown name is Free. */
  function NormalisePlan(stored: string): Plan {
    if stored == "self_hosted" then SelfHosted
    else if stored == "free" then Free
    else if stored == "team" then Team
    else if stored == "business" then Business
    else if stored == "hosted" then Team
    else Free
  }

  lemma {:induction false} NameReadsBack(plan: Plan)
    ensures NormalisePlan(PlanName(plan)) == plan
  {
    assert "team"[0] == 't' && "free"[0] == 'f' && "business"[0] == 'b' && "self_hosted"[0] == 's';
  }

  const INCLUDED_HUMAN_SEATS: nat := 50

  /** What the quantity of the seat item must be. */
  function SeatOverage(plan: Plan, humans: nat): nat {
    if plan != Business || humans <= INCLUDED_HUMAN_SEATS then 0 else humans - INCLUDED_HUMAN_SEATS
  }

  // ---- prices ----

  /** The configured price ids, trimmed; an empty one is not configured. */
  datatype Prices = Prices(plans: map<(Plan, Interval), string>, legacyTeamMonth: Option<string>, seats: map<Interval, string>,
                           cert: Option<string>, ai: Option<string>)

  /** A price as Stripe sends it; the lookup key is there if Stripe expanded it. */
  datatype Price = Price(id: string, lookupKey: string, recurring: Option<Interval>)

  datatype Role = Base(plan: Plan, interval: Interval) | Seat(interval: Interval) | Cert | Ai

  /** The paid plans in the order in which they are tried. */
  const OFFERS: seq<(Plan, Interval)> := [(Team, Month), (Team, Year), (Business, Month), (Business, Year)]

  function PlanPriceId(offer: (Plan, Interval), prices: Prices): Option<string> {
    if offer in prices.plans then Some(prices.plans[offer])
    else if offer == (Team, Month) then prices.legacyTeamMonth
    else None
  }

  function SeatPriceId(interval: Interval, prices: Prices): Option<string> {
    if interval in prices.seats then Some(prices.seats[interval]) else None
  }

  function OfferKey(offer: (Plan, Interval)): string {
    if offer == (Team, Month) then "ptd_team_monthly"
    else if offer == (Team, Year) then "ptd_team_yearly"
    else if offer == (Business, Month) then "ptd_business_monthly"
    else "ptd_business_yearly"
  }

  function SeatKey(interval: Interval): string {
    if interval == Month then "ptd_seat_monthly" else "ptd_seat_yearly"
  }

  const CERT_KEY: string := "ptd_certified_invoice_metered"
  const AI_KEY: string := "ptd_ai_usage_metered"

  /** The first of these offers with this price id. */
  function OfferWithId(id: string, offers: seq<(Plan, Interval)>, prices: Prices): Option<(Plan, Interval)> {
    if offers == [] then None
    else if PlanPriceId(offers[0], prices) == Some(id) then Some(offers[0])
    else OfferWithId(id, offers[1..], prices)
  }

  function OfferWithKey(key: string, offers: seq<(Plan, Interval)>): Option<(Plan, Interval)> {
    if offers == [] then None
    else if OfferKey(offers[0]) == key then Some(offers[0])
    else OfferWithKey(key, offers[1..])
  }

  function RoleOfKey(key: string): Option<Role> {
    match OfferWithKey(key, OFFERS)
    case Some(offer) => Some(Base(offer.0, offer.1))
    case None =>
      if key == SeatKey(Month) then Some(Seat(Month))
      else if key == SeatKey(Year) then Some(Seat(Year))
      else if key == CERT_KEY then Some(Cert)
      else if key == AI_KEY then Some(Ai)
      else None
  }

  function RoleOfId(id: string, prices: Prices): Option<Role> {
    match OfferWithId(id, OFFERS, prices)
    case Some(offer) => Some(Base(offer.0, offer.1))
    case None =>
      if SeatPriceId(Month, prices) == Some(id) then Some(Seat(Month))
      else if SeatPriceId(Year, prices) == Some(id) then Some(Seat(Year))
      else if prices.cert == Some(id) then Some(Cert)
      else if prices.ai == Some(id) then Some(Ai)
      else None
  }

  /** What the price sells: its lookup key decides, and its id if the key says nothing. */
  function PriceRole(price: Option<Price>, prices: Prices): Option<Role> {
    match price
    case None => None
    case Some(p) =>
      match RoleOfKey(p.lookupKey)
      case Some(role) => Some(role)
      case None => if p.id == "" then None else RoleOfId(p.id, prices)
  }

  function KeyOf(role: Role): string {
    match role
    case Base(plan, interval) => OfferKey((plan, interval))
    case Seat(interval) => SeatKey(interval)
    case Cert => CERT_KEY
    case Ai => AI_KEY
  }

  predicate Sold(role: Role) {
    role.Base? ==> role.plan == Team || role.plan == Business
  }

  lemma {:induction false} OfferKeyFound(k: nat, key: string, offers: seq<(Plan, Interval)>)
    requires k < |offers| && OfferKey(offers[k]) == key
    requires forall i :: 0 <= i < k ==> OfferKey(offers[i]) != key
    ensures OfferWithKey(key, offers) == Some(offers[k])
    decreases k
  {
    if k == 0 {
    } else {
      assert OfferKey(offers[0]) != key;
      OfferKeyFound(k - 1, key, offers[1..]);
    }
  }

  lemma {:induction false} NoOfferKey(key: string, offers: seq<(Plan, Interval)>)
    requires forall o :: o in offers ==> OfferKey(o) != key
    ensures OfferWithKey(key, offers) == None
    decreases |offers|
  {
    if offers == [] {
    } else {
      assert offers[0] in offers;
      NoOfferKey(key, offers[1..]);
    }
  }

  lemma {:induction false} OfferKeysTell(k: nat)
    requires k < |OFFERS|
    ensures RoleOfKey(OfferKey(OFFERS[k])) == Some(Base(OFFERS[k].0, OFFERS[k].1))
  {
    assert "ptd_team_monthly"[4] == 't' && "ptd_team_yearly"[4] == 't' && "ptd_business_monthly"[4] == 'b' && "ptd_business_yearly"[4] == 'b';
    assert |"ptd_team_monthly"| == 16 && |"ptd_team_yearly"| == 15 && |"ptd_business_monthly"| == 20 && |"ptd_business_yearly"| == 19;
    OfferKeyFound(k, OfferKey(OFFERS[k]), OFFERS);
  }

  lemma {:induction false} OtherKeysTell(role: Role)
    requires !role.Base?
    ensures RoleOfKey(KeyOf(role)) == Some(role)
  {
    assert "ptd_team_monthly"[4] == 't' && "ptd_team_yearly"[4] == 't' && "ptd_business_monthly"[4] == 'b' && "ptd_business_yearly"[4] == 'b';
    assert "ptd_seat_monthly"[4] == 's' && "ptd_seat_yearly"[4] == 's' && CERT_KEY[4] == 'c' && AI_KEY[4] == 'a';
    assert |"ptd_seat_monthly"| == 16 && |"ptd_seat_yearly"| == 15;
    NoOfferKey(KeyOf(role), OFFERS);
  }

  /** Every lookup key names one role, whatever is configured here: the price is the truth on any account. */
  lemma {:induction false} KeysTell(role: Role, id: string, recurring: Option<Interval>, prices: Prices)
    requires Sold(role)
    ensures PriceRole(Some(Price(id, KeyOf(role), recurring)), prices) == Some(role)
  {
    match role
    case Base(plan, interval) =>
      var k := (if plan == Team then 0 else 2) + (if interval == Month then 0 else 1);
      assert OFFERS[k] == (plan, interval);
      OfferKeysTell(k);
    case Seat(_) => OtherKeysTell(role);
    case Cert => OtherKeysTell(role);
    case Ai => OtherKeysTell(role);
  }

  lemma {:induction false} OfferIdFound(k: nat, id: string, offers: seq<(Plan, Interval)>, prices: Prices)
    requires k < |offers| && PlanPriceId(offers[k], prices) == Some(id)
    requires forall i, j :: 0 <= i < j < |offers| ==> offers[i] != offers[j]
    ensures OfferWithId(id, offers, prices) == Some(offers[k]) <==>
      forall i :: 0 <= i < k ==> PlanPriceId(offers[i], prices) != Some(id)
    decreases k
  {
    if k == 0 {
    } else {
      OfferIdFound(k - 1, id, offers[1..], prices);
      assert offers[0] != offers[k];
      assert forall i :: 0 <= i < k - 1 ==> offers[1..][i] == offers[i + 1];
      if PlanPriceId(offers[0], prices) != Some(id) {
        forall i | 0 <= i < k
          ensures (forall h :: 0 <= h < k - 1 ==> PlanPriceId(offers[1..][h], prices) != Some(id)) ==> PlanPriceId(offers[i], prices) != Some(id)
        {
          if i > 0 {
            assert offers[i] == offers[1..][i - 1];
          }
        }
      }
    }
  }

  /** A configured plan price is read back as that plan exactly when no offer tried earlier has the same id. */
  lemma {:induction false} PriceIdTells(k: nat, id: string, recurring: Option<Interval>, prices: Prices)
    requires k < |OFFERS| && id != "" && PlanPriceId(OFFERS[k], prices) == Some(id)
    ensures PriceRole(Some(Price(id, "", recurring)), prices) == Some(Base(OFFERS[k].0, OFFERS[k].1)) <==>
      forall i :: 0 <= i < k ==> PlanPriceId(OFFERS[i], prices) != Some(id)
  {
    NoOfferKey("", OFFERS);
    assert RoleOfKey("") == None;
    OfferIdFound(k, id, OFFERS, prices);
  }
}
