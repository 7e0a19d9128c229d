/** The cached shape of a subscription: merging a patch into it, and not writing what is already there. */
module BillingState {
  import opened Plans
  import opened Subscription
  import opened Wrappers

  /** The cached state; the stored form has the same fields, with whatever is unknown or empty left out. */
  datatype State = State(interval: Option<Interval>, items: Items, start: Option<int>, end: Option<int>, status: Option<string>,
                         cancelAtPeriodEnd: bool, seatQuantity: Option<int>, updatedAt: Option<string>)

  const EMPTY: State := State(None, NO_ITEMS, None, None, None, false, None, None)

  function NonEmpty(s: Option<string>): Option<string> {
    if s == Some("") then None else s
  }

  function NonEmptyItems(i: Items): Items {
    Items(NonEmpty(i.base), NonEmpty(i.seat), NonEmpty(i.cert), NonEmpty(i.ai))
  }

  /** Reading is tolerant: a negative quantity is none. */
  function AsState(stored: State): State {
    stored.(items := NonEmptyItems(stored.items), status := NonEmpty(stored.status), updatedAt := NonEmpty(stored.updatedAt),
            seatQuantity := if stored.seatQuantity.Some? && stored.seatQuantity.value >= 0 then stored.seatQuantity else None)
  }

  function ToConfig(s: State, now: string): State {
    s.(items := NonEmptyItems(s.items), status := NonEmpty(s.status), updatedAt := if s.updatedAt.Some? then s.updatedAt else Some(now))
  }

  /** A field of a patch is there or not; where it is, it may say that the value is unknown. */
  datatype Change<T> = Keep | Set(value: T)

  datatype Patch = Patch(interval: Change<Option<Interval>>, items: Items, start: Change<Option<int>>, end: Change<Option<int>>,
                         status: Change<Option<string>>, cancelAtPeriodEnd: Change<bool>, seatQuantity: Change<Option<int>>)

  function Changed<T>(change: Change<T>, current: T): T {
    if change.Keep? then current else change.value
  }

  function MergedId(patch: Option<string>, current: Option<string>): Option<string> {
    if patch.Some? then patch else current
  }

  /** Item ids merge one by one, so that no id is lost to a patch that does not know it. */
  function MergedItems(patch: Items, current: Items): Items {
    Items(MergedId(patch.base, current.base), MergedId(patch.seat, current.seat), MergedId(patch.cert, current.cert), MergedId(patch.ai, current.ai))
  }

  function Merged(current: State, patch: Patch, now: string): State {
    State(Changed(patch.interval, current.interval), MergedItems(patch.items, current.items), Changed(patch.start, current.start),
          Changed(patch.end, current.end), Changed(patch.status, current.status),
          Changed(patch.cancelAtPeriodEnd, current.cancelAtPeriodEnd), Changed(patch.seatQuantity, current.seatQuantity), Some(now))
  }

  /** All but the time stamp. */
  function Undated(s: State): State {
    s.(updatedAt := None)
  }

  function ReadBack(stored: Option<State>): State {
    match stored
    case None => EMPTY
    case Some(s) => AsState(s)
  }

  /** What is stored after a write; a patch that says nothing new writes nothing. */
  function Written(stored: Option<State>, patch: Patch, now: string): State {
    var current := ReadBack(stored);
    var next := Merged(current, patch, now);
    if stored.Some? && Undated(ToConfig(current, now)) == Undated(ToConfig(next, now)) then stored.value else ToConfig(next, now)
  }

  function UndatedOption(s: Option<State>): Option<State> {
    match s
    case None => None
    case Some(v) => Some(Undated(v))
  }

  /** A patch that can be stored as it is. */
  predicate Storable(patch: Patch) {
    patch.seatQuantity.Set? && patch.seatQuantity.value.Some? ==> patch.seatQuantity.value.value >= 0
  }

  lemma {:induction false} SameItems(patch: Items, current: Items)
    ensures var once := NonEmptyItems(MergedItems(patch, NonEmptyItems(current)));
      NonEmptyItems(MergedItems(patch, NonEmptyItems(once))) == once
  {
  }

  /** Writing the same patch again changes nothing but the time, and writes nothing at all if the quantity can be stored. */
  lemma {:induction false} WrittenTwice(stored: Option<State>, patch: Patch, now: string, later: string)
    ensures var once := Written(stored, patch, now); var twice := Written(Some(once), patch, later);
      Undated(twice) == Undated(once) && (Storable(patch) ==> twice == once)
  {
    var current := ReadBack(stored);
    SameItems(patch.items, current.items);
    SameItems(patch.items, if stored.Some? then stored.value.items else NO_ITEMS);
  }

  /** What a reader finds after a write: each field of the patch where it says something, and what was there where not. */
  lemma {:induction false} ReadsWritten(stored: Option<State>, patch: Patch, now: string)
    requires Storable(patch)
    ensures var read, before := AsState(Written(stored, patch, now)), ReadBack(stored);
      && read.interval == Changed(patch.interval, before.interval)
      && read.items == NonEmptyItems(MergedItems(patch.items, before.items))
      && read.start == Changed(patch.start, before.start) && read.end == Changed(patch.end, before.end)
      && read.status == NonEmpty(Changed(patch.status, before.status))
      && read.cancelAtPeriodEnd == Changed(patch.cancelAtPeriodEnd, before.cancelAtPeriodEnd)
      && read.seatQuantity == Changed(patch.seatQuantity, before.seatQuantity)
  {
  }

  /** What is stored afterwards is what was there, or stamped with the time of the write. */
  lemma {:induction false} Stamped(stored: Option<State>, patch: Patch, now: string)
    ensures Some(Written(stored, patch, now)) == stored || Written(stored, patch, now).updatedAt == Some(now)
  {
  }
}
