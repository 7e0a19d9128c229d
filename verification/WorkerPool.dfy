/** Bounded parallelism: workers that share a counter, in every interleaving of their steps. */
module WorkerPool {
  import opened Wrappers

  /** Between two turns of its loop, waiting for the call on an item, done, or stopped by a rejection. */
  datatype Worker = Ready | Waiting(index: nat) | Returned | Threw(index: nat)

  /** The shared counter and results, and the workers; `claimedBy` records who took each item that was taken. */
  datatype State<R> = State(next: nat, results: seq<Option<R>>, workers: seq<Worker>, claimedBy: seq<nat>)

  datatype Event = Claim(worker: nat) | Settle(worker: nat)

  /** The call on each item, and how many items there are. */
  datatype Job<!R, !E> = Job(size: nat, call: nat -> Result<R, E>)

  /** `limit` is already rounded down; what is not a number counts as zero. */
  function Width(limit: int, size: nat): (width: nat)
    ensures width >= 1
  {
    var wanted := if limit == 0 then 1 else limit;
    var capped := if wanted < size then wanted else size;
    if capped < 1 then 1 else capped
  }

  function Start<R, E>(job: Job<R, E>, width: nat): State<R> {
    State(0, seq(job.size, _ => None), seq(width, _ => Ready), [])
  }

  // ---- steps ----

  predicate Enabled<R>(s: State<R>, e: Event) {
    e.worker < |s.workers| && if e.Claim? then s.workers[e.worker].Ready? else s.workers[e.worker].Waiting?
  }

  /** `next++`, and either the call on that item or the end of the worker. */
  function Claimed<R, E>(s: State<R>, w: nat, job: Job<R, E>): State<R>
    requires w < |s.workers|
  {
    if s.next >= job.size then s.(next := s.next + 1, workers := s.workers[w := Returned])
    else s.(next := s.next + 1, workers := s.workers[w := Waiting(s.next)], claimedBy := s.claimedBy + [w])
  }

  /** The call settles: its value is written, or the worker stops. */
  function Settled<R, E>(s: State<R>, w: nat, job: Job<R, E>): State<R>
    requires w < |s.workers| && s.workers[w].Waiting? && s.workers[w].index < |s.results|
  {
    var i := s.workers[w].index;
    match job.call(i)
    case Success(value) => s.(results := s.results[i := Some(value)], workers := s.workers[w := Ready])
    case Failure(_) => s.(workers := s.workers[w := Threw(i)])
  }

  function After<R, E>(s: State<R>, e: Event, job: Job<R, E>): State<R>
    requires Enabled(s, e) && (e.Settle? ==> s.workers[e.worker].index < |s.results|)
  {
    if e.Claim? then Claimed(s, e.worker, job) else Settled(s, e.worker, job)
  }

  // ---- what every step keeps ----

  /** A worker waits for, or was stopped by, an item that it took itself. */
  ghost predicate Holds<R, E>(s: State<R>, w: nat, job: Job<R, E>)
    requires w < |s.workers|
  {
    var k := s.workers[w];
    && (k.Returned? ==> s.next > job.size)
    && (k.Waiting? ==> k.index < |s.claimedBy| && k.index < |s.results| && s.claimedBy[k.index] == w && s.results[k.index] == None)
    && (k.Threw? ==> k.index < |s.claimedBy| && k.index < job.size && s.claimedBy[k.index] == w && job.call(k.index).Failure?)
  }

  /** An item that was taken is at its worker, or settled with the value of its call; the others are untouched. */
  ghost predicate Placed<R, E>(s: State<R>, i: nat, job: Job<R, E>)
    requires i < |s.results|
  {
    if i < |s.claimedBy| then
      s.claimedBy[i] < |s.workers|
      && match s.results[i]
         case None => s.workers[s.claimedBy[i]] == Waiting(i) || s.workers[s.claimedBy[i]] == Threw(i)
         case Some(value) => job.call(i) == Success(value)
    else s.results[i] == None
  }

  ghost predicate Inv<R, E>(s: State<R>, job: Job<R, E>, width: nat) {
    && |s.results| == job.size && |s.workers| == width
    && |s.claimedBy| == (if s.next < job.size then s.next else job.size)
    && (forall w :: 0 <= w < width ==> Holds(s, w, job))
    && (forall i :: 0 <= i < job.size ==> Placed(s, i, job))
  }

  lemma {:induction false} StartInv<R, E>(job: Job<R, E>, width: nat)
    ensures Inv(Start(job, width), job, width)
  {
  }

  lemma {:induction false} ClaimInv<R, E>(s: State<R>, w: nat, job: Job<R, E>, width: nat)
    requires Inv(s, job, width) && w < width && s.workers[w].Ready?
    ensures Inv(Claimed(s, w, job), job, width)
  {
    var t := Claimed(s, w, job);
    assert s.next < job.size ==> Placed(s, s.next, job);
    forall v | 0 <= v < width
      ensures Holds(t, v, job)
    {
      assert Holds(s, v, job);
    }
    forall i | 0 <= i < job.size
      ensures Placed(t, i, job)
    {
      assert Placed(s, i, job);
    }
  }

  lemma {:induction false} SettleInv<R, E>(s: State<R>, w: nat, job: Job<R, E>, width: nat)
    requires Inv(s, job, width) && w < width && s.workers[w].Waiting?
    ensures s.workers[w].index < |s.results| && Inv(Settled(s, w, job), job, width)
  {
    assert Holds(s, w, job);
    var t := Settled(s, w, job);
    forall v | 0 <= v < width
      ensures Holds(t, v, job)
    {
      assert Holds(s, v, job);
    }
    forall i | 0 <= i < job.size
      ensures Placed(t, i, job)
    {
      assert Placed(s, i, job);
    }
  }

  lemma {:induction false} StepInv<R, E>(s: State<R>, e: Event, job: Job<R, E>, width: nat)
    requires Inv(s, job, width) && Enabled(s, e)
    ensures (e.Settle? ==> s.workers[e.worker].index < |s.results|) && Inv(After(s, e, job), job, width)
  {
    if e.Claim? {
      ClaimInv(s, e.worker, job, width);
    } else {
      SettleInv(s, e.worker, job, width);
    }
  }

  // ---- runs ----

  /** The state behind these events, if each was possible in its turn. */
  function Run<R, E>(s: State<R>, events: seq<Event>, job: Job<R, E>): Option<State<R>>
    decreases |events|
  {
    if events == [] then Some(s)
    else if !Enabled(s, events[0]) || (events[0].Settle? && s.workers[events[0].worker].index >= |s.results|) then None
    else Run(After(s, events[0], job), events[1..], job)
  }

  ghost predicate Reaches<R, E>(job: Job<R, E>, width: nat, events: seq<Event>, t: State<R>) {
    Run(Start(job, width), events, job) == Some(t)
  }

  lemma {:induction false} RunInv<R, E>(s: State<R>, events: seq<Event>, job: Job<R, E>, width: nat)
    requires Inv(s, job, width) && Run(s, events, job).Some?
    ensures Inv(Run(s, events, job).value, job, width)
    decreases |events|
  {
    if events == [] {
    } else {
      StepInv(s, events[0], job, width);
      RunInv(After(s, events[0], job), events[1..], job, width);
    }
  }

  function InFlight(workers: seq<Worker>): (n: nat)
    ensures n <= |workers|
  {
    if workers == [] then 0 else
      InFlight(workers[..|workers| - 1]) + (if workers[|workers| - 1].Waiting? then 1 else 0)
  }

  ghost function AtWork(workers: seq<Worker>): set<int> {
    set w: int | 0 <= w < |workers| && workers[w].Waiting?
  }

  /** The workers that wait for a call. */
  lemma {:induction false} InFlightIs(workers: seq<Worker>)
    ensures InFlight(workers) == |AtWork(workers)|
  {
    if workers == [] {
      assert AtWork(workers) == {};
    } else {
      var n := |workers| - 1;
      InFlightIs(workers[..n]);
      assert AtWork(workers) == AtWork(workers[..n]) + if workers[n].Waiting? then {n} else {};
    }
  }

  /**
   * In every reachable state: there are as many workers as the limit or the items allow, whichever is less, and at least one;
   * no more calls than workers are in flight, no two workers are at the same item, every result is the
   * value of the call on its item, and the taken items are the first ones, each with the one worker that took it.
   */
  lemma {:induction false} AlwaysSafe<R, E>(job: Job<R, E>, limit: int, events: seq<Event>, t: State<R>)
    requires Reaches(job, Width(limit, job.size), events, t)
    ensures limit >= 1 && job.size >= 1 ==>
      InFlight(t.workers) <= |t.workers| <= limit && |t.workers| <= job.size && (|t.workers| == limit || |t.workers| == job.size)
    ensures limit <= 1 || job.size <= 1 ==> InFlight(t.workers) <= |t.workers| == 1
    ensures forall v, w :: 0 <= v < w < |t.workers| && t.workers[v].Waiting? && t.workers[w].Waiting? ==>
      t.workers[v].index != t.workers[w].index
    ensures |t.results| == job.size && forall i :: 0 <= i < job.size && t.results[i].Some? ==> job.call(i) == Success(t.results[i].value)
    ensures |t.claimedBy| == if t.next < job.size then t.next else job.size
    ensures forall i :: |t.claimedBy| <= i < job.size ==> t.results[i] == None
  {
    var width := Width(limit, job.size);
    StartInv(job, width);
    RunInv(Start(job, width), events, job, width);
    forall v, w | 0 <= v < w < |t.workers| && t.workers[v].Waiting? && t.workers[w].Waiting?
      ensures t.workers[v].index != t.workers[w].index
    {
      assert Holds(t, v, job) && Holds(t, w, job);
    }
    forall i | 0 <= i < job.size
      ensures t.results[i].Some? ==> job.call(i) == Success(t.results[i].value)
      ensures |t.claimedBy| <= i ==> t.results[i] == None
    {
      assert Placed(t, i, job);
    }
  }

  /** Who took an item stays the one who took it. */
  lemma {:induction false} ClaimsStay<R, E>(s: State<R>, events: seq<Event>, job: Job<R, E>, width: nat)
    requires Inv(s, job, width) && Run(s, events, job).Some?
    ensures s.claimedBy <= Run(s, events, job).value.claimedBy
    decreases |events|
  {
    if events == [] {
    } else {
      StepInv(s, events[0], job, width);
      ClaimsStay(After(s, events[0], job), events[1..], job, width);
    }
  }

  // ---- every run ends ----

  function Weight(w: Worker): nat {
    match w
    case Ready => 1
    case Waiting(_) => 2
    case Returned => 0
    case Threw(_) => 0
  }

  function Weights(workers: seq<Worker>): nat {
    if workers == [] then 0 else Weight(workers[0]) + Weights(workers[1..])
  }

  lemma {:induction false} WeightsUpdate(workers: seq<Worker>, k: nat, w: Worker)
    requires k < |workers|
    ensures Weights(workers[k := w]) + Weight(workers[k]) == Weights(workers) + Weight(w)
    decreases |workers|
  {
    if k > 0 {
      assert workers[k := w][1..] == workers[1..][k - 1 := w];
      WeightsUpdate(workers[1..], k - 1, w);
    } else {
      assert workers[k := w][1..] == workers[1..];
    }
  }

  /** How many steps are left if nothing is rejected. */
  function Left<R, E>(s: State<R>, job: Job<R, E>): int {
    2 * (job.size - |s.claimedBy|) + Weights(s.workers)
  }

  predicate Rejects<R, E>(s: State<R>, e: Event, job: Job<R, E>)
    requires Enabled(s, e)
  {
    e.Settle? && job.call(s.workers[e.worker].index).Failure?
  }

  lemma {:induction false} StepLeft<R, E>(s: State<R>, e: Event, job: Job<R, E>, width: nat)
    requires Inv(s, job, width) && Enabled(s, e)
    ensures (e.Settle? ==> s.workers[e.worker].index < |s.results|)
    ensures Left(After(s, e, job), job) == Left(s, job) - if Rejects(s, e, job) then 2 else 1
  {
    StepInv(s, e, job, width);
    WeightsUpdate(s.workers, e.worker, After(s, e, job).workers[e.worker]);
  }

  predicate AllSucceed<R, E>(job: Job<R, E>) {
    forall i :: 0 <= i < job.size ==> job.call(i).Success?
  }

  lemma {:induction false} RunLeft<R, E>(s: State<R>, events: seq<Event>, job: Job<R, E>, width: nat)
    requires Inv(s, job, width) && Run(s, events, job).Some?
    ensures |events| + Left(Run(s, events, job).value, job) <= Left(s, job)
    ensures AllSucceed(job) ==> |events| + Left(Run(s, events, job).value, job) == Left(s, job)
    decreases |events|
  {
    if events == [] {
    } else {
      StepInv(s, events[0], job, width);
      StepLeft(s, events[0], job, width);
      RunLeft(After(s, events[0], job), events[1..], job, width);
    }
  }

  predicate Over(workers: seq<Worker>) {
    forall w :: w in workers ==> w.Returned? || w.Threw?
  }

  predicate AllReturned(workers: seq<Worker>) {
    forall w :: w in workers ==> w.Returned?
  }

  lemma {:induction false} OverWeight(workers: seq<Worker>)
    ensures Over(workers) <==> Weights(workers) == 0
    decreases |workers|
  {
    if workers == [] {
    } else {
      OverWeight(workers[1..]);
      assert workers[0] in workers && forall w :: w in workers[1..] ==> w in workers;
      assert forall w :: w in workers ==> w == workers[0] || w in workers[1..];
    }
  }

  lemma {:induction false} StartWeight(width: nat)
    ensures Weights(seq(width, _ => Ready)) == width
    decreases width
  {
    if width == 0 {
    } else {
      StartWeight(width - 1);
      assert seq(width, _ => Ready)[1..] == seq(width - 1, _ => Ready);
    }
  }

  /** No run is longer than two steps an item and one a worker. */
  lemma {:induction false} RunsAreShort<R, E>(job: Job<R, E>, width: nat, events: seq<Event>, t: State<R>)
    requires Reaches(job, width, events, t)
    ensures |events| <= 2 * job.size + width
    ensures AllSucceed(job) && Over(t.workers) ==> |events| == 2 * |t.claimedBy| + width
  {
    var s := Start(job, width);
    StartInv(job, width);
    StartWeight(width);
    assert s.workers == seq(width, _ => Ready);
    RunInv(s, events, job, width);
    RunLeft(s, events, job, width);
    OverWeight(t.workers);
  }

  /** There is a step to take until every worker is done. */
  lemma {:induction false} NoDeadlock<R, E>(s: State<R>, job: Job<R, E>, width: nat) returns (e: Event)
    requires Inv(s, job, width) && !Over(s.workers)
    ensures Enabled(s, e)
  {
    var w :| 0 <= w < |s.workers| && !s.workers[w].Returned? && !s.workers[w].Threw?;
    e := if s.workers[w].Ready? then Claim(w) else Settle(w);
  }

  /** Any run can be carried on to its end. */
  lemma {:induction false} CanFinish<R, E>(s: State<R>, job: Job<R, E>, width: nat) returns (events: seq<Event>)
    requires Inv(s, job, width)
    ensures Run(s, events, job).Some? && Over(Run(s, events, job).value.workers)
    decreases Left(s, job)
  {
    events := [];
    if Over(s.workers) {
    } else {
      var e := NoDeadlock(s, job, width);
      StepInv(s, e, job, width);
      StepLeft(s, e, job, width);
      var rest := CanFinish(After(s, e, job), job, width);
      events := [e] + rest;
      assert events[1..] == rest;
    }
  }

  // ---- what comes out ----

  lemma {:induction false} ReturnedMeansAll<R, E>(t: State<R>, job: Job<R, E>, width: nat)
    requires Inv(t, job, width) && width >= 1 && AllReturned(t.workers)
    ensures |t.claimedBy| == job.size
    ensures forall i :: 0 <= i < job.size ==> t.results[i].Some? && job.call(i) == Success(t.results[i].value)
  {
    assert Holds(t, 0, job) && t.workers[0] in t.workers;
    forall i | 0 <= i < job.size
      ensures t.results[i].Some? && job.call(i) == Success(t.results[i].value)
    {
      assert Placed(t, i, job);
      assert t.workers[t.claimedBy[i]] in t.workers;
    }
  }

  /**
   * At the end of any run the whole map has resolved, with the value of every call in input order, exactly when no call is
   * rejected; otherwise some worker was stopped by a call that is.
   */
  lemma {:induction false} Outcome<R, E>(job: Job<R, E>, limit: int, events: seq<Event>, t: State<R>)
    requires Reaches(job, Width(limit, job.size), events, t) && Over(t.workers)
    ensures AllReturned(t.workers) <==> AllSucceed(job)
    ensures AllReturned(t.workers) ==> |t.results| == job.size
    ensures AllReturned(t.workers) ==>
      (forall i :: 0 <= i < |t.results| ==> t.results[i].Some? && job.call(i) == Success(t.results[i].value))
    ensures AllReturned(t.workers) ==> |events| == 2 * job.size + Width(limit, job.size)
    ensures !AllReturned(t.workers) ==> exists w :: w in t.workers && w.Threw? && w.index < job.size && job.call(w.index).Failure?
  {
    var width := Width(limit, job.size);
    StartInv(job, width);
    RunInv(Start(job, width), events, job, width);
    if AllReturned(t.workers) {
      ReturnedMeansAll(t, job, width);
      RunsAreShort(job, width, events, t);
    } else {
      var w :| 0 <= w < |t.workers| && !t.workers[w].Returned?;
      assert Holds(t, w, job) && t.workers[w] in t.workers;
    }
  }

  // ---- the shared state in place ----

  class Pool<!R(0), !E> {
    const job: Job<R, E>
    const width: nat
    var next: nat
    const results: array<Option<R>>
    const workers: array<Worker>
    ghost var claimedBy: seq<nat>

    ghost function Value(): State<R>
      reads this, results, workers
    {
      State(next, results[..], workers[..], claimedBy)
    }

    ghost predicate Valid()
      reads this, results, workers
    {
      Inv(Value(), job, width)
    }

    constructor (job: Job<R, E>, limit: int)
      ensures this.job == job && width == Width(limit, job.size)
      ensures Valid() && Value() == Start(job, width) && fresh(results) && fresh(workers)
    {
      this.job := job;
      width := Width(limit, job.size);
      next := 0;
      results := new Option<R>[job.size](_ => None);
      workers := new Worker[Width(limit, job.size)](_ => Ready);
      claimedBy := [];
      new;
      assert results[..] == seq(job.size, _ => None) && workers[..] == seq(width, _ => Ready);
      StartInv(job, width);
    }

    method Claim(w: nat)
      requires Valid() && Enabled(Value(), Event.Claim(w))
      modifies this`next, this`claimedBy, workers
      ensures Valid() && Value() == After(old(Value()), Event.Claim(w), job)
    {
      ClaimInv(Value(), w, job, width);
      var index := next;
      next := next + 1;
      if index >= job.size {
        workers[w] := Returned;
      } else {
        workers[w] := Waiting(index);
        claimedBy := claimedBy + [w];
      }
    }

    method Settle(w: nat)
      requires Valid() && Enabled(Value(), Event.Settle(w))
      modifies results, workers
      ensures old(workers[w].index < job.size) && Valid() && Value() == Settled(old(Value()), w, job)
    {
      SettleInv(Value(), w, job, width);
      var index := workers[w].index;
      match job.call(index) {
        case Success(value) =>
          results[index] := Some(value);
          workers[w] := Ready;
        case Failure(_) =>
          workers[w] := Threw(index);
      }
    }
  }
}
