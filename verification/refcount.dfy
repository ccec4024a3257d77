/** Reference counts shared by threads: the compare-and-swap version as a machine
    whose threads interleave between the load and the swap, and the locked
    version, against one specification. */
module Refcount {
  import opened Options

  const MAX := 0xffff_ffff

  /** One increment or decrement as a whole. A saturated count stays. */
  function Increment(count: nat): nat { if count < MAX then count + 1 else count }

  function Decrement(count: nat): nat { if 0 < count < MAX then count - 1 else count }

  /** What a decrement returns: whether it gave up the last reference. */
  predicate ReachesZero(count: nat) { Decrement(count) == 0 }

  /** Where a thread is: outside, or in one of the two loops with the value it
      expects to find. */
  datatype Place = Idle | Incrementing(expected: nat) | Decrementing(expected: nat) | Aborted

  /** A thread holds some references; only a holder may call. */
  datatype Thread = Thread(place: Place, held: nat)

  /** The shared count, the threads, and how many decrements have returned one. */
  datatype State = State(count: nat, threads: seq<Thread>, zeros: nat)

  /** A thread enters a loop, takes a turn of the one it is in, or hands one of its
      references to another thread. */
  datatype Action = BeginIncrement | BeginDecrement | Swap(spurious: bool) | Give(to: nat)

  function Held(threads: seq<Thread>): nat {
    if threads == [] then 0 else Held(threads[..|threads| - 1]) + threads[|threads| - 1].held
  }

  /** A thread's next action: the initial load, or a turn of its loop. A weak swap
      may fail although the count is the expected one. */
  function ThreadStep(count: nat, t: Thread, a: Action): (r: (nat, Thread, bool)) {
    match t.place
    case Idle =>
      if t.held == 0 || a.Swap? || a.Give? then (count, t, false)
      else if a.BeginIncrement? then (count, t.(place := Incrementing(count)), false)
      else (count, t.(place := Decrementing(count)), false)
    case Incrementing(expected) =>
      if !a.Swap? then (count, t, false)
      else if expected == MAX then (count, Thread(Idle, t.held + 1), false)
      else if expected == count && !a.spurious then (count + 1, Thread(Idle, t.held + 1), false)
      else (count, t.(place := Incrementing(count)), false)
    case Decrementing(expected) =>
      if !a.Swap? then (count, t, false)
      else if expected == 0 then (count, t.(place := Aborted), false)
      else if expected == MAX then (count, Thread(Idle, if t.held > 0 then t.held - 1 else 0), false)
      else if expected == count && !a.spurious
      then (count - 1, Thread(Idle, if t.held > 0 then t.held - 1 else 0), count - 1 == 0)
      else (count, t.(place := Decrementing(count)), false)
    case Aborted => (count, t, false)
  }

  /** A reference changes hands: only its holder may give it, and only outside the
      loops. */
  function Hand(threads: seq<Thread>, i: nat, to: nat): (r: seq<Thread>)
    requires i < |threads|
    ensures |r| == |threads|
  {
    if to >= |threads| || to == i || !threads[i].place.Idle? || threads[i].held == 0 then threads
    else
      threads[i := threads[i].(held := threads[i].held - 1)][to := threads[to].(held := threads[to].held + 1)]
  }

  function Step(s: State, i: nat, a: Action): State {
    if i >= |s.threads| then s
    else if a.Give? then s.(threads := Hand(s.threads, i, a.to))
    else
      var r := ThreadStep(s.count, s.threads[i], a);
      State(r.0, s.threads[i := r.1], s.zeros + (if r.2 then 1 else 0))
  }

  function Run(s: State, steps: seq<(nat, Action)>): State
    decreases |steps|
  {
    if steps == [] then s
    else Step(Run(s, steps[..|steps| - 1]), steps[|steps| - 1].0, steps[|steps| - 1].1)
  }

  lemma {:induction false} HeldUpdate(threads: seq<Thread>, i: nat, t: Thread)
    requires i < |threads|
    ensures Held(threads[i := t]) == Held(threads) - threads[i].held + t.held
  {
    var n := |threads| - 1;
    if i < n {
      assert threads[i := t][..n] == threads[..n][i := t];
      HeldUpdate(threads[..n], i, t);
    } else {
      assert threads[i := t][..n] == threads[..n];
    }
  }

  lemma {:induction false} HeldAtLeast(threads: seq<Thread>, i: nat)
    requires i < |threads|
    ensures Held(threads) >= threads[i].held
  {
    var n := |threads| - 1;
    if i < n { HeldAtLeast(threads[..n], i); }
  }

  lemma {:induction false} HandKeeps(threads: seq<Thread>, i: nat, to: nat)
    requires i < |threads|
    ensures Held(Hand(threads, i, to)) == Held(threads)
  {
    var r := Hand(threads, i, to);
    if r != threads {
      var given := threads[i].(held := threads[i].held - 1);
      HeldUpdate(threads, i, given);
      HeldUpdate(threads[i := given], to, threads[to].(held := threads[to].held + 1));
    }
  }

  /** A thread inside a call holds a reference, never expects zero, and expects a
      saturated count only of one. */
  predicate Sound(count: nat, t: Thread) {
    match t.place
    case Idle => true
    case Incrementing(expected) => t.held > 0 && (expected == MAX ==> count == MAX)
    case Decrementing(expected) => t.held > 0 && expected != 0 && (expected == MAX ==> count == MAX)
    case Aborted => false
  }

  /** The count is the number of live references, or is saturated; a decrement has
      returned one exactly if none is left. */
  predicate Valid(s: State) {
    && s.count <= MAX
    && (s.count != MAX ==> s.count == Held(s.threads))
    && (forall i :: 0 <= i < |s.threads| ==> Sound(s.count, s.threads[i]))
    && s.zeros == (if s.count == 0 then 1 else 0)
  }

  lemma {:induction false} StepKeeps(s: State, i: nat, a: Action)
    requires Valid(s)
    ensures Valid(Step(s, i, a))
  {
    if i < |s.threads| && a.Give? {
      HandKeeps(s.threads, i, a.to);
    } else if i < |s.threads| {
      HeldAtLeast(s.threads, i);
      HeldUpdate(s.threads, i, ThreadStep(s.count, s.threads[i], a).1);
    }
  }

  /** A swap that finds the expected count succeeds, unless it fails spuriously: the
      thread is done, the count has moved by one, and the last decrement returns one. */
  lemma {:induction false} SwapSucceeds(s: State, i: nat)
    requires Valid(s) && i < |s.threads| && s.count < MAX
    ensures
      var t, r := s.threads[i], Step(s, i, Swap(false));
      && (t.place == Incrementing(s.count) ==>
            r.count == s.count + 1 && r.threads[i] == Thread(Idle, t.held + 1) && r.zeros == s.zeros)
      && (t.place == Decrementing(s.count) ==>
            && r.count == s.count - 1 && r.threads[i] == Thread(Idle, t.held - 1)
            && r.zeros == s.zeros + (if s.count == 1 then 1 else 0))
  {
    HeldAtLeast(s.threads, i);
  }

  /** A swap that finds another count fails and expects what it found. */
  lemma {:induction false} SwapFails(s: State, i: nat, expected: nat, spurious: bool)
    requires Valid(s) && i < |s.threads| && expected != s.count && expected < MAX
    ensures
      var t, r := s.threads[i], Step(s, i, Swap(spurious));
      && (t.place == Incrementing(expected) ==> r == s.(threads := s.threads[i := t.(place := Incrementing(s.count))]))
      && (t.place == Decrementing(expected) ==> r == s.(threads := s.threads[i := t.(place := Decrementing(s.count))]))
  {
  }

  /** An idle holder enters either loop with the count it loads. */
  lemma {:induction false} Begins(s: State, i: nat)
    requires i < |s.threads| && s.threads[i].place.Idle? && s.threads[i].held > 0
    ensures Step(s, i, BeginIncrement).threads[i].place == Incrementing(s.count)
    ensures Step(s, i, BeginDecrement).threads[i].place == Decrementing(s.count)
  {
  }

  /** One reference, just created by thread 0, among any number of threads. */
  function Start(threads: nat): State
    requires threads > 0
  {
    State(1, seq(threads, i => Thread(Idle, if i == 0 then 1 else 0)), 0)
  }

  lemma {:induction false} HeldZero(threads: seq<Thread>)
    requires forall i :: 0 <= i < |threads| ==> threads[i].held == (if i == 0 then 1 else 0)
    ensures Held(threads) == if threads == [] then 0 else 1
  {
    if threads != [] { HeldZero(threads[..|threads| - 1]); }
  }

  /** In every interleaving, with any spurious failures, any calls by holders and
      any references handed from thread to thread: the count is the number of live
      references until it saturates, no thread aborts, and at most one decrement
      returns one, for the last reference. */
  lemma {:induction false} RunKeeps(threads: nat, steps: seq<(nat, Action)>)
    requires threads > 0
    ensures Valid(Run(Start(threads), steps)) && Run(Start(threads), steps).zeros <= 1
    decreases |steps|
  {
    if steps == [] {
      HeldZero(Start(threads).threads);
    } else {
      RunKeeps(threads, steps[..|steps| - 1]);
      StepKeeps(Run(Start(threads), steps[..|steps| - 1]), steps[|steps| - 1].0, steps[|steps| - 1].1);
    }
  }

  lemma {:induction false} RunOn(s: State, steps: seq<(nat, Action)>, step: (nat, Action))
    ensures Run(s, steps + [step]) == Step(Run(s, steps), step.0, step.1)
  {
    assert (steps + [step])[..|steps|] == steps;
  }

  /** Two threads in their loops: thread 0 takes a second reference and gives it to
      thread 1, and both begin to increment, expecting two. */
  const RACE: seq<(nat, Action)> :=
    [(0, BeginIncrement)] + [(0, Swap(false))] + [(0, Give(1))] + [(0, BeginIncrement)] + [(1, BeginIncrement)]

  /** Threads do interfere: thread 0's swap succeeds, so thread 1's, expecting the
      value before it, fails without a spurious failure and reloads, and only its
      second one succeeds. */
  lemma {:induction false} SwapsCollide()
    ensures Run(Start(2), RACE) == State(2, [Thread(Incrementing(2), 1), Thread(Incrementing(2), 1)], 0)
    ensures Run(Start(2), RACE + [(0, Swap(false))]) == State(3, [Thread(Idle, 2), Thread(Incrementing(2), 1)], 0)
    ensures Run(Start(2), RACE + [(0, Swap(false))] + [(1, Swap(false))])
            == State(3, [Thread(Idle, 2), Thread(Incrementing(3), 1)], 0)
    ensures Run(Start(2), RACE + [(0, Swap(false))] + [(1, Swap(false))] + [(1, Swap(false))])
            == State(4, [Thread(Idle, 2), Thread(Idle, 2)], 0)
  {
    var s := Start(2);
    assert s.threads == [Thread(Idle, 1), Thread(Idle, 0)];
    var a: seq<(nat, Action)> := [(0, BeginIncrement)];
    var b, c := a + [(0, Swap(false))], a + [(0, Swap(false))] + [(0, Give(1))];
    var d := c + [(0, BeginIncrement)];
    RunOn(s, [], (0, BeginIncrement));
    assert [] + a == a;
    RunOn(s, a, (0, Swap(false)));
    RunOn(s, b, (0, Give(1)));
    assert Run(s, c).threads == [Thread(Idle, 1), Thread(Idle, 1)];
    RunOn(s, c, (0, BeginIncrement));
    RunOn(s, d, (1, BeginIncrement));
    RunOn(s, RACE, (0, Swap(false)));
    RunOn(s, RACE + [(0, Swap(false))], (1, Swap(false)));
    RunOn(s, RACE + [(0, Swap(false))] + [(1, Swap(false))], (1, Swap(false)));
  }

  /** Once saturated, the count never changes. */
  lemma {:induction false} StaysSaturated(s: State, steps: seq<(nat, Action)>)
    requires Valid(s) && s.count == MAX
    ensures Run(s, steps).count == MAX && Valid(Run(s, steps))
    decreases |steps|
  {
    if steps != [] {
      StaysSaturated(s, steps[..|steps| - 1]);
      StepKeeps(Run(s, steps[..|steps| - 1]), steps[|steps| - 1].0, steps[|steps| - 1].1);
    }
  }

  /** Each action of a loop either leaves the count and finishes nothing, or is one
      whole increment or decrement of the specification. */
  lemma {:induction false} SwapIsAtomic(s: State, i: nat, a: Action)
    requires Valid(s) && i < |s.threads| && !a.Give?
    ensures
      var t, r := s.threads[i], ThreadStep(s.count, s.threads[i], a);
      if !t.place.Idle? && r.1.place.Idle?
      then if t.place.Incrementing? then r.0 == Increment(s.count) && r.1.held == t.held + 1
           else r.0 == Decrement(s.count) && r.2 == ReachesZero(s.count) && r.1.held == t.held - 1
      else r.0 == s.count && !r.2 && r.1.held == t.held
  {
  }

  /** The version that holds a lock around each operation. */
  class LockedCount {
    var count: nat

    constructor ()
      ensures count == 1
    {
      count := 1;
    }

    /** CRYPTO_refcount_inc. */
    method Inc()
      modifies this
      ensures count == Increment(old(count))
    {
      if count < MAX { count := count + 1; }
    }

    /** CRYPTO_refcount_dec_and_test_zero. A count of zero aborts, which here is no
        result. */
    method DecAndTestZero() returns (ret: Option<bool>)
      modifies this
      ensures count == Decrement(old(count))
      ensures ret == if old(count) == 0 then None else Some(ReachesZero(old(count)))
    {
      if count == 0 { return None; }
      if count < MAX { count := count - 1; }
      return Some(count == 0);
    }
  }
}
