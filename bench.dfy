/**
 * The trial loop `run_bench`. The three callbacks are functions that thread
 * the benchmark state; `clock(j)` is the instant the `j`-th reading of the
 * clock returns, two readings per trial. The ghost event trace records what the
 * loop does, in order.
 */
module Bench {

  datatype Event<S> =
    | Setup(input: S)       // `setup` called on this state
    | Now(instant: int)     // a clock reading
    | Call(input: S)        // the measured `f` called on this state
    | Teardown(input: S)    // `teardown` called on this state

  /** A monotonic clock: no reading is earlier than the one before it. */
  ghost predicate Monotonic(clock: nat -> int) {
    forall j: nat :: clock(j) <= clock(j + 1)
  }

  /** The state trial `k` starts from: the initial state, then each trial's `teardown(f(setup(_)))`. */
  function StateBefore<S>(k: nat, f: S -> S, setup: S -> S, teardown: S -> S, state: S): (st: S) {
    if k == 0 then state
    else teardown(f(setup(StateBefore(k - 1, f, setup, teardown, state))))
  }

  /** What trial `k` does when it starts from `st`. */
  function TrialEvents<S>(k: nat, f: S -> S, setup: S -> S, teardown: S -> S, st: S, clock: nat -> int): (events: seq<Event<S>>) {
    [Setup(st), Now(clock(2 * k)), Call(setup(st)), Now(clock(2 * k + 1)), Teardown(f(setup(st)))]
  }

  /** The events of the first `n` trials. */
  function Trace<S>(n: nat, f: S -> S, setup: S -> S, teardown: S -> S, state: S, clock: nat -> int): (t: seq<Event<S>>) {
    if n == 0 then []
    else Trace(n - 1, f, setup, teardown, state, clock)
         + TrialEvents(n - 1, f, setup, teardown, StateBefore(n - 1, f, setup, teardown, state), clock)
  }

  /** Each trial contributes five events. */
  lemma {:induction false} TraceLength<S>(n: nat, f: S -> S, setup: S -> S, teardown: S -> S, state: S, clock: nat -> int)
    ensures |Trace(n, f, setup, teardown, state, clock)| == 5 * n
  {
    if n > 0 {
      TraceLength(n - 1, f, setup, teardown, state, clock);
    }
  }

  lemma SliceOfFront<T>(a: seq<T>, b: seq<T>, i: nat, j: nat)
    requires i <= j <= |a|
    ensures (a + b)[i..j] == a[i..j]
  {
    assert (a + b)[..|a|] == a;
    assert (a + b)[i..j] == (a + b)[..|a|][i..j];
  }

  lemma SliceOfBack<T>(a: seq<T>, b: seq<T>)
    ensures (a + b)[|a|..|a| + |b|] == b
  {
  }

  /** The last trial's events close the trace. */
  lemma TraceLast<S>(n: nat, f: S -> S, setup: S -> S, teardown: S -> S, state: S, clock: nat -> int)
    requires n > 0
    ensures |Trace(n, f, setup, teardown, state, clock)| == 5 * n
    ensures Trace(n, f, setup, teardown, state, clock)[5 * (n - 1)..5 * n]
         == TrialEvents(n - 1, f, setup, teardown, StateBefore(n - 1, f, setup, teardown, state), clock)
  {
    var prev := Trace(n - 1, f, setup, teardown, state, clock);
    var last := TrialEvents(n - 1, f, setup, teardown, StateBefore(n - 1, f, setup, teardown, state), clock);
    TraceLength(n - 1, f, setup, teardown, state, clock);
    assert Trace(n, f, setup, teardown, state, clock) == prev + last;
    SliceOfBack(prev, last);
  }

  /** A later trial leaves the events of an earlier one in place. */
  lemma TraceExtends<S>(n: nat, k: nat, f: S -> S, setup: S -> S, teardown: S -> S, state: S, clock: nat -> int)
    requires k + 1 < n
    ensures |Trace(n - 1, f, setup, teardown, state, clock)| == 5 * (n - 1)
    ensures Trace(n, f, setup, teardown, state, clock)[5 * k..5 * k + 5]
         == Trace(n - 1, f, setup, teardown, state, clock)[5 * k..5 * k + 5]
  {
    var prev := Trace(n - 1, f, setup, teardown, state, clock);
    var last := TrialEvents(n - 1, f, setup, teardown, StateBefore(n - 1, f, setup, teardown, state), clock);
    TraceLength(n - 1, f, setup, teardown, state, clock);
    assert Trace(n, f, setup, teardown, state, clock) == prev + last;
    SliceOfFront(prev, last, 5 * k, 5 * k + 5);
  }

  /** Trial `k` occupies events `5k .. 5k + 5` of the trace, starting from the state the earlier trials left. */
  lemma {:induction false} TraceAt<S>(n: nat, k: nat, f: S -> S, setup: S -> S, teardown: S -> S, state: S, clock: nat -> int)
    requires k < n
    ensures |Trace(n, f, setup, teardown, state, clock)| == 5 * n
    ensures Trace(n, f, setup, teardown, state, clock)[5 * k..5 * k + 5]
         == TrialEvents(k, f, setup, teardown, StateBefore(k, f, setup, teardown, state), clock)
  {
    if k + 1 < n {
      TraceLength(n, f, setup, teardown, state, clock);
      TraceExtends(n, k, f, setup, teardown, state, clock);
      TraceAt(n - 1, k, f, setup, teardown, state, clock);
    } else {
      TraceLast(n, f, setup, teardown, state, clock);
    }
  }

  /** Trial `k + 1`'s `setup` receives exactly the state trial `k`'s `teardown` left behind. */
  lemma SetupSeesTeardown<S>(n: nat, k: nat, f: S -> S, setup: S -> S, teardown: S -> S, state: S, clock: nat -> int)
    requires k + 1 < n
    ensures var t := Trace(n, f, setup, teardown, state, clock);
      |t| == 5 * n &&
      t[5 * k + 4].Teardown? && t[5 * (k + 1)].Setup? &&
      t[5 * (k + 1)].input == teardown(t[5 * k + 4].input)
  {
    var t := Trace(n, f, setup, teardown, state, clock);
    TraceLength(n, f, setup, teardown, state, clock);
    TraceAt(n, k, f, setup, teardown, state, clock);
    TraceAt(n, k + 1, f, setup, teardown, state, clock);
    assert t[5 * k + 4] == t[5 * k..5 * k + 5][4];
    assert t[5 * (k + 1)] == t[5 * (k + 1)..5 * (k + 1) + 5][0];
  }

  /**
   * `run_bench`: `retries` trials, each `setup`, clock, `f`, clock, `teardown`;
   * the duration of trial `k` spans exactly the call of `f`.
   */
  method RunBench<S>(retries: nat, f: S -> S, setup: S -> S, teardown: S -> S, state: S, clock: nat -> int)
    returns (res: seq<nat>, ghost trace: seq<Event<S>>)
    requires Monotonic(clock)
    ensures |res| == retries
    ensures forall k :: 0 <= k < retries ==> res[k] == clock(2 * k + 1) - clock(2 * k)
    ensures trace == Trace(retries, f, setup, teardown, state, clock)
    ensures |trace| == 5 * retries
    ensures forall k :: 0 <= k < retries ==>
      trace[5 * k + 1].Now? && trace[5 * k + 2].Call? && trace[5 * k + 3].Now? &&
      res[k] == trace[5 * k + 3].instant - trace[5 * k + 1].instant
  {
    res := [];
    trace := [];
    var st := state;
    var readings := 0;
    for k := 0 to retries
      invariant |res| == k && readings == 2 * k
      invariant forall j :: 0 <= j < k ==> res[j] == clock(2 * j + 1) - clock(2 * j)
      invariant st == StateBefore(k, f, setup, teardown, state)
      invariant trace == Trace(k, f, setup, teardown, state, clock)
    {
      ghost var entered := st;
      st := setup(st);
      var before := clock(readings);
      ghost var called := st;
      st := f(st);
      var after := clock(readings + 1);
      readings := readings + 2;
      res := res + [after - before];
      trace := trace + [Setup(entered), Now(before), Call(called), Now(after), Teardown(st)];
      st := teardown(st);
    }
    TraceLength(retries, f, setup, teardown, state, clock);
    forall k | 0 <= k < retries
      ensures trace[5 * k + 1].Now? && trace[5 * k + 2].Call? && trace[5 * k + 3].Now?
      ensures res[k] == trace[5 * k + 3].instant - trace[5 * k + 1].instant
    {
      TraceAt(retries, k, f, setup, teardown, state, clock);
      var e := trace[5 * k..5 * k + 5];
      assert trace[5 * k + 1] == e[1] && trace[5 * k + 2] == e[2] && trace[5 * k + 3] == e[3];
    }
  }
}
