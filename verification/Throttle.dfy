/**
 The throttle queue: a worker that remembers the start times of the last second in a slice it
 compacts in place, and starts a job only when fewer than maxPerSecond of them are left.
 Times are in nanoseconds.
 */
module Throttle {

  const SECOND: int := 1_000_000_000
  const POLL: int := 10_000_000
  const DEFAULT_MAX: nat := 80

  /** The start times less than a second old, in order. */
  function Recent(ts: seq<int>, now: int): (r: seq<int>)
  {
    if ts == [] then []
    else
      var r := Recent(ts[..|ts| - 1], now);
      var t := ts[|ts| - 1];
      if now - t < SECOND then r + [t] else r
  }

  /** How many of the recorded start times fall into the half-open second beginning at a. */
  function CountIn(log: seq<int>, a: int): (n: nat)
  {
    if log == [] then 0
    else CountIn(log[..|log| - 1], a) + (if a <= log[|log| - 1] < a + 1_000_000_000 then 1 else 0)
  }

  ghost predicate Sorted(log: seq<int>) {
    forall i, j :: 0 <= i <= j < |log| ==> log[i] <= log[j]
  }

  /** Any two starts that are max apart in the order are at least a second apart in time. */
  ghost predicate Spaced(log: seq<int>, max: nat) {
    forall i, j :: 0 <= i && j == i + max && j < |log| ==> log[j] - log[i] >= SECOND
  }

  // ---------------------------------------------------------------- filter lemmas

  lemma {:induction false} RecentTwice(ts: seq<int>, early: int, late: int)
    requires early <= late
    ensures Recent(Recent(ts, early), late) == Recent(ts, late)
  {
    if ts != [] {
      RecentTwice(ts[..|ts| - 1], early, late);
      var r, t := Recent(ts[..|ts| - 1], early), ts[|ts| - 1];
      assert (r + [t])[..|r|] == r;
    }
  }

  lemma RecentAppend(ts: seq<int>, t: int, now: int)
    requires now <= t
    ensures Recent(ts + [t], now) == Recent(ts, now) + [t]
  {
    assert (ts + [t])[..|ts|] == ts;
  }

  /** In a sorted log everything after a recent entry is recent. */
  lemma {:induction false} RecentIsSuffix(log: seq<int>, now: int, k: nat)
    requires Sorted(log) && k < |log| && now - log[k] < SECOND
    ensures |Recent(log, now)| >= |log| - k
  {
    var n := |log| - 1;
    assert log[k] <= log[n];
    if k < n {
      RecentIsSuffix(log[..n], now, k);
    }
  }

  /** Nothing is recent once every entry is a second old. */
  lemma {:induction false} NothingRecent(log: seq<int>, now: int)
    requires forall i :: 0 <= i < |log| ==> now - log[i] >= SECOND
    ensures Recent(log, now) == []
  {
    if log != [] {
      NothingRecent(log[..|log| - 1], now);
    }
  }

  // ------------------------------------------------------------------ rate lemma

  lemma {:induction false} CountAfter(log: seq<int>, a: int, k: nat)
    requires k <= |log| && forall i :: 0 <= i < k ==> log[i] < a
    ensures CountIn(log, a) <= |log| - k
  {
    if log != [] {
      var n := |log| - 1;
      CountAfter(log[..n], a, if k <= n then k else n);
    }
  }

  /** Sorted, spaced start times never put more than max into one second. */
  lemma {:induction false} SpacedIsRateLimited(log: seq<int>, max: nat, a: int)
    requires Sorted(log) && Spaced(log, max)
    ensures CountIn(log, a) <= max
  {
    if log != [] {
      var n := |log| - 1;
      if a <= log[n] < a + SECOND {
        var k := if n < max then 0 else n - max + 1;
        forall i | 0 <= i < k
          ensures log[i] < a
        {
          assert log[i] <= log[n - max];
        }
        CountAfter(log, a, k);
      } else {
        SpacedIsRateLimited(log[..n], max, a);
      }
    }
  }

  // ---------------------------------------------------------------- the worker's runs

  /** `log` is every start time ever recorded, `kept` the slice, `cut` the last filter time. */
  datatype State = State(log: seq<int>, kept: seq<int>, cut: int, time: int)

  datatype Step = Filter(now: int) | Start(t: int)

  /** The clock never runs backwards, and a job starts only below the cap. */
  predicate Enabled(s: State, step: Step, max: nat) {
    match step
    case Filter(now) => s.time <= now
    case Start(t) => s.time <= t && |s.kept| < max
  }

  function Apply(s: State, step: Step): (s': State) {
    match step
    case Filter(now) => State(s.log, Recent(s.kept, now), now, now)
    case Start(t) => State(s.log + [t], s.kept + [t], s.cut, t)
  }

  ghost predicate Inv(s: State, max: nat) {
    && Sorted(s.log) && Spaced(s.log, max)
    && (forall i :: 0 <= i < |s.log| ==> s.log[i] <= s.time)
    && s.cut <= s.time
    && s.kept == Recent(s.log, s.cut)
    && |s.kept| <= max
  }

  lemma RecentShrinks(ts: seq<int>, now: int)
    ensures |Recent(ts, now)| <= |ts|
  {
  }

  lemma FilterKeepsInv(s: State, now: int, max: nat)
    requires Inv(s, max) && s.time <= now
    ensures Inv(Apply(s, Filter(now)), max)
  {
    RecentTwice(s.log, s.cut, now);
    RecentShrinks(s.kept, now);
  }

  lemma StartKeepsInv(s: State, t: int, max: nat)
    requires Inv(s, max) && Enabled(s, Start(t), max)
    ensures Inv(Apply(s, Start(t)), max)
  {
    RecentAppend(s.log, t, s.cut);
    var log' := s.log + [t];
    var k := |s.log| - max;
    if k >= 0 && s.cut - s.log[k] < SECOND {
      RecentIsSuffix(s.log, s.cut, k);
    }
    assert forall i, j :: 0 <= i && j == i + max && j < |s.log| ==> log'[j] - log'[i] >= SECOND;
  }

  ghost predicate Legal(s: State, steps: seq<Step>, max: nat)
    decreases |steps|
  {
    steps == [] || (Enabled(s, steps[0], max) && Legal(Apply(s, steps[0]), steps[1..], max))
  }

  function Run(s: State, steps: seq<Step>): (s': State)
    decreases |steps|
  {
    if steps == [] then s else Run(Apply(s, steps[0]), steps[1..])
  }

  lemma {:induction false} RunKeepsInv(s: State, steps: seq<Step>, max: nat)
    requires Inv(s, max) && Legal(s, steps, max)
    ensures Inv(Run(s, steps), max)
    decreases |steps|
  {
    if steps != [] {
      match steps[0] {
        case Filter(now) => FilterKeepsInv(s, now, max);
        case Start(t) => StartKeepsInv(s, t, max);
      }
      RunKeepsInv(Apply(s, steps[0]), steps[1..], max);
    }
  }

  /** In every run, however jobs arrive and however long the worker sleeps, no half-open second
      contains more than max starts, and the slice never holds more than max entries. */
  lemma EveryRunIsRateLimited(time: int, steps: seq<Step>, max: nat, a: int)
    requires Legal(State([], [], time, time), steps, max)
    ensures var s := Run(State([], [], time, time), steps);
            CountIn(s.log, a) <= max && |s.kept| <= max
  {
    RunKeepsInv(State([], [], time, time), steps, max);
    SpacedIsRateLimited(Run(State([], [], time, time), steps).log, max, a);
  }

  // ----------------------------------------------------------------- the worker

  /** A monotonic clock: reading it moves it on by any amount, sleeping by at least the amount asked. */
  class Clock {
    var time: int
    /** How long sleepers asked to sleep, in all. */
    ghost var slept: nat

    constructor (t: int)
      ensures time == t && slept == 0
    {
      time, slept := t, 0;
    }

    method Now() returns (t: int)
      modifies this
      ensures t == time && time >= old(time) && slept == old(slept)
    {
      var d: int :| d >= 0;
      time := time + d;
      t := time;
    }

    method Sleep(d: nat)
      modifies this
      ensures time >= old(time) + d && slept == old(slept) + d
    {
      var late: int :| late >= 0;
      time := time + d + late;
      slept := slept + d;
    }
  }

  /** Drop the entries a second old, keeping the rest in order at the front of the same array. */
  method Compact(buf: array<int>, len: nat, now: int) returns (kept: nat)
    requires len <= buf.Length
    modifies buf
    ensures kept <= len && buf[..kept] == Recent(old(buf[..len]), now)
  {
    kept := 0;
    ghost var was := buf[..len];
    for i := 0 to len
      invariant kept <= i
      invariant buf[..kept] == Recent(was[..i], now)
      invariant buf[i..len] == was[i..]
    {
      var t := buf[i];
      assert t == buf[i..len][0] == was[i];
      assert was[..i + 1][..i] == was[..i];
      ghost var front, back := buf[..kept], buf[i..len];
      if now - t < SECOND {
        buf[kept] := t;
        assert buf[..kept] == front && buf[..kept + 1] == front + [t];
        kept := kept + 1;
      }
      assert buf[i + 1..len] == back[1..] == was[i + 1..];
    }
    assert was[..len] == was;
  }

  class ThrottleQueue {
    const maxPerSecond: nat
    const clock: Clock
    var buf: array<int>
    var len: nat
    ghost var log: seq<int>
    ghost var cut: int

    ghost predicate Valid()
      reads this, clock, buf
    {
      && maxPerSecond > 0
      && len <= buf.Length
      && Inv(State(log, buf[..len], cut, clock.time), maxPerSecond)
    }

    constructor (max: int, c: Clock)
      ensures Valid() && fresh(buf) && clock == c && log == []
      ensures maxPerSecond == if max <= 0 then 80 else max
    {
      maxPerSecond := if max <= 0 then DEFAULT_MAX else max;
      clock := c;
      buf := new int[0];
      len := 0;
      log := [];
      cut := c.time;
    }

    /** Read the clock and compact. */
    method CompactNow() returns (now: int)
      requires Valid()
      modifies this`len, this`cut, clock, buf
      ensures Valid() && now == clock.time == cut && now >= old(clock.time) && clock.slept == old(clock.slept)
      ensures buf[..len] == Recent(old(buf[..len]), now)
    {
      FilterKeepsInvForAll();
      now := clock.Now();
      len := Compact(buf, len, now);
      cut := now;
    }

    lemma FilterKeepsInvForAll()
      requires Valid()
      ensures forall now :: clock.time <= now ==>
                Inv(State(log, Recent(buf[..len], now), now, now), maxPerSecond)
    {
      forall now | clock.time <= now
        ensures Inv(State(log, Recent(buf[..len], now), now, now), maxPerSecond)
      {
        FilterKeepsInv(State(log, buf[..len], cut, clock.time), now, maxPerSecond);
      }
    }

    /** Append a start time, growing the slice when it is full. */
    method Append(t: int)
      requires Valid() && len < maxPerSecond && t == clock.time
      modifies this`buf, this`len, this`log, buf
      ensures Valid() && (buf == old(buf) || fresh(buf))
      ensures buf[..len] == old(buf[..len]) + [t] && log == old(log) + [t]
    {
      StartKeepsInv(State(log, buf[..len], cut, clock.time), t, maxPerSecond);
      if len == buf.Length {
        var full := buf;
        var bigger := new int[2 * len + 1];
        forall i | 0 <= i < len {
          bigger[i] := full[i];
        }
        buf := bigger;
      }
      buf[len] := t;
      len := len + 1;
      log := log + [t];
      assert buf[..len] == old(buf[..len]) + [t];
    }

    /**
     One job: compact, sleep while the cap is reached, record the start.  `polls` are the clock
     readings at which it looked: it sleeps exactly while the starts younger than a second reach
     the cap, and at most 100 times.
     */
    method StartJob() returns (sleeps: nat, ghost polls: seq<int>)
      requires Valid()
      modifies this, clock, buf
      ensures Valid() && (buf == old(buf) || fresh(buf))
      ensures log == old(log) + [clock.time]
      ensures sleeps <= 100 && |polls| == sleeps + 1 && clock.slept == old(clock.slept) + sleeps * 10_000_000
      ensures forall i :: 0 <= i < sleeps ==> |Recent(old(log), polls[i])| >= maxPerSecond
      ensures |Recent(old(log), polls[sleeps])| < maxPerSecond
      ensures old(clock.time) <= polls[0] && polls[sleeps] <= clock.time
      ensures forall i :: 0 <= i < sleeps ==> polls[i] + POLL <= polls[i + 1]
    {
      hide Recent, Sorted, Spaced;
      var now := CompactNow();
      ghost var start := now;
      sleeps := 0;
      polls := [now];
      while len >= maxPerSecond
        invariant Valid() && buf == old(buf) && log == old(log)
        invariant |polls| == sleeps + 1 && polls[sleeps] == cut && polls[0] == start
        invariant forall i :: 0 <= i < sleeps ==> |Recent(log, polls[i])| >= maxPerSecond
        invariant forall i :: 0 <= i < sleeps ==> polls[i] + POLL <= polls[i + 1]
        invariant forall i :: 0 <= i < |log| ==> log[i] <= start
        invariant clock.time >= start + sleeps * POLL && cut == clock.time
        invariant sleeps <= 100 && clock.slept == old(clock.slept) + sleeps * POLL
        decreases 100 - sleeps
      {
        if sleeps == 100 {
          NothingRecent(log, cut);
          assert false;
        }
        clock.Sleep(POLL);
        now := CompactNow();
        sleeps := sleeps + 1;
        polls := polls + [now];
      }
      var t := clock.Now();
      Append(t);
    }

    /** Any number of jobs: the starts recorded over the whole run respect the rate. */
    method RunJobs(jobs: nat)
      requires Valid()
      modifies this, clock, buf
      ensures Valid() && |log| == |old(log)| + jobs && old(log) <= log
      ensures forall a :: CountIn(log, a) <= maxPerSecond
    {
      for i := 0 to jobs
        invariant Valid() && (buf == old(buf) || fresh(buf))
        invariant |log| == |old(log)| + i && old(log) <= log
      {
        var sleeps, _ := StartJob();
      }
      forall a
        ensures CountIn(log, a) <= maxPerSecond
      {
        SpacedIsRateLimited(log, maxPerSecond, a);
      }
    }
  }
}
