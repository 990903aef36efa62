/** The VideoOut sampler: frame-counter windows, exact rounding and the discovery back-off. */
module VideoOutSampler {
  import opened Common

  const MAX_DISPLAY_FPS: int := 120
  const MAX_TENTHS_FPS: int := 1300
  const MIN_WINDOW_US: int := 200_000
  const MAX_WINDOW_US: int := 3_000_000
  const WARMUP_WINDOWS: nat := 1
  const RETRY_US: int := 10_000_000

  /** The frame counter as read at one instant; it wraps at 2^32. */
  datatype Reading = Reading(counter: Word32, time: Word64)
  datatype Window = Window(start: Reading, end: Reading)

  /** Frames counted by a window: unsigned 32-bit subtraction. */
  function Delta(w: Window): Word32
  {
    (w.end.counter - w.start.counter) % TWO32
  }

  function Elapsed(w: Window): int
  {
    w.end.time - w.start.time
  }

  predicate Complete(w: Window)
  {
    200_000 <= Elapsed(w) <= 3_000_000
  }

  // ---------- Exact arithmetic ----------

  /** Frames per second over a window, exactly. */
  function Rate(w: Window): real
    requires Complete(w)
  {
    Delta(w) as real * 1000000.0 / Elapsed(w) as real
  }

  function RoundHalfUp(x: real): int
  {
    (x + 0.5).Floor
  }

  /** What a window is worth on screen: nothing from 130.1 upwards, 120 at most. */
  function Measured(w: Window): Option<int>
    requires Complete(w)
  {
    if Rate(w) < 130.1 then Some(Min(RoundHalfUp(Rate(w)), MAX_DISPLAY_FPS)) else None
  }

  lemma FloorIs(x: real, n: int)
    requires n as real <= x < n as real + 1.0
    ensures x.Floor == n
  {
  }

  lemma RealQuotient(p: int, e: int, n: int)
    requires e > 0
    ensures n * e <= p <==> n as real <= p as real / e as real
  {
    var x := p as real / e as real;
    assert x * e as real == p as real;
    assert n as real * e as real == (n * e) as real;
  }

  lemma Scaled(a: int, b: int, e: int)
    requires a <= b && e >= 0
    ensures a * e <= b * e
  {
  }

  lemma QuotientReaches(p: int, e: int, t: int, n: int)
    requires e > 0 && t == p / e
    ensures t >= n <==> n * e <= p
  {
    assert t * e <= p < (t + 1) * e;
    if t >= n {
      Scaled(n, t, e);
    } else {
      Scaled(t + 1, n, e);
    }
  }

  lemma TwiceRounded(p: int, e: int, t: int, q: int)
    requires e > 0 && t == 10 * p / e && q == (t + 5) / 10
    ensures q * (2 * e) <= 2 * p + e < (q + 1) * (2 * e)
  {
    QuotientReaches(10 * p, e, t, 10 * q - 5);
    QuotientReaches(10 * p, e, t, 10 * q + 5);
    assert (10 * q - 5) * e == 5 * (q * (2 * e) - e);
    assert (10 * q + 5) * e == 5 * ((q + 1) * (2 * e) - e);
  }

  lemma QuotientIs(a: real, b: real, x: real)
    requires b != 0.0 && x * b == a
    ensures a / b == x
  {
  }

  lemma HalfMore(p: real, e: real)
    requires e > 0.0
    ensures (2.0 * p + e) / (2.0 * e) == p / e + 0.5
  {
    var x := p / e;
    assert x * e == p;
    assert (x + 0.5) * (2.0 * e) == 2.0 * (x * e) + e;
    QuotientIs(2.0 * p + e, 2.0 * e, x + 0.5);
  }

  lemma HalfUp(p: int, e: int, q: int)
    requires e > 0 && q * (2 * e) <= 2 * p + e < (q + 1) * (2 * e)
    ensures RoundHalfUp(p as real / e as real) == q
  {
    RealQuotient(2 * p + e, 2 * e, q);
    RealQuotient(2 * p + e, 2 * e, q + 1);
    HalfMore(p as real, e as real);
    FloorIs(p as real / e as real + 0.5, q);
  }

  lemma Tenfold(p: int, e: int)
    requires e > 0
    ensures (10 * p) as real / e as real == 10.0 * (p as real / e as real)
  {
  }

  /** Tenths, truncated and then rounded once, are the nearest integer to the exact rate. */
  lemma TenthsRoundExactly(d: nat, e: int, t: int)
    requires e > 0 && t == d * 10_000_000 / e
    ensures (t + 5) / 10 == RoundHalfUp(d as real * 1000000.0 / e as real)
    ensures t > MAX_TENTHS_FPS <==> d as real * 1000000.0 / e as real >= 130.1
  {
    var p := d * 1_000_000;
    assert p as real == d as real * 1000000.0;
    TwiceRounded(p, e, t, (t + 5) / 10);
    HalfUp(p, e, (t + 5) / 10);
    QuotientReaches(10 * p, e, t, MAX_TENTHS_FPS + 1);
    RealQuotient(10 * p, e, MAX_TENTHS_FPS + 1);
    Tenfold(p, e);
  }

  /** In whole numbers: the frames over the time rounded half up, below 130.1 frames per second. */
  lemma MeasuredMeans(w: Window)
    requires Complete(w)
    ensures Measured(w).Some? <==> Delta(w) * 10_000_000 < 1301 * Elapsed(w)
    ensures Measured(w).Some? ==>
              var fps, p, e := Measured(w).value, Delta(w) * 1_000_000, Elapsed(w);
              fps <= 120 && fps * (2 * e) <= 2 * p + e && (fps < 120 ==> 2 * p + e < (fps + 1) * (2 * e))
  {
    var p, e := Delta(w) * 1_000_000, Elapsed(w);
    var t := 10 * p / e;
    TenthsRoundExactly(Delta(w), e, t);
    QuotientReaches(10 * p, e, t, 1301);
    TwiceRounded(p, e, t, (t + 5) / 10);
    if (t + 5) / 10 > 120 {
      Scaled(120, (t + 5) / 10, 2 * e);
    }
  }

  /** The rate of a window in 64-bit unsigned arithmetic, as `sample` computes it. */
  method MeasureWindow(delta: Word32, elapsed: Word64, ghost w: Window) returns (r: Option<int>)
    requires Complete(w) && delta == Delta(w) && elapsed == Elapsed(w)
    ensures r == Measured(w)
    ensures r.Some? ==> 0 <= r.value <= MAX_DISPLAY_FPS && delta <= 390
  {
    var scaled: Word64 := delta * 10_000_000 % TWO64;
    assert scaled == delta * 10_000_000;
    var tenths := scaled / elapsed;
    TenthsRoundExactly(delta, elapsed, tenths);
    if tenths > MAX_TENTHS_FPS {
      return None;
    }
    LowRateIsFewFrames(delta, elapsed, tenths);
    return Some(Min((tenths + 5) / 10, MAX_DISPLAY_FPS));
  }

  lemma LowRateIsFewFrames(d: nat, e: int, t: int)
    requires 0 < e <= MAX_WINDOW_US && t == d * 10_000_000 / e && t <= MAX_TENTHS_FPS
    ensures d <= 390
  {
    assert d * 10_000_000 < (t + 1) * e;
    assert (t + 1) * e <= (MAX_TENTHS_FPS + 1) * e;
  }

  // ---------- Windows tile the counter ----------

  /** The windows follow one another from `origin` to `last`, without gap or overlap. */
  predicate Tiles(origin: Reading, windows: seq<Window>, last: Reading)
  {
    if windows == [] then origin == last else
    var w := windows[|windows| - 1];
    w.end == last && Complete(w) && Tiles(origin, windows[..|windows| - 1], w.start)
  }

  function Total(windows: seq<Window>): nat
  {
    if windows == [] then 0 else Total(windows[..|windows| - 1]) + Delta(windows[|windows| - 1])
  }

  /** The deltas telescope, across any number of wraps. */
  lemma {:induction false} DeltasTelescope(origin: Reading, windows: seq<Window>, last: Reading)
    requires Tiles(origin, windows, last)
    ensures Total(windows) % TWO32 == (last.counter - origin.counter) % TWO32
  {
    if windows != [] {
      var w := windows[|windows| - 1];
      DeltasTelescope(origin, windows[..|windows| - 1], w.start);
      var before := Total(windows[..|windows| - 1]);
      CongruentSum(before, w.start.counter - origin.counter, w.end.counter - w.start.counter);
    }
  }

  lemma CongruentSum(a: int, b: int, c: int)
    requires a % TWO32 == b % TWO32
    ensures (a + c % TWO32) % TWO32 == (b + c) % TWO32
  {
  }

  /** `frames` gives, at every reading, a frame total that its counter shows modulo 2^32. */
  ghost predicate Shows(frames: Reading -> nat, windows: seq<Window>)
  {
    forall w :: w in windows ==>
      && w.start.counter == frames(w.start) % TWO32 && w.end.counter == frames(w.end) % TWO32
      && frames(w.start) <= frames(w.end) < frames(w.start) + TWO32
  }

  /** Windows of fewer than 2^32 frames are counted in full, wrap or not. */
  lemma {:induction false} TotalIsFrameCount(origin: Reading, windows: seq<Window>, last: Reading,
                                             frames: Reading -> nat)
    requires Tiles(origin, windows, last) && Shows(frames, windows)
    ensures frames(origin) + Total(windows) == frames(last)
  {
    if windows != [] {
      var w := windows[|windows| - 1];
      TotalIsFrameCount(origin, windows[..|windows| - 1], w.start, frames);
      DeltaIsIncrease(frames(w.start), frames(w.end));
    }
  }

  lemma DeltaIsIncrease(a: nat, b: nat)
    requires a <= b < a + TWO32
    ensures (b % TWO32 - a % TWO32) % TWO32 == b - a
  {
  }

  lemma TilesOn(origin: Reading, windows: seq<Window>, w: Window)
    requires Tiles(origin, windows, w.start) && Complete(w)
    ensures Tiles(origin, windows + [w], w.end)
  {
    assert (windows + [w])[..|windows|] == windows;
  }

  // ---------- The sampler ----------

  class FpsSampler {
    var pid: int
    var counterAddress: Word64
    var haveBaseline: bool
    var warmupRemaining: nat
    var previousCounter: Word32
    var previousTime: Word64
    var failedPid: int
    var retryAfter: Word64

    /** The reading that the current run of windows starts from, and the run itself. */
    ghost var origin: Reading
    ghost var windows: seq<Window>

    /** Since its baseline the sampler has seen windows that tile the counter; the first is discarded. */
    ghost predicate Valid()
      reads this
    {
      && warmupRemaining == (if windows == [] then WARMUP_WINDOWS else 0)
      && (windows != [] ==> haveBaseline)
      && (haveBaseline ==> Tiles(origin, windows, Reading(previousCounter, previousTime)))
    }

    predicate Attached()
      reads this`pid, this`counterAddress
    {
      pid >= 0 && counterAddress != 0
    }

    constructor ()
      ensures Valid() && !Attached() && !haveBaseline && failedPid == -1
    {
      pid, counterAddress := -1, 0;
      haveBaseline, warmupRemaining, previousCounter, previousTime := false, WARMUP_WINDOWS, 0, 0;
      failedPid, retryAfter := -1, 0;
      origin, windows := Reading(0, 0), [];
    }

    method Reset()
      modifies this`pid, this`counterAddress, this`haveBaseline, this`warmupRemaining, this`previousCounter,
               this`previousTime, this`windows
      ensures Valid() && !Attached() && pid == -1 && !haveBaseline && windows == []
    {
      pid, counterAddress := -1, 0;
      haveBaseline, warmupRemaining, previousCounter, previousTime := false, WARMUP_WINDOWS, 0, 0;
      windows := [];
    }

    /**
      * `attach`: `library` is the base of the VideoOut module, `found` what discovery would answer, `now`
      * and `later` the clock before and after it. After a failed discovery the same process is not
      * scanned again for ten seconds.
      */
    method Attach(target: int, library: Option<Word64>, found: Option<Word64>, now: Word64, later: Word64)
        returns (ok: bool)
      requires Valid()
      modifies this
      ensures Valid()
      ensures ok <==> !(target == old(failedPid) && now < old(retryAfter)) &&
                      library.Some? && library.value != 0 && found.Some?
      ensures ok ==> pid == target && counterAddress == found.value && !haveBaseline && failedPid == -1
      ensures !ok && !(target == old(failedPid) && now < old(retryAfter)) ==> pid == -1 && !Attached()
      ensures target == old(failedPid) && now < old(retryAfter) ==>
                pid == old(pid) && counterAddress == old(counterAddress) && windows == old(windows)
      ensures !ok && library.Some? && library.value != 0 && !(target == old(failedPid) && now < old(retryAfter)) ==>
                failedPid == target && retryAfter == Add64(later, 10_000_000)
    {
      if target == failedPid && now < retryAfter {
        return false;
      }
      Reset();
      if library.None? || library.value == 0 {
        return false;
      }
      pid := target;
      if found.None? {
        failedPid, retryAfter := target, Add64(later, RETRY_US);
        Reset();
        return false;
      }
      counterAddress := found.value;
      failedPid, retryAfter := -1, 0;
      return true;
    }

    /** The window that a reading would close. */
    function Pending(r: Reading): Window
      reads this`previousCounter, this`previousTime
    {
      Window(Reading(previousCounter, previousTime), r)
    }

    /** Makes `r` the start of a new run of windows. */
    method Rebase(r: Reading)
      modifies this`haveBaseline, this`warmupRemaining, this`previousCounter, this`previousTime,
               this`origin, this`windows
      ensures Valid() && haveBaseline && windows == [] && origin == r
    {
      haveBaseline, warmupRemaining := true, WARMUP_WINDOWS;
      previousCounter, previousTime := r.counter, r.time;
      origin, windows := r, [];
    }

    /**
      * `sample`: a number is the exact rounded rate of the window just closed, and only after another
      * window since the last baseline; a jump of the clock starts over.
      */
    method Sample(alive: bool, counter: Option<Word32>, now: Word64) returns (r: Option<int>)
      requires Valid()
      modifies this
      ensures Valid()
      ensures r.Some? <==>
                && old(Attached()) && alive && counter.Some? && old(haveBaseline) && old(windows) != []
                && var w := old(Pending(Reading(counter.value, now))); Complete(w) && Measured(w).Some?
      ensures r.Some? ==>
                var w := old(Pending(Reading(counter.value, now)));
                && windows == old(windows) + [w] && |windows| >= 2 && origin == old(origin)
                && r == Measured(w) && Delta(w) <= 390
      ensures Attached() ==> pid == old(pid) && counterAddress == old(counterAddress)
      ensures old(Attached()) && !(alive && counter.Some?) ==> !Attached() && windows == []
      ensures old(Attached()) && alive && counter.Some? ==>
                && Attached() && haveBaseline
                && (if !old(haveBaseline) then windows == [] && origin == Reading(counter.value, now) else
                    var w := old(Pending(Reading(counter.value, now)));
                    if Elapsed(w) <= 0 || Elapsed(w) > 3_000_000 then windows == [] && origin == w.end
                    else if Elapsed(w) < 200_000 then windows == old(windows) && origin == old(origin)
                    else windows == old(windows) + [w] && origin == old(origin))
      ensures failedPid == old(failedPid) && retryAfter == old(retryAfter)
    {
      if !Attached() {
        return None;
      }
      if !alive || counter.None? {
        Reset();
        return None;
      }
      var reading := Reading(counter.value, now);
      if !haveBaseline {
        Rebase(reading);
        return None;
      }
      if now <= previousTime || now - previousTime > MAX_WINDOW_US {
        Rebase(reading);
        return None;
      }
      var elapsed := now - previousTime;
      if elapsed < MIN_WINDOW_US {
        return None;
      }
      ghost var w := Pending(reading);
      var delta: Word32 := (counter.value - previousCounter) % TWO32;
      TilesOn(origin, windows, w);
      windows := windows + [w];
      previousCounter, previousTime := counter.value, now;
      if warmupRemaining != 0 {
        warmupRemaining := warmupRemaining - 1;
        return None;
      }
      r := MeasureWindow(delta, elapsed, w);
    }
  }
}
