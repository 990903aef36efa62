/** The display-engine sampler: a fixed counter word first, another one once it proves steady. */
module DceSampler {
  import opened Common
  import VideoOutSampler

  const WORDS: nat := 12
  const FIXED_WORD: nat := 1
  const MAX_INVALID: nat := 3
  const STEADY: int := 12

  type Rates = r: seq<nat> | |r| == WORDS witness seq(WORDS, _ => 0)

  /** Frames per second of one counter word as an exact quotient; zero when it is not a display rate. */
  function RateOf(before: Word64, after: Word64, elapsed: int): (fps: nat)
    requires elapsed > 0
    ensures fps <= VideoOutSampler.MAX_DISPLAY_FPS
  {
    if after < before then 0 else
    var x := (after - before) as real * 1000000.0 / elapsed as real;
    if x < 1.0 || x > 130.0 then 0 else Min(VideoOutSampler.RoundHalfUp(x), VideoOutSampler.MAX_DISPLAY_FPS)
  }

  /** The number is the frames over the time, rounded half up in whole numbers, from 1 to 130 per second. */
  lemma RateOfMeans(before: Word64, after: Word64, elapsed: int)
    requires elapsed > 0
    ensures RateOf(before, after, elapsed) != 0 <==>
              after >= before && elapsed <= (after - before) * 1000000 <= 130 * elapsed
    ensures var fps, p := RateOf(before, after, elapsed), (after - before) * 1000000;
            && (fps != 0 ==> fps * (2 * elapsed) <= 2 * p + elapsed)
            && (0 < fps < 120 ==> 2 * p + elapsed < (fps + 1) * (2 * elapsed))
  {
    if after >= before {
      var p := (after - before) * 1000000;
      var x := p as real / elapsed as real;
      assert (after - before) as real * 1000000.0 == p as real;
      VideoOutSampler.RealQuotient(p, elapsed, 1);
      AtMost(p, elapsed, 130);
      VideoOutSampler.HalfMore(p as real, elapsed as real);
      var r := VideoOutSampler.RoundHalfUp(x);
      assert (2 * p + elapsed) as real / (2 * elapsed) as real == x + 0.5;
      VideoOutSampler.RealQuotient(2 * p + elapsed, 2 * elapsed, r);
      VideoOutSampler.RealQuotient(2 * p + elapsed, 2 * elapsed, r + 1);
      if r > 120 {
        VideoOutSampler.Scaled(120, r, 2 * elapsed);
      }
    }
  }

  lemma AtMost(p: int, e: int, n: int)
    requires e > 0
    ensures p <= n * e <==> p as real / e as real <= n as real
  {
    var x := p as real / e as real;
    assert x * e as real == p as real;
    assert n as real * e as real == (n * e) as real;
  }

  ghost function RatesOf(before: seq<Word64>, after: seq<Word64>, elapsed: int): (r: Rates)
    requires |before| == |after| == WORDS && elapsed > 0
    ensures forall i :: 0 <= i < WORDS ==> r[i] == RateOf(before[i], after[i], elapsed)
  {
    seq(WORDS, i requires 0 <= i < WORDS => RateOf(before[i], after[i], elapsed))
  }

  /** `rates` are the rates of the words, looked up where a word is rated. */
  ghost predicate AreRates(rates: Rates, before: seq<Word64>, after: seq<Word64>, elapsed: int)
  {
    && |before| == |after| == WORDS && elapsed > 0
    && forall i {:trigger RateOf(before[i], after[i], elapsed)} :: 0 <= i < WORDS ==>
         rates[i] == RateOf(before[i], after[i], elapsed)
  }

  // ---------- Steadiness over the discovery passes ----------

  predicate Near(a: int, b: int)
  {
    Abs(a - b) <= 12
  }

  /** What a word showed in the last discovery pass. */
  ghost function LastRate(passes: seq<Rates>, i: nat): nat
    requires i < WORDS
  {
    if passes == [] then 0 else passes[|passes| - 1][i]
  }

  /** How long a word has been steady. */
  ghost function Streak(passes: seq<Rates>, i: nat): nat
    requires i < WORDS
  {
    if passes == [] || LastRate(passes, i) == 0 then 0 else
    var earlier := passes[..|passes| - 1];
    if LastRate(earlier, i) != 0 && Near(LastRate(earlier, i), LastRate(passes, i)) then Streak(earlier, i) + 1 else 1
  }

  /** The last `n` passes all rated the word, each within 12 of the one before. */
  ghost predicate Steady(passes: seq<Rates>, i: nat, n: nat)
    requires i < WORDS
  {
    && n <= |passes|
    && (forall k :: |passes| - n <= k < |passes| ==> passes[k][i] != 0)
    && (forall k :: |passes| - n <= k < |passes| - 1 ==> Near(passes[k][i], passes[k + 1][i]))
  }

  /** The streak counts exactly the steady passes. */
  lemma {:induction false} StreakIsSteadyRun(passes: seq<Rates>, i: nat, n: nat)
    requires i < WORDS && n >= 1
    ensures Streak(passes, i) >= n <==> Steady(passes, i, n)
    decreases |passes|
  {
    if passes != [] {
      var last := |passes| - 1;
      var earlier := passes[..last];
      if n == 1 {
        if Steady(passes, i, n) {
          assert passes[last][i] != 0;
        }
      } else {
        StreakIsSteadyRun(earlier, i, n - 1);
        SteadyGrows(passes, i, n);
        StreakOfZero(earlier, i);
      }
    }
  }

  lemma StreakOfZero(passes: seq<Rates>, i: nat)
    requires i < WORDS
    ensures LastRate(passes, i) == 0 <==> Streak(passes, i) == 0
  {
  }

  lemma SteadyGrows(passes: seq<Rates>, i: nat, n: nat)
    requires i < WORDS && n >= 2 && passes != []
    ensures Steady(passes, i, n) <==>
              && Steady(passes[..|passes| - 1], i, n - 1) && LastRate(passes, i) != 0
              && Near(LastRate(passes[..|passes| - 1], i), LastRate(passes, i))
  {
    var last := |passes| - 1;
    var earlier := passes[..last];
    if Steady(passes, i, n) {
      assert passes[last][i] != 0;
      assert Near(passes[last - 1][i], passes[last - 1 + 1][i]);
      forall k | last - (n - 1) <= k < last
        ensures earlier[k][i] != 0 && (k < last - 1 ==> Near(earlier[k][i], earlier[k + 1][i]))
      {
        assert passes[k][i] != 0;
        assert Near(passes[k][i], passes[k + 1][i]);
      }
    }
    if Steady(earlier, i, n - 1) && LastRate(passes, i) != 0 && Near(LastRate(earlier, i), LastRate(passes, i)) {
      forall k | last + 1 - n <= k < last
        ensures passes[k][i] != 0 && Near(passes[k][i], passes[k + 1][i])
      {
        assert earlier[k][i] != 0;
        if k < last - 1 {
          assert Near(earlier[k][i], earlier[k + 1][i]);
        }
      }
    }
  }

  ghost function Streaks(passes: seq<Rates>): (r: Rates)
    ensures forall i :: 0 <= i < WORDS ==> r[i] == Streak(passes, i)
  {
    seq(WORDS, i requires 0 <= i < WORDS => Streak(passes, i))
  }

  ghost function LastRates(passes: seq<Rates>): (r: Rates)
    ensures forall i :: 0 <= i < WORDS ==> r[i] == LastRate(passes, i)
  {
    seq(WORDS, i requires 0 <= i < WORDS => LastRate(passes, i))
  }

  function NextStreak(streak: nat, last: nat, rate: nat): nat
  {
    if rate == 0 then 0 else if last != 0 && Near(last, rate) then streak + 1 else 1
  }

  lemma OnePassMore(passes: seq<Rates>, rates: Rates)
    ensures LastRates(passes + [rates]) == rates
    ensures forall i :: 0 <= i < WORDS ==>
              Streaks(passes + [rates])[i] == NextStreak(Streaks(passes)[i], LastRates(passes)[i], rates[i])
  {
    var h := passes + [rates];
    assert h[..|h| - 1] == passes;
    forall i | 0 <= i < WORDS
      ensures LastRate(h, i) == rates[i]
      ensures Streak(h, i) == NextStreak(Streak(passes, i), LastRate(passes, i), rates[i])
    {
    }
  }

  /** Of the first `n` words, `best` has the longest streak of two or more, the lowest index on ties. */
  ghost predicate IsSteadiest(streaks: Rates, n: nat, best: int)
    requires n <= WORDS
  {
    if best < 0 then best == -1 && forall j :: 0 <= j < n ==> streaks[j] < 2
    else
      && best < n && streaks[best] >= 2
      && forall j :: 0 <= j < n ==> streaks[j] <= streaks[best] && (j < best ==> streaks[j] < streaks[best])
  }

  // ---------- The sampler ----------

  class DceCounterSampler {
    var haveBaseline: bool
    var warmupRemaining: nat
    const previousWords: array<Word64>
    var previousTime: Word64
    const streaks: array<nat>
    const lastRates: array<nat>
    var selectedWord: int
    var selectedInvalid: nat

    /** The rates of every discovery pass since the last reset. */
    ghost var passes: seq<Rates>

    ghost predicate Shape()
      reads this
    {
      && previousWords.Length == streaks.Length == lastRates.Length == WORDS && streaks != lastRates
      && -1 <= selectedWord < WORDS && selectedInvalid < MAX_INVALID
      && (selectedWord < 0 ==> selectedInvalid == 0)
    }

    ghost predicate Valid()
      reads this, streaks, lastRates
    {
      && Shape()
      && streaks[..] == Streaks(passes) && lastRates[..] == LastRates(passes)
    }

    constructor ()
      ensures Valid() && !haveBaseline && selectedWord == -1 && passes == []
      ensures fresh(previousWords) && fresh(streaks) && fresh(lastRates)
    {
      haveBaseline, warmupRemaining, previousTime := false, VideoOutSampler.WARMUP_WINDOWS, 0;
      previousWords := new Word64[WORDS](_ => 0);
      streaks := new nat[WORDS](_ => 0);
      lastRates := new nat[WORDS](_ => 0);
      selectedWord, selectedInvalid, passes := -1, 0, [];
    }

    method Reset()
      requires Shape()
      modifies this, previousWords, streaks, lastRates
      ensures Valid() && !haveBaseline && selectedWord == -1 && passes == []
      ensures warmupRemaining == VideoOutSampler.WARMUP_WINDOWS
    {
      haveBaseline, warmupRemaining, previousTime := false, VideoOutSampler.WARMUP_WINDOWS, 0;
      selectedWord, selectedInvalid, passes := -1, 0, [];
      forall i | 0 <= i < WORDS {
        previousWords[i] := 0;
      }
      forall i | 0 <= i < WORDS {
        streaks[i] := 0;
      }
      forall i | 0 <= i < WORDS {
        lastRates[i] := 0;
      }
    }

    method Rebase(words: seq<Word64>, now: Word64)
      requires |words| == previousWords.Length == WORDS
      modifies this`haveBaseline, this`previousTime, previousWords
      ensures haveBaseline && previousTime == now && previousWords[..] == words
    {
      haveBaseline, previousTime := true, now;
      forall i | 0 <= i < WORDS {
        previousWords[i] := words[i];
      }
    }

    /** What a discovery pass does to one word. */
    method Observe(i: nat, rate: nat)
      requires Shape() && i < WORDS
      modifies streaks, lastRates
      ensures streaks[i] == NextStreak(old(streaks[i]), old(lastRates[i]), rate) && lastRates[i] == rate
      ensures forall j :: 0 <= j < WORDS && j != i ==> streaks[j] == old(streaks[j]) && lastRates[j] == old(lastRates[j])
    {
      if rate == 0 {
        streaks[i], lastRates[i] := 0, 0;
        return;
      }
      if lastRates[i] != 0 && Abs(lastRates[i] - rate) <= STEADY {
        streaks[i] := streaks[i] + 1;
      } else {
        streaks[i] := 1;
      }
      lastRates[i] := rate;
    }

    /** `fps_for_word`. */
    method FpsForWord(i: nat, words: seq<Word64>, elapsed: int, ghost rates: Rates) returns (fps: nat)
      requires Shape() && i < WORDS && AreRates(rates, previousWords[..], words, elapsed)
      ensures fps == rates[i]
    {
      assert previousWords[i] == previousWords[..][i];
      fps := RateOf(previousWords[i], words[i], elapsed);
    }

    /** The loop of a discovery pass: `after` is where the streaks are going. */
    method ObserveAll(words: seq<Word64>, elapsed: int, ghost rates: Rates, ghost after: Rates)
        returns (best: int, fps: nat)
      requires Shape() && AreRates(rates, previousWords[..], words, elapsed)
      requires forall i :: 0 <= i < WORDS ==> after[i] == NextStreak(streaks[i], lastRates[i], rates[i])
      modifies streaks, lastRates
      ensures streaks[..] == after && lastRates[..] == rates
      ensures IsSteadiest(after, WORDS, best)
      ensures fps == if best >= 0 then rates[best] else 0
    {
      var bestStreak := 0;
      best, fps := -1, 0;
      for i := 0 to WORDS
        invariant forall j :: 0 <= j < i ==> streaks[j] == after[j] && lastRates[j] == rates[j]
        invariant forall j :: i <= j < WORDS ==> streaks[j] == old(streaks[j]) && lastRates[j] == old(lastRates[j])
        invariant IsSteadiest(after, i, best)
        invariant bestStreak == if best >= 0 then after[best] else 0
        invariant fps == if best >= 0 then rates[best] else 0
      {
        var rate := FpsForWord(i, words, elapsed, rates);
        Observe(i, rate);
        if rate != 0 && streaks[i] >= 2 && streaks[i] > bestStreak {
          bestStreak, best, fps := streaks[i], i, rate;
        }
      }
    }

    /** One discovery pass over all words. */
    method Discover(words: seq<Word64>, elapsed: int, ghost rates: Rates) returns (best: int, fps: nat)
      requires Valid() && AreRates(rates, previousWords[..], words, elapsed)
      modifies this`passes, streaks, lastRates
      ensures Valid() && passes == old(passes) + [rates]
      ensures IsSteadiest(Streaks(passes), WORDS, best)
      ensures fps == if best >= 0 then rates[best] else 0
    {
      OnePassMore(passes, rates);
      assert forall i :: 0 <= i < WORDS ==> streaks[..][i] == streaks[i] && lastRates[..][i] == lastRates[i];
      best, fps := ObserveAll(words, elapsed, rates, Streaks(passes + [rates]));
      passes := passes + [rates];
    }

    /**
      * One measured window. The fixed word wins; else the selected word, until its third invalid window;
      * else a discovery pass picks the steadiest word.
      */
    method Measure(words: seq<Word64>, elapsed: int, ghost rates: Rates) returns (fps: nat)
      requires Valid() && AreRates(rates, previousWords[..], words, elapsed)
      modifies this`selectedWord, this`selectedInvalid, this`passes, streaks, lastRates
      ensures Valid()
      ensures Measured(old(selectedWord), old(selectedInvalid), old(passes), rates, fps)
    {
      fps := FpsForWord(FIXED_WORD, words, elapsed, rates);
      if fps != 0 {
        selectedWord, selectedInvalid := FIXED_WORD, 0;
        return;
      }
      if selectedWord >= 0 {
        fps := FpsForWord(selectedWord, words, elapsed, rates);
        if fps == 0 {
          selectedInvalid := selectedInvalid + 1;
          if selectedInvalid >= MAX_INVALID {
            selectedWord, selectedInvalid := -1, 0;
          }
        } else {
          selectedInvalid := 0;
        }
      }
      if fps == 0 && selectedWord < 0 {
        var best, bestFps := Discover(words, elapsed, rates);
        if best >= 0 {
          selectedWord, fps := best, bestFps;
        }
      }
    }

    /** What one measured window makes of the selection and the passes. */
    ghost predicate Measured(word: int, invalid: nat, before: seq<Rates>, rates: Rates, fps: nat)
      requires -1 <= word < WORDS
      reads this
    {
      if rates[FIXED_WORD] != 0 then
        fps == rates[FIXED_WORD] && selectedWord == FIXED_WORD && selectedInvalid == 0 && passes == before
      else if word >= 0 && rates[word] != 0 then
        fps == rates[word] && selectedWord == word && selectedInvalid == 0 && passes == before
      else if word >= 0 && invalid + 1 < 3 then
        fps == 0 && selectedWord == word && selectedInvalid == invalid + 1 && passes == before
      else
        && passes == before + [rates] && IsSteadiest(Streaks(passes), WORDS, selectedWord) && selectedInvalid == 0
        && fps == if selectedWord >= 0 then rates[selectedWord] else 0
    }

    /** `sample`. */
    method Sample(words: seq<Word64>, now: Word64) returns (r: Option<int>)
      requires Valid() && |words| == WORDS
      modifies this, previousWords, streaks, lastRates
      ensures Valid() && haveBaseline
      ensures previousTime == if old(haveBaseline) && IsShort(old(previousTime), now) then old(previousTime) else now
      ensures previousWords[..] == if old(haveBaseline) && IsShort(old(previousTime), now) then old(previousWords[..]) else words
      ensures warmupRemaining ==
                (if !old(haveBaseline) || IsShort(old(previousTime), now) then old(warmupRemaining)
                 else if !IsWindow(old(previousTime), now) then VideoOutSampler.WARMUP_WINDOWS
                 else if old(warmupRemaining) > 0 then old(warmupRemaining) - 1 else 0)
      ensures r.Some? ==> 1 <= r.value <= 120
      ensures !old(haveBaseline) || IsShort(old(previousTime), now) || (IsWindow(old(previousTime), now) && old(warmupRemaining) > 0) ==>
                r.None? && passes == old(passes) && selectedWord == old(selectedWord) && selectedInvalid == old(selectedInvalid)
      ensures old(haveBaseline) && !IsShort(old(previousTime), now) && !IsWindow(old(previousTime), now) ==>
                r.None? && passes == [] && selectedWord == -1 && selectedInvalid == 0
      ensures old(haveBaseline) && IsWindow(old(previousTime), now) && old(warmupRemaining) == 0 ==>
                var rates := RatesOf(old(previousWords[..]), words, now - old(previousTime));
                Measured(old(selectedWord), old(selectedInvalid), old(passes), rates, if r.Some? then r.value else 0)
    {
      if !haveBaseline {
        Rebase(words, now);
        return None;
      }
      if now <= previousTime || now - previousTime > VideoOutSampler.MAX_WINDOW_US {
        Reset();
        Rebase(words, now);
        return None;
      }
      var elapsed := now - previousTime;
      if elapsed < VideoOutSampler.MIN_WINDOW_US {
        return None;
      }
      if warmupRemaining != 0 {
        warmupRemaining := warmupRemaining - 1;
        Rebase(words, now);
        return None;
      }
      var fps := Measure(words, elapsed, RatesOf(previousWords[..], words, elapsed));
      Rebase(words, now);
      r := if fps == 0 then None else Some(fps);
    }
  }

  predicate IsShort(before: Word64, now: Word64)
  {
    0 < now - before < 200_000
  }

  predicate IsWindow(before: Word64, now: Word64)
  {
    200_000 <= now - before <= 3_000_000
  }

  /** A word picked by discovery was valid and steady in its last two passes; no word was steady longer. */
  lemma PickedWordIsSteady(passes: seq<Rates>, word: nat, j: nat, n: nat)
    requires word < WORDS && j < WORDS && n >= 1 && IsSteadiest(Streaks(passes), WORDS, word)
    ensures Steady(passes, word, 2)
    ensures Steady(passes, j, n) ==> Steady(passes, word, n)
    ensures j < word && n >= 2 && Steady(passes, j, n) ==> Steady(passes, word, n + 1)
  {
    StreakIsSteadyRun(passes, word, 2);
    StreakIsSteadyRun(passes, j, n);
    StreakIsSteadyRun(passes, word, n);
    StreakIsSteadyRun(passes, word, n + 1);
  }

  /** When no word is picked, none was steady over the last two passes. */
  lemma NothingPicked(passes: seq<Rates>, j: nat)
    requires j < WORDS && IsSteadiest(Streaks(passes), WORDS, -1)
    ensures !Steady(passes, j, 2)
  {
    StreakIsSteadyRun(passes, j, 2);
  }
}
