/** The presentation filter: settles at start, follows drops at once, confirms rises. */
module DisplayFilter {
  import opened Common

  const MAX_DISPLAY_FPS: int := 120
  const MAX_WINDOW_US: int := 3_000_000
  const STARTUP_US: int := 5_000_000
  const RISE_US: int := 2_000_000

  datatype Source = NoSource | VideoOut | DceFixed | DceAdaptive | SharedHen
  datatype Sample = Sample(value: int, time: int)

  // ---------- Specification over the whole history of an epoch ----------

  /** The middle of three values, as sorting would put it. */
  function Median(a: int, b: int, c: int): (m: int)
    ensures m == a || m == b || m == c
    ensures (m >= a && m >= b) || (m >= a && m >= c) || (m >= b && m >= c)
    ensures (m <= a && m <= b) || (m <= a && m <= c) || (m <= b && m <= c)
  {
    Max(Min(a, b), Min(Max(a, b), c))
  }

  function LastThree(h: seq<Sample>): int
    requires |h| >= 3
  {
    Median(h[|h| - 3].value, h[|h| - 2].value, h[|h| - 1].value)
  }

  /** `accepted`: the last three accepted values; `elevated`: the samples awaiting confirmation. */
  datatype View =
    | Settling
    | Showing(accepted: (int, int, int), elevated: seq<Sample>, shown: int)

  function Reference(accepted: (int, int, int)): int
  {
    Max(accepted.0, Max(accepted.1, accepted.2))
  }

  /** The largest value shown without confirmation. */
  function Threshold(accepted: (int, int, int)): int
  {
    Reference(accepted) + Max(8, Reference(accepted) / 5)
  }

  /** One more sample while a number is shown. */
  function Follow(v: View, s: Sample): View
    requires v.Showing?
  {
    if s.value > Threshold(v.accepted) then
      var pending := v.elevated + [s];
      if |pending| < 3 || s.time - pending[0].time < RISE_US then v.(elevated := pending)
      else var m := LastThree(pending); Showing((m, m, m), [], m)
    else Showing((v.accepted.1, v.accepted.2, s.value), [], s.value)
  }

  /** One more sample, after those of `h`. */
  function NextView(h: seq<Sample>, v: View, s: Sample): View
  {
    var all := h + [s];
    if v.Showing? then Follow(v, s)
    else if s.time - all[0].time < STARTUP_US || |all| < 3 then Settling
    else var m := LastThree(all); Showing((m, m, m), [], m)
  }

  /** What the filter shows after the samples of an epoch, in order. */
  function ViewOf(h: seq<Sample>): View
  {
    if h == [] then Settling
    else NextView(h[..|h| - 1], ViewOf(h[..|h| - 1]), h[|h| - 1])
  }

  lemma FirstView(s: Sample)
    ensures [] + [s] == [s] && ViewOf([s]) == NextView([], Settling, s)
  {
    assert [s][..0] == [];
  }

  lemma ViewAfter(h: seq<Sample>, s: Sample)
    ensures ViewOf(h + [s]) == NextView(h, ViewOf(h), s)
  {
    assert (h + [s])[..|h|] == h;
  }

  /** The samples since the last loss of context. */
  datatype Epoch = NoEpoch | Epoch(pid: int, source: Source, history: seq<Sample>)

  function Shown(e: Epoch): Option<int>
  {
    if e.Epoch? && ViewOf(e.history).Showing? then Some(ViewOf(e.history).shown) else None
  }

  datatype Input = Input(measured: Option<int>, now: int, pid: int, source: Source)

  predicate Usable(i: Input)
  {
    i.pid > 0 && i.source != NoSource && i.measured.Some? && 0 <= i.measured.value <= 120
  }

  predicate Continues(e: Epoch, i: Input)
  {
    && e.Epoch? && e.history != [] && i.pid == e.pid && i.source == e.source
    && 0 <= i.now - e.history[|e.history| - 1].time <= 3_000_000
  }

  function NextEpoch(e: Epoch, i: Input): Epoch
  {
    if !Usable(i) then NoEpoch
    else if !Continues(e, i) then Epoch(i.pid, i.source, [Sample(i.measured.value, i.now)])
    else if i.now == e.history[|e.history| - 1].time then e
    else e.(history := e.history + [Sample(i.measured.value, i.now)])
  }

  // ---------- The filter ----------

  /** `ring` holds the values of the last `min(3, |h|)` samples, each at its index modulo three. */
  ghost predicate RingHolds(ring: seq<int>, h: seq<Sample>)
  {
    |ring| == 3 && forall k :: 0 <= k < |h| && |h| - 3 <= k ==> ring[k % 3] == h[k].value
  }

  lemma RingMedian(ring: seq<int>, h: seq<Sample>)
    requires RingHolds(ring, h) && |h| >= 3
    ensures Median(ring[0], ring[1], ring[2]) == LastThree(h)
  {
    var n := |h|;
    assert ring[(n - 3) % 3] == h[n - 3].value && ring[(n - 2) % 3] == h[n - 2].value
           && ring[(n - 1) % 3] == h[n - 1].value;
  }

  lemma RingAdvances(ring: seq<int>, h: seq<Sample>, s: Sample)
    requires RingHolds(ring, h)
    ensures RingHolds(ring[|h| % 3 := s.value], h + [s])
  {
  }

  class FpsDisplayFilter {
    var haveEpoch: bool
    var pid: int
    var source: Source
    var started: int
    var previous: int
    var elevatedSince: int
    var displayed: Option<int>
    const recent: array<int>
    const accepted: array<int>
    const elevated: array<int>
    var recentCount: nat
    var recentCursor: nat
    var acceptedCursor: nat
    var elevatedCount: nat
    var elevatedCursor: nat

    ghost var epoch: Epoch

    ghost predicate Shape()
      reads this
    {
      && recent.Length == accepted.Length == elevated.Length == 3
      && recent != accepted && recent != elevated && accepted != elevated
      && recentCursor < 3 && acceptedCursor < 3 && elevatedCursor < 3
    }

    ghost predicate Idle()
      reads this
    {
      && !haveEpoch && pid == -1 && source == NoSource && displayed == None
      && recentCount == recentCursor == acceptedCursor == elevatedCount == elevatedCursor == 0
    }

    /** The accepted ring, oldest value first. */
    function AcceptedInOrder(): (int, int, int)
      requires Shape()
      reads this, accepted
    {
      (accepted[acceptedCursor], accepted[(acceptedCursor + 1) % 3], accepted[(acceptedCursor + 2) % 3])
    }

    ghost predicate HoldsSettling(h: seq<Sample>)
      reads this, recent
    {
      && displayed == None && RingHolds(recent[..], h)
      && recentCursor == |h| % 3 && recentCount == Min(3, |h|)
      && elevatedCount == elevatedCursor == 0
    }

    ghost predicate HoldsShowing(v: View)
      requires Shape()
      reads this, accepted, elevated
    {
      && v.Showing? && displayed == Some(v.shown) && v.accepted == AcceptedInOrder()
      && RingHolds(elevated[..], v.elevated)
      && elevatedCursor == |v.elevated| % 3 && elevatedCount == Min(3, |v.elevated|)
      && (v.elevated != [] ==> elevatedSince == v.elevated[0].time)
    }

    ghost predicate Represents(h: seq<Sample>, v: View)
      requires Shape()
      reads this, recent, accepted, elevated
    {
      && h != [] && started == h[0].time && previous == h[|h| - 1].time
      && if v.Settling? then HoldsSettling(h) else HoldsShowing(v)
    }

    ghost predicate Valid()
      reads this, recent, accepted, elevated
    {
      && Shape()
      && (epoch.NoEpoch? ==> Idle())
      && (epoch.Epoch? ==>
            && haveEpoch && pid == epoch.pid && source == epoch.source
            && Represents(epoch.history, ViewOf(epoch.history)))
    }

    constructor ()
      ensures Valid() && epoch == NoEpoch
      ensures fresh(recent) && fresh(accepted) && fresh(elevated)
    {
      recent, accepted, elevated := new int[3](_ => 0), new int[3](_ => 0), new int[3](_ => 0);
      haveEpoch, pid, source, displayed := false, -1, NoSource, None;
      started, previous, elevatedSince := 0, 0, 0;
      recentCount, recentCursor, acceptedCursor, elevatedCount, elevatedCursor := 0, 0, 0, 0, 0;
      epoch := NoEpoch;
    }

    method Reset()
      requires Shape()
      modifies this, recent, accepted, elevated
      ensures Valid() && epoch == NoEpoch && HoldsSettling([])
    {
      ClearRings();
      haveEpoch, pid, source, displayed := false, -1, NoSource, None;
      started, previous, elevatedSince := 0, 0, 0;
      recentCount, recentCursor, acceptedCursor, elevatedCount, elevatedCursor := 0, 0, 0, 0, 0;
      epoch := NoEpoch;
    }

    method ClearRings()
      modifies recent, accepted, elevated
      ensures forall k :: 0 <= k < recent.Length ==> recent[k] == 0
      ensures forall k :: 0 <= k < accepted.Length ==> accepted[k] == 0
      ensures forall k :: 0 <= k < elevated.Length ==> elevated[k] == 0
    {
      Fill(recent, 0);
      Fill(accepted, 0);
      Fill(elevated, 0);
    }

    method Fill(ring: array<int>, value: int)
      modifies ring
      ensures forall k :: 0 <= k < ring.Length ==> ring[k] == value
    {
      forall k | 0 <= k < ring.Length {
        ring[k] := value;
      }
    }

    /** The settling branch of `sample`: shows the median of three once five seconds are over. */
    method Settle(value: int, now: int, ghost h: seq<Sample>)
      requires Shape() && HoldsSettling(h)
      modifies this`displayed, this`recentCursor, this`recentCount, recent, accepted
      ensures Shape()
      ensures var h' := h + [Sample(value, now)];
              if now - started < STARTUP_US || |h'| < 3 then HoldsSettling(h')
              else HoldsShowing(Showing((LastThree(h'), LastThree(h'), LastThree(h')), [], LastThree(h')))
    {
      RingAdvances(recent[..], h, Sample(value, now));
      recent[recentCursor] := value;
      recentCursor := (recentCursor + 1) % 3;
      recentCount := Min(3, recentCount + 1);
      if now - started < STARTUP_US || recentCount < 3 {
        return;
      }
      RingMedian(recent[..], h + [Sample(value, now)]);
      displayed := Some(Median(recent[0], recent[1], recent[2]));
      Fill(accepted, displayed.value);
    }

    /** A value beyond the threshold waits in the elevated ring until it is confirmed. */
    method Elevate(value: int, now: int, ghost v: View)
      requires Shape() && HoldsShowing(v) && value > Threshold(v.accepted)
      modifies this`displayed, this`elevatedSince, this`elevatedCursor, this`elevatedCount
      modifies this`acceptedCursor, accepted, elevated
      ensures Shape() && HoldsShowing(Follow(v, Sample(value, now)))
    {
      ghost var pending := v.elevated + [Sample(value, now)];
      PushElevated(value, now, v.elevated);
      if elevatedCount < 3 || now - elevatedSince < RISE_US {
        return;
      }
      RingMedian(elevated[..], pending);
      displayed := Some(Median(elevated[0], elevated[1], elevated[2]));
      Fill(accepted, displayed.value);
      acceptedCursor, elevatedCount, elevatedCursor := 0, 0, 0;
    }

    method PushElevated(value: int, now: int, ghost pending: seq<Sample>)
      requires Shape() && RingHolds(elevated[..], pending)
      requires elevatedCursor == |pending| % 3 && elevatedCount == Min(3, |pending|)
      requires pending != [] ==> elevatedSince == pending[0].time
      modifies this`elevatedSince, this`elevatedCursor, this`elevatedCount, elevated
      ensures RingHolds(elevated[..], pending + [Sample(value, now)])
      ensures elevatedCursor == (|pending| + 1) % 3 && elevatedCount == Min(3, |pending| + 1)
      ensures elevatedSince == (pending + [Sample(value, now)])[0].time
    {
      RingAdvances(elevated[..], pending, Sample(value, now));
      if elevatedCount == 0 {
        elevatedSince := now;
      }
      elevated[elevatedCursor] := value;
      elevatedCursor := (elevatedCursor + 1) % 3;
      elevatedCount := Min(3, elevatedCount + 1);
    }

    /** Any other value is shown at once and becomes the newest accepted one. */
    method Accept(value: int, ghost v: View, ghost now: int)
      requires Shape() && HoldsShowing(v) && value <= Threshold(v.accepted)
      modifies this`displayed, this`elevatedCursor, this`elevatedCount, this`acceptedCursor, accepted
      ensures Shape() && HoldsShowing(Follow(v, Sample(value, now)))
    {
      displayed := Some(value);
      accepted[acceptedCursor] := value;
      acceptedCursor := (acceptedCursor + 1) % 3;
      elevatedCount, elevatedCursor := 0, 0;
    }

    /** What follows the argument checks, the epoch checks and the timestamp check. */
    method Advance(value: int, now: int, ghost h: seq<Sample>, ghost v: View)
      requires Shape() && haveEpoch
      requires h == [] ==> v.Settling? && HoldsSettling(h) && started == now
      requires h != [] ==> Represents(h, v)
      modifies this, recent, accepted, elevated
      ensures Shape() && Represents(h + [Sample(value, now)], NextView(h, v, Sample(value, now)))
      ensures haveEpoch && pid == old(pid) && source == old(source) && epoch == old(epoch)
    {
      previous := now;
      if displayed.None? {
        Settle(value, now, h);
      } else {
        var reference := Max(accepted[0], Max(accepted[1], accepted[2]));
        if value > reference + Max(8, reference / 5) {
          Elevate(value, now, v);
        } else {
          Accept(value, v, now);
        }
      }
    }

    /** A new epoch: nothing of the old one is kept. */
    method Begin(newPid: int, newSource: Source, value: int, now: int)
      requires Shape()
      modifies this, recent, accepted, elevated
      ensures Valid() && epoch == Epoch(newPid, newSource, [Sample(value, now)])
    {
      Reset();
      haveEpoch, pid, source, started, previous := true, newPid, newSource, now, now;
      Advance(value, now, [], Settling);
      FirstView(Sample(value, now));
      epoch := Epoch(newPid, newSource, [Sample(value, now)]);
    }

    method Continue(value: int, now: int)
      requires Valid() && epoch.Epoch?
      modifies this, recent, accepted, elevated
      ensures Valid() && epoch == old(epoch).(history := old(epoch.history) + [Sample(value, now)])
    {
      ghost var h := epoch.history;
      Advance(value, now, h, ViewOf(h));
      ViewAfter(h, Sample(value, now));
      epoch := epoch.(history := h + [Sample(value, now)]);
    }

    /** `sample`: the rings compute exactly what the epoch's whole history determines. */
    method TakeSample(input: Input) returns (result: Option<int>)
      requires Valid()
      modifies this, recent, accepted, elevated
      ensures Valid() && epoch == NextEpoch(old(epoch), input)
      ensures result == Shown(epoch)
    {
      if input.pid <= 0 || input.source == NoSource || input.measured.None? ||
         input.measured.value < 0 || input.measured.value > MAX_DISPLAY_FPS {
        Reset();
        return None;
      }
      var value, now := input.measured.value, input.now;
      if !haveEpoch || input.pid != pid || input.source != source ||
         now < previous || now - previous > MAX_WINDOW_US {
        Begin(input.pid, input.source, value, now);
      } else if now != previous {
        Continue(value, now);
      }
      result := displayed;
    }
  }

  // ---------- Every number shown is the current game's own measurement ----------

  function EpochAfter(inputs: seq<Input>): Epoch
  {
    if inputs == [] then NoEpoch else NextEpoch(EpochAfter(inputs[..|inputs| - 1]), inputs[|inputs| - 1])
  }

  /** From input `k` on, nothing but usable samples of one game and one source. */
  ghost predicate OneContext(inputs: seq<Input>, k: nat)
  {
    && k < |inputs|
    && forall j :: k <= j < |inputs| ==>
         Usable(inputs[j]) && inputs[j].pid == inputs[k].pid && inputs[j].source == inputs[k].source
  }

  /** `e` began at input `k` and holds nothing but measurements taken since. */
  ghost predicate BeganAt(e: Epoch, inputs: seq<Input>, k: nat)
  {
    && e.Epoch? && e.history != [] && OneContext(inputs, k)
    && e.pid == inputs[k].pid && e.source == inputs[k].source
    && e.history[0] == Sample(inputs[k].measured.value, inputs[k].now)
    && e.history[|e.history| - 1].time == inputs[|inputs| - 1].now
    && (forall i :: 0 <= i < |e.history| ==> TakenSince(e.history[i], inputs, k))
    && Increasing(e.history)
  }

  ghost predicate TakenSince(s: Sample, inputs: seq<Input>, k: nat)
  {
    exists j :: k <= j < |inputs| && inputs[j].measured.Some? && s == Sample(inputs[j].measured.value, inputs[j].now)
  }

  lemma TakenSinceExtends(s: Sample, inputs: seq<Input>, n: nat, k: nat)
    requires n <= |inputs| && TakenSince(s, inputs[..n], k)
    ensures TakenSince(s, inputs, k)
  {
    var j :| k <= j < n && inputs[..n][j].measured.Some?
             && s == Sample(inputs[..n][j].measured.value, inputs[..n][j].now);
    assert inputs[j].measured.Some? && s == Sample(inputs[j].measured.value, inputs[j].now);
  }

  lemma ContextExtends(before: Epoch, inputs: seq<Input>, k: nat)
    requires inputs != [] && BeganAt(before, inputs[..|inputs| - 1], k)
    requires Usable(inputs[|inputs| - 1]) && Continues(before, inputs[|inputs| - 1])
    ensures BeganAt(NextEpoch(before, inputs[|inputs| - 1]), inputs, k)
  {
    var n, last := |inputs| - 1, inputs[|inputs| - 1];
    var e, now := NextEpoch(before, last), Sample(last.measured.value, last.now);
    assert forall j :: k <= j < n ==> inputs[..n][j] == inputs[j];
    assert OneContext(inputs, k);
    IncreasingAfter(before.history, now);
    forall i | 0 <= i < |e.history| ensures TakenSince(e.history[i], inputs, k) {
      if i < |before.history| {
        TakenSinceExtends(before.history[i], inputs, n, k);
      } else {
        assert inputs[n].measured.Some? && e.history[i] == Sample(inputs[n].measured.value, inputs[n].now);
      }
    }
  }

  lemma {:induction false} EpochBegan(inputs: seq<Input>) returns (k: nat)
    requires EpochAfter(inputs).Epoch?
    ensures BeganAt(EpochAfter(inputs), inputs, k)
  {
    var n := |inputs| - 1;
    var before, last := EpochAfter(inputs[..n]), inputs[n];
    var now := Sample(last.measured.value, last.now);
    assert inputs[n].measured.Some? && now == Sample(inputs[n].measured.value, inputs[n].now);
    if Continues(before, last) {
      k := EpochBegan(inputs[..n]);
      ContextExtends(before, inputs, k);
    } else {
      k := n;
      IncreasingAfter([], now);
    }
  }

  predicate Later(h: seq<Sample>, s: Sample)
  {
    h == [] || h[|h| - 1].time < s.time
  }

  /** Sample times strictly increase. */
  predicate Increasing(h: seq<Sample>)
  {
    h == [] || (Increasing(h[..|h| - 1]) && Later(h[..|h| - 1], h[|h| - 1]))
  }

  lemma IncreasingAfter(h: seq<Sample>, s: Sample)
    ensures Increasing(h + [s]) <==> Increasing(h) && Later(h, s)
  {
    assert (h + [s])[..|h|] == h;
  }

  ghost predicate ValueOf(h: seq<Sample>, value: int)
  {
    exists i :: 0 <= i < |h| && h[i].value == value
  }

  /** Accepted values are values of the history; the newest is on display. */
  ghost predicate AcceptedFrom(h: seq<Sample>, v: View)
  {
    v.Showing? ==>
      && ValueOf(h, v.accepted.0) && ValueOf(h, v.accepted.1) && ValueOf(h, v.accepted.2)
      && v.shown == v.accepted.2
  }

  /** The pending samples are the newest of the history, all beyond the threshold. */
  ghost predicate PendingFrom(h: seq<Sample>, v: View)
  {
    v.Showing? ==>
      && |h| >= 3 && h[|h| - 1].time - h[0].time >= 5_000_000
      && |v.elevated| <= |h| && v.elevated == h[|h| - |v.elevated|..]
      && (v.elevated != [] ==> v.elevated[0].time <= h[|h| - 1].time)
      && forall i :: 0 <= i < |v.elevated| ==> v.elevated[i].value > Threshold(v.accepted)
  }

  lemma ValueOfExtends(h: seq<Sample>, s: Sample, value: int)
    requires ValueOf(h, value)
    ensures ValueOf(h + [s], value)
  {
    var i :| 0 <= i < |h| && h[i].value == value;
    assert (h + [s])[i].value == value;
  }

  lemma LastThreeIsValue(h: seq<Sample>)
    requires |h| >= 3
    ensures ValueOf(h, LastThree(h))
  {
    var n, m := |h|, LastThree(h);
    assert h[n - 3].value == m || h[n - 2].value == m || h[n - 1].value == m;
  }

  lemma FollowKeepsAccepted(h: seq<Sample>, v: View, s: Sample)
    requires v.Showing? && AcceptedFrom(h, v) && PendingFrom(h, v)
    ensures AcceptedFrom(h + [s], Follow(v, s))
  {
    var all, pending := h + [s], v.elevated + [s];
    assert all[|h|].value == s.value;
    ValueOfExtends(h, s, v.accepted.0);
    ValueOfExtends(h, s, v.accepted.1);
    ValueOfExtends(h, s, v.accepted.2);
    if |pending| >= 3 {
      LastThreeIsValue(all);
      assert pending[|pending| - 3] == all[|all| - 3] && pending[|pending| - 2] == all[|all| - 2];
      assert LastThree(pending) == LastThree(all);
    }
  }

  lemma SuffixExtends(h: seq<Sample>, s: Sample, e: seq<Sample>)
    requires |e| <= |h| && e == h[|h| - |e|..]
    ensures e + [s] == (h + [s])[|h| - |e|..]
  {
  }

  lemma FollowKeepsPending(h: seq<Sample>, v: View, s: Sample)
    requires v.Showing? && PendingFrom(h, v) && Later(h, s)
    ensures PendingFrom(h + [s], Follow(v, s))
  {
    var all := h + [s];
    assert all[0] == h[0] && all[|h|] == s;
    if Follow(v, s).elevated != [] {
      SuffixExtends(h, s, v.elevated);
    }
  }

  lemma {:induction false} ViewIsWellFormed(h: seq<Sample>)
    requires Increasing(h)
    ensures AcceptedFrom(h, ViewOf(h)) && PendingFrom(h, ViewOf(h))
  {
    if h != [] {
      var n := |h| - 1;
      ViewIsWellFormed(h[..n]);
      assert h == h[..n] + [h[n]];
      if ViewOf(h[..n]).Showing? {
        FollowKeepsAccepted(h[..n], ViewOf(h[..n]), h[n]);
        FollowKeepsPending(h[..n], ViewOf(h[..n]), h[n]);
      } else if ViewOf(h).Showing? {
        LastThreeIsValue(h);
      }
    }
  }

  /**
   Input `i` measured the value, for the game and source of the newest input, with nothing else sampled
   since input `k`, at least five seconds before the newest.
   */
  ghost predicate IsOwnMeasurement(inputs: seq<Input>, k: nat, i: nat, value: int)
  {
    && k <= i < |inputs| && OneContext(inputs, k) && inputs[i].measured == Some(value)
    && inputs[|inputs| - 1].now - inputs[k].now >= 5_000_000
  }

  /** A number on display is a raw measurement of the game and source that are being measured. */
  lemma ShownIsOwnMeasurement(inputs: seq<Input>, value: int)
    requires Shown(EpochAfter(inputs)) == Some(value)
    ensures exists k, i :: IsOwnMeasurement(inputs, k, i, value)
  {
    var k := EpochBegan(inputs);
    var h := EpochAfter(inputs).history;
    ViewIsWellFormed(h);
    assert ValueOf(h, ViewOf(h).accepted.2);
    var j :| 0 <= j < |h| && h[j].value == value;
    assert TakenSince(h[j], inputs, k);
    var i :| k <= i < |inputs| && inputs[i].measured.Some? && h[j] == Sample(inputs[i].measured.value, inputs[i].now);
    assert IsOwnMeasurement(inputs, k, i, value);
  }

  // ---------- Rises are confirmed ----------

  /** The last `n` samples all exceeded the threshold, for at least two seconds. */
  ghost predicate SustainedRise(h: seq<Sample>, n: nat, threshold: int)
  {
    && 3 <= n <= |h| && h[|h| - 1].time - h[|h| - n].time >= 2_000_000
    && forall i :: |h| - n <= i < |h| ==> h[i].value > threshold
  }

  lemma OnlyConfirmationRaises(v: View, s: Sample)
    requires v.Showing? && v.shown == v.accepted.2 && Follow(v, s).shown > Threshold(v.accepted)
    ensures s.value > Threshold(v.accepted) && |v.elevated| >= 2
    ensures s.time - v.elevated[0].time >= RISE_US
    ensures Follow(v, s).shown == LastThree(v.elevated + [s])
  {
  }

  /**
   A new sample raises the shown value beyond the threshold only if it completes a sustained rise
   of consecutive samples at distinct times, and then to the median of the last three.
   */
  lemma RiseIsSustained(h: seq<Sample>, s: Sample) returns (n: nat)
    requires Increasing(h) && Later(h, s) && ViewOf(h).Showing? && ViewOf(h + [s]).Showing?
    requires ViewOf(h + [s]).shown > Threshold(ViewOf(h).accepted)
    ensures SustainedRise(h + [s], n, Threshold(ViewOf(h).accepted))
    ensures ViewOf(h + [s]).shown == LastThree(h + [s])
  {
    var v, all := ViewOf(h), h + [s];
    ViewIsWellFormed(h);
    ViewAfter(h, s);
    OnlyConfirmationRaises(v, s);
    var pending := v.elevated + [s];
    n := |pending|;
    assert pending == all[|all| - n..];
    forall i | |all| - n <= i < |all| ensures all[i].value > Threshold(v.accepted) {
      assert all[i] == pending[i - (|all| - n)];
    }
  }

  /** Drops, recoveries and small rises are shown at once. */
  lemma BelowThresholdIsImmediate(h: seq<Sample>, s: Sample)
    requires ViewOf(h).Showing? && s.value <= Threshold(ViewOf(h).accepted)
    ensures ViewOf(h + [s]).Showing? && ViewOf(h + [s]).shown == s.value
  {
    ViewAfter(h, s);
  }

  /** More than 8 above `x`, and more than a fifth of it. */
  predicate FarAbove(value: int, x: int)
  {
    value > x + 8 && 5 * (value - x) > x
  }

  /** Far above each of the last three accepted values. */
  predicate Leaps(value: int, accepted: (int, int, int))
  {
    FarAbove(value, accepted.0) && FarAbove(value, accepted.1) && FarAbove(value, accepted.2)
  }

  /** The last `n` samples, three or more over two seconds, all leap above the accepted values. */
  ghost predicate LeapsFor(h: seq<Sample>, n: nat, accepted: (int, int, int))
  {
    && 3 <= n <= |h| && h[|h| - 1].time - h[|h| - n].time >= 2_000_000
    && forall i :: |h| - n <= i < |h| ==> Leaps(h[i].value, accepted)
  }

  lemma ThresholdIsLeap(value: int, accepted: (int, int, int))
    ensures value > Threshold(accepted) <==> Leaps(value, accepted)
  {
  }

  /** A value that is not far above some accepted one is shown at once, and is the next accepted one. */
  lemma SmallRiseIsImmediate(h: seq<Sample>, s: Sample)
    requires ViewOf(h).Showing? && !Leaps(s.value, ViewOf(h).accepted)
    ensures var v, v' := ViewOf(h), ViewOf(h + [s]);
            v'.Showing? && v'.shown == s.value && v'.elevated == [] && v'.accepted == (v.accepted.1, v.accepted.2, s.value)
  {
    ThresholdIsLeap(s.value, ViewOf(h).accepted);
    ViewAfter(h, s);
  }

  lemma PendingLeap(h: seq<Sample>, s: Sample)
    requires Increasing(h) && ViewOf(h).Showing? && Leaps(s.value, ViewOf(h).accepted)
    ensures var all, pending := h + [s], ViewOf(h).elevated + [s];
            && |pending| <= |all| && pending == all[|all| - |pending|..]
            && forall i :: |all| - |pending| <= i < |all| ==> Leaps(all[i].value, ViewOf(h).accepted)
  {
    var v, all, pending := ViewOf(h), h + [s], ViewOf(h).elevated + [s];
    ViewIsWellFormed(h);
    assert pending == all[|all| - |pending|..];
    forall i | |all| - |pending| <= i < |all| ensures Leaps(all[i].value, v.accepted) {
      assert all[i] == pending[i - (|all| - |pending|)];
      ThresholdIsLeap(all[i].value, v.accepted);
    }
  }

  /** A leap that does not complete three or more of them over two seconds leaves what is shown and accepted. */
  lemma LeapWaits(h: seq<Sample>, s: Sample)
    requires Increasing(h) && ViewOf(h).Showing? && Leaps(s.value, ViewOf(h).accepted)
    requires forall n :: !LeapsFor(h + [s], n, ViewOf(h).accepted)
    ensures var v, v' := ViewOf(h), ViewOf(h + [s]);
            v'.Showing? && v'.shown == v.shown && v'.accepted == v.accepted && v'.elevated == v.elevated + [s]
  {
    PendingLeap(h, s);
    ThresholdIsLeap(s.value, ViewOf(h).accepted);
    ViewAfter(h, s);
    assert !LeapsFor(h + [s], |ViewOf(h).elevated| + 1, ViewOf(h).accepted);
  }

  /** A leap that completes them shows the middle of the last three, which becomes all that is accepted. */
  lemma LeapConfirms(h: seq<Sample>, s: Sample)
    requires Increasing(h) && ViewOf(h).Showing? && Leaps(s.value, ViewOf(h).accepted)
    requires |ViewOf(h).elevated| >= 2 && s.time - ViewOf(h).elevated[0].time >= 2_000_000
    ensures var all, v' := h + [s], ViewOf(h + [s]);
            && |all| >= 3 && v'.Showing? && v'.elevated == []
            && var m := Median(all[|all| - 3].value, all[|all| - 2].value, all[|all| - 1].value);
            v'.shown == m && v'.accepted == (m, m, m)
  {
    PendingLeap(h, s);
    ThresholdIsLeap(s.value, ViewOf(h).accepted);
    ViewAfter(h, s);
  }

  /** Nothing is shown until five seconds and three samples are over; then the middle of the last three. */
  lemma StartupEnds(h: seq<Sample>, s: Sample)
    requires ViewOf(h).Settling?
    ensures var all := h + [s];
            && (ViewOf(all).Showing? <==> |all| >= 3 && s.time - all[0].time >= 5_000_000)
            && (ViewOf(all).Showing? ==>
                  ViewOf(all).shown == Median(all[|all| - 3].value, all[|all| - 2].value, all[|all| - 1].value))
  {
    ViewAfter(h, s);
  }

  // ---------- Convergence ----------

  /** Samples of one value at the given times. */
  function Constant(value: int, times: seq<int>): (h: seq<Sample>)
    ensures |h| == |times| && forall i :: 0 <= i < |h| ==> h[i] == Sample(value, times[i])
  {
    seq(|times|, i requires 0 <= i < |times| => Sample(value, times[i]))
  }

  predicate Converged(v: View, value: int)
  {
    && v.Showing? && v.shown == value && v.elevated == []
    && (value == v.accepted.0 || value == v.accepted.1 || value == v.accepted.2)
  }

  /** Not there yet: at least `n` samples of the value wait, the oldest since `since` or earlier. */
  ghost predicate Awaiting(v: View, value: int, n: nat, since: int, now: int)
  {
    && v.Showing? && value > Threshold(v.accepted) && |v.elevated| >= n >= 1
    && (forall i :: |v.elevated| - n <= i < |v.elevated| ==> v.elevated[i].value == value)
    && v.elevated[0].time <= since
    && (|v.elevated| < 3 || now - v.elevated[0].time < RISE_US)
  }

  lemma ConvergedStays(v: View, s: Sample)
    requires Converged(v, s.value)
    ensures Converged(Follow(v, s), s.value)
  {
  }

  lemma AwaitingGoesOn(v: View, s: Sample, n: nat, since: int, now: int)
    requires Awaiting(v, s.value, n, since, now)
    ensures Converged(Follow(v, s), s.value) || Awaiting(Follow(v, s), s.value, n + 1, since, s.time)
  {
    var pending := v.elevated + [s];
    assert forall i :: |pending| - (n + 1) <= i < |pending| ==> pending[i].value == s.value;
  }

  /** After two samples of a value the filter shows it or is confirming nothing else. */
  lemma TwoSamples(v: View, a: Sample, b: Sample)
    requires v.Showing? && a.value == b.value && a.time < b.time
    requires v.elevated != [] ==> v.elevated[0].time <= a.time
    ensures var f := Follow(Follow(v, a), b);
            Converged(f, b.value) || Awaiting(f, b.value, 1, b.time, b.time)
  {
    var f := Follow(v, a);
    if a.value > Threshold(v.accepted) && f.elevated != [] {
      assert f.elevated == v.elevated + [a];
      AwaitingGoesOn(f, b, 1, a.time, a.time);
      assert Follow(f, b).elevated != [] ==> Follow(f, b).elevated == f.elevated + [b];
    }
  }

  lemma ConstantSplits(h: seq<Sample>, value: int, times: seq<int>)
    requires times != []
    ensures var n := |times| - 1;
            h + Constant(value, times) == (h + Constant(value, times[..n])) + [Sample(value, times[n])]
  {
  }

  /** Where the first two samples of a constant rate lead. */
  lemma AfterTwo(h: seq<Sample>, a: Sample, b: Sample)
    requires Increasing(h + [a] + [b]) && ViewOf(h).Showing? && a.value == b.value
    ensures var v := ViewOf(h + [a] + [b]);
            Converged(v, a.value) || Awaiting(v, a.value, 1, b.time, b.time)
  {
    IncreasingAfter(h + [a], b);
    IncreasingAfter(h, a);
    ViewAfter(h + [a], b);
    ViewAfter(h, a);
    ViewIsWellFormed(h);
    TwoSamples(ViewOf(h), a, b);
  }

  lemma {:induction false} ConstantConverges(h: seq<Sample>, value: int, times: seq<int>)
    requires Increasing(h + Constant(value, times)) && ViewOf(h).Showing? && |times| >= 2
    ensures var v := ViewOf(h + Constant(value, times));
            || Converged(v, value)
            || Awaiting(v, value, |times| - 1, times[1], times[|times| - 1])
  {
    var n := |times| - 1;
    var before, s := times[..n], Sample(value, times[n]);
    var so := h + Constant(value, before);
    ConstantSplits(h, value, times);
    if n >= 2 {
      IncreasingAfter(so, s);
      ViewAfter(so, s);
      ConstantConverges(h, value, before);
      if Converged(ViewOf(so), value) {
        ConvergedStays(ViewOf(so), s);
      } else {
        AwaitingGoesOn(ViewOf(so), s, n - 1, times[1], times[n - 1]);
      }
    } else {
      var a := Sample(value, times[0]);
      assert so == h + [a];
      AfterTwo(h, a, s);
    }
  }

  /**
   Bounded convergence: from any history that shows a number, a constant rate is on display once
   four samples of it have come and the last is two seconds past the second, and it stays.
   */
  lemma ConvergesToConstant(h: seq<Sample>, value: int, times: seq<int>)
    requires Increasing(h + Constant(value, times)) && ViewOf(h).Showing?
    requires |times| >= 4 && times[|times| - 1] - times[1] >= 2_000_000
    ensures ViewOf(h + Constant(value, times)).Showing? && ViewOf(h + Constant(value, times)).shown == value
  {
    ConstantConverges(h, value, times);
  }

  /** Measurements of one value, of one game and source. */
  function Steadily(value: int, times: seq<int>, pid: int, source: Source): (inputs: seq<Input>)
    ensures |inputs| == |times|
    ensures forall i :: 0 <= i < |times| ==> inputs[i] == Input(Some(value), times[i], pid, source)
  {
    seq(|times|, i requires 0 <= i < |times| => Input(Some(value), times[i], pid, source))
  }

  /** The times go on from `last`, by three seconds at most. */
  ghost predicate GoOn(last: int, times: seq<int>)
  {
    && (times != [] ==> 0 < times[0] - last <= 3_000_000)
    && forall i :: 0 < i < |times| ==> 0 < times[i] - times[i - 1] <= 3_000_000
  }

  /** An epoch that measurements of a value in range can extend. */
  ghost predicate IsOpen(e: Epoch)
  {
    e.Epoch? && e.history != [] && e.pid > 0 && e.source != NoSource && Increasing(e.history)
  }

  lemma OneMoreInput(inputs: seq<Input>, e: Epoch, value: int, time: int)
    requires EpochAfter(inputs) == e && IsOpen(e) && 0 <= value <= 120
    requires 0 < time - e.history[|e.history| - 1].time <= 3_000_000
    ensures var e' := Epoch(e.pid, e.source, e.history + [Sample(value, time)]);
            EpochAfter(inputs + [Input(Some(value), time, e.pid, e.source)]) == e' && IsOpen(e')
  {
    var i := Input(Some(value), time, e.pid, e.source);
    assert (inputs + [i])[..|inputs|] == inputs;
    IncreasingAfter(e.history, Sample(value, time));
  }

  lemma SteadilySplits(value: int, times: seq<int>, pid: int, source: Source)
    requires times != []
    ensures var n := |times| - 1;
            Steadily(value, times, pid, source) ==
            Steadily(value, times[..n], pid, source) + [Input(Some(value), times[n], pid, source)]
  {
  }

  lemma GoOnSplits(last: int, times: seq<int>)
    requires times != [] && GoOn(last, times)
    ensures var n := |times| - 1;
            GoOn(last, times[..n]) && 0 < times[n] - (if n == 0 then last else times[n - 1]) <= 3_000_000
  {
  }

  lemma LastTime(history: seq<Sample>, value: int, times: seq<int>)
    requires history != []
    ensures var h := history + Constant(value, times);
            h[|h| - 1].time == if times == [] then history[|history| - 1].time else times[|times| - 1]
  {
  }

  /** One measurement more takes what was reached one sample further. */
  ghost predicate Steps(reached: (seq<Input>, seq<Sample>) -> bool, value: int, pid: int, source: Source)
  {
    forall inputs: seq<Input>, history: seq<Sample>, time: int {:trigger reached(inputs, history), Input(Some(value), time, pid, source)} ::
      reached(inputs, history) && history != [] && 0 < time - history[|history| - 1].time <= 3_000_000 ==>
        reached(inputs + [Input(Some(value), time, pid, source)], history + [Sample(value, time)])
  }

  lemma {:induction false} StepByStep(reached: (seq<Input>, seq<Sample>) -> bool, inputs: seq<Input>,
                                      history: seq<Sample>, value: int, times: seq<int>, pid: int, source: Source)
    requires Steps(reached, value, pid, source) && reached(inputs, history)
    requires history != [] && GoOn(history[|history| - 1].time, times)
    ensures reached(inputs + Steadily(value, times, pid, source), history + Constant(value, times))
    decreases |times|
  {
    if times == [] {
      assert inputs + Steadily(value, times, pid, source) == inputs;
      assert history + Constant(value, times) == history;
    } else {
      var n := |times| - 1;
      GoOnSplits(history[|history| - 1].time, times);
      StepByStep(reached, inputs, history, value, times[..n], pid, source);
      LastTime(history, value, times[..n]);
      SteadilySplits(value, times, pid, source);
      ConstantSplits(history, value, times);
      var more := Input(Some(value), times[n], pid, source);
      assert inputs + Steadily(value, times, pid, source) == inputs + Steadily(value, times[..n], pid, source) + [more];
    }
  }

  lemma SteadilyExtends(inputs: seq<Input>, e: Epoch, value: int, times: seq<int>)
    requires EpochAfter(inputs) == e && IsOpen(e) && 0 <= value <= 120
    requires GoOn(e.history[|e.history| - 1].time, times)
    ensures var e' := Epoch(e.pid, e.source, e.history + Constant(value, times));
            EpochAfter(inputs + Steadily(value, times, e.pid, e.source)) == e' && IsOpen(e')
  {
    var reached := (s: seq<Input>, h: seq<Sample>) =>
      EpochAfter(s) == Epoch(e.pid, e.source, h) && IsOpen(Epoch(e.pid, e.source, h));
    forall s: seq<Input>, h: seq<Sample>, time: int | reached(s, h) && h != [] && 0 < time - h[|h| - 1].time <= 3_000_000
      ensures reached(s + [Input(Some(value), time, e.pid, e.source)], h + [Sample(value, time)])
    {
      OneMoreInput(s, Epoch(e.pid, e.source, h), value, time);
    }
    StepByStep(reached, inputs, e.history, value, times, e.pid, e.source);
  }

  /**
   Bounded convergence of the filter itself: once it shows a number, at least four measurements of one
   value, with gaps of at most three seconds and the last two seconds past the second, make it show that.
   */
  lemma SteadyRateIsShown(inputs: seq<Input>, value: int, times: seq<int>)
    requires Shown(EpochAfter(inputs)).Some? && 0 <= value <= 120
    requires var e := EpochAfter(inputs); e.history != [] ==> GoOn(e.history[|e.history| - 1].time, times)
    requires |times| >= 4 && times[|times| - 1] - times[1] >= 2_000_000
    ensures var e := EpochAfter(inputs);
            Shown(EpochAfter(inputs + Steadily(value, times, e.pid, e.source))) == Some(value)
  {
    var e := EpochAfter(inputs);
    var k := EpochBegan(inputs);
    assert Usable(inputs[k]);
    SteadilyExtends(inputs, e, value, times);
    ConvergesToConstant(e.history, value, times);
  }
}
