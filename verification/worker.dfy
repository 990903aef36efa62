/** The controller's worker loop: gates, source arbitration, standby and what it shows. */
module Worker {
  import opened Common
  import opened DisplayFilter
  import opened VideoOutSampler

  const STANDBY_US: int := 60_000_000
  const MISSES_BEFORE_WAKE: nat := 3
  const SHELLUI_GATE: nat := 10
  const GAME_GATE: nat := 3

  type Pid = p: int | p > 0 witness 1

  datatype Measure = Measure(fps: int, source: Source)

  /** Everything the outside world answers during one round of the loop. */
  datatype Tick = Tick(shellui: int, game: Option<Pid>, now: Word64,
                       alive: bool, counter: Option<Word32>, sampledAt: Word64,
                       library: Option<Word64>, found: Option<Word64>, attachAt: Word64, attachDone: Word64,
                       dce: Option<Measure>, installs: bool, shownAt: int)

  /** What one round observed: the two process ids, or -1, and the number measured, with its source. */
  datatype Record = Record(shellui: int, game: int, measured: Option<Measure>)

  function ShellUiOf(t: Tick): int
  {
    if t.shellui > 0 then t.shellui else -1
  }

  function GameOf(t: Tick): int
  {
    if t.game.Some? then t.game.value else -1
  }

  // ---------- Specification over the whole run ----------

  /** Rounds `from` to the last observed the ShellUI process `pid`, and the one before them did not. */
  ghost predicate ShellUiFrom(run: seq<Record>, from: nat, pid: int)
  {
    && from <= |run| && (from > 0 ==> run[from - 1].shellui != pid)
    && forall i :: from <= i < |run| ==> run[i].shellui == pid
  }

  ghost predicate GameFrom(run: seq<Record>, from: nat, pid: int)
  {
    && from <= |run| && (from > 0 ==> run[from - 1].game != pid)
    && forall i :: from <= i < |run| ==> run[i].game == pid
  }

  /** Both gates: the last ten rounds observed one ShellUI process and the last three one game. */
  ghost predicate GatesOpen(run: seq<Record>)
  {
    && |run| >= 10 && run[|run| - 1].shellui > 0 && run[|run| - 1].game > 0
    && (forall i :: |run| - 10 <= i < |run| ==> run[i].shellui == run[|run| - 1].shellui)
    && (forall i :: |run| - 3 <= i < |run| ==> run[i].game == run[|run| - 1].game)
  }

  /** How many rounds in a row, up to the last, measured nothing. */
  ghost function Misses(run: seq<Record>): nat
  {
    if run == [] || run[|run| - 1].measured.Some? then 0 else Misses(run[..|run| - 1]) + 1
  }

  lemma MissesAfter(run: seq<Record>, r: Record)
    ensures Misses(run + [r]) == if r.measured.Some? then 0 else Misses(run) + 1
  {
    assert (run + [r])[..|run|] == run;
  }

  /** From round `k` on every round observed one game and measured it with one source. */
  ghost predicate OneGameFrom(run: seq<Record>, k: nat)
  {
    k < |run| && forall j :: k <= j < |run| ==>
      && run[j].game == run[|run| - 1].game > 0 && run[j].measured.Some? && run[|run| - 1].measured.Some?
      && run[j].measured.value.source == run[|run| - 1].measured.value.source
  }

  ghost predicate MeasuredAt(run: seq<Record>, i: nat, value: int)
  {
    i < |run| && run[i].measured.Some? && run[i].measured.value.fps == value
  }

  /** Counting observations decides the gates. */
  lemma GatesCount(run: seq<Record>, shellUiFrom: nat, shellUi: int, gameFrom: nat, game: int)
    requires ShellUiFrom(run, shellUiFrom, shellUi) && GameFrom(run, gameFrom, game)
    requires run != [] && run[|run| - 1].shellui == shellUi && run[|run| - 1].game == game
    ensures GatesOpen(run) <==>
              shellUi > 0 && game > 0 && |run| - shellUiFrom >= 10 && |run| - gameFrom >= 3
  {
    var beforeShellUi := if shellUiFrom > 0 then run[shellUiFrom - 1].shellui else -1;
    var beforeGame := if gameFrom > 0 then run[gameFrom - 1].game else -1;
  }

  /** What the filter is given for a round. */
  /** What the filter is given for a round. */
  function InputOf(game: int, measured: Option<Measure>, now: int): (i: Input)
    ensures IsInputOf(i, game, measured)
  {
    if measured.Some? then Input(Some(measured.value.fps), now, game, measured.value.source)
    else Input(None, now, game, NoSource)
  }

  /** `after` is `before` with one input more. */
  ghost predicate Fed(before: seq<Input>, after: seq<Input>, i: Input)
  {
    |after| == |before| + 1 && before <= after && after[|before|] == i
  }

  predicate IsInputOf(i: Input, game: int, measured: Option<Measure>)
  {
    && i.pid == game
    && i.measured == (if measured.Some? then Some(measured.value.fps) else None)
    && i.source == (if measured.Some? then measured.value.source else NoSource)
  }

  // ---------- The loop ----------

  class Loop {
    const sampler: FpsSampler
    const filter: FpsDisplayFilter
    var stableShellUi: int
    var shellUiObservations: nat
    var stableGame: int
    var gameObservations: nat
    var standbyActive: bool
    var standbyPid: int
    var missStreak: nat
    var nextProbe: Word64
    var rendererOnline: bool

    /** Every round so far, and what the filter has been given since it was last reset. */
    ghost var run: seq<Record>
    ghost var inputs: seq<Input>
    /** The rounds from which the current processes have been observed without a break. */
    ghost var shellUiFrom: nat
    ghost var gameFrom: nat
    /** When VideoOut discovery was last put off: at the entry to standby, then at each failed attempt. */
    ghost var since: Word64

    constructor ()
      ensures fresh(sampler) && fresh(filter) && fresh(filter.recent) && fresh(filter.accepted) && fresh(filter.elevated)
      ensures Valid() && run == []
    {
      sampler := new FpsSampler();
      filter := new FpsDisplayFilter();
      stableShellUi, shellUiObservations, stableGame, gameObservations := -1, 0, -1, 0;
      standbyActive, standbyPid, missStreak, nextProbe, rendererOnline := false, -1, 0, 0, false;
      run, inputs, since, shellUiFrom, gameFrom := [], [], 0, 0, 0;
    }

    /** The gate counts consecutive observations, up to what it asks for; `pending` rounds are not yet recorded. */
    ghost predicate ShellUiGate(pending: nat)
      reads this`stableShellUi, this`shellUiObservations, this`rendererOnline, this`run, this`shellUiFrom
    {
      && (stableShellUi > 0 || stableShellUi == -1) && ShellUiFrom(run, shellUiFrom, stableShellUi)
      && shellUiObservations == (if stableShellUi > 0 then Min(SHELLUI_GATE, |run| + pending - shellUiFrom) else 0)
      && (rendererOnline ==> stableShellUi > 0)
      && (pending == 0 ==> stableShellUi == if run == [] then -1 else run[|run| - 1].shellui)
    }

    ghost predicate GameGate(pending: nat)
      reads this`stableGame, this`gameObservations, this`run, this`gameFrom
    {
      && (stableGame > 0 || stableGame == -1) && GameFrom(run, gameFrom, stableGame)
      && gameObservations == (if stableGame > 0 then Min(GAME_GATE, |run| + pending - gameFrom) else 0)
      && (pending == 0 ==> stableGame == if run == [] then -1 else run[|run| - 1].game)
    }

    /** An attached sampler reads the current game. */
    ghost predicate SamplerHolds()
      reads this`stableGame, sampler
    {
      sampler.Valid() && (sampler.Attached() ==> stableGame > 0 && sampler.pid == stableGame)
    }

    /** Standby is for the current game, fewer than three rounds from its last number. */
    ghost predicate StandbyHolds(misses: nat)
      reads this`standbyActive, this`standbyPid, this`missStreak, this`nextProbe, this`since, this`stableGame
    {
      if standbyActive then
        && stableGame > 0 && standbyPid == stableGame && nextProbe == Add64(since, STANDBY_US)
        && missStreak == misses < MISSES_BEFORE_WAKE
      else standbyPid == -1 && missStreak == 0 && nextProbe == 0
    }

    /** The filter has been given the last rounds, each under its own game. */
    ghost predicate FilterHolds()
      reads this`inputs, this`run, filter, filter.recent, filter.accepted, filter.elevated
    {
      && filter.Valid() && filter.epoch == EpochAfter(inputs) && |inputs| <= |run|
      && forall j :: 0 <= j < |inputs| ==>
           var r := run[|run| - |inputs| + j];
           IsInputOf(inputs[j], r.game, r.measured)
    }

    ghost predicate Valid()
      reads this, sampler, filter, filter.recent, filter.accepted, filter.elevated
    {
      && ShellUiGate(0) && GameGate(0)
      && SamplerHolds() && StandbyHolds(Misses(run)) && FilterHolds()
    }

    /** The ShellUI gate; a new ShellUI process starts everything on screen afresh. */
    method ObserveShellUi(pid: int)
      requires FilterHolds() && ShellUiGate(0)
      modifies this`stableShellUi, this`shellUiObservations, this`rendererOnline, this`inputs, this`shellUiFrom,
               filter, filter.recent, filter.accepted, filter.elevated
      ensures stableShellUi == if pid > 0 then pid else -1
      ensures ShellUiGate(1) && FilterHolds()
      ensures rendererOnline ==> old(rendererOnline) && stableShellUi == old(stableShellUi)
      ensures inputs == if pid > 0 && pid != old(stableShellUi) then [] else old(inputs)
    {
      if pid > 0 {
        if pid == stableShellUi {
          if shellUiObservations < SHELLUI_GATE {
            shellUiObservations := shellUiObservations + 1;
          }
        } else {
          stableShellUi, shellUiObservations, rendererOnline := pid, 1, false;
          shellUiFrom := |run|;
          filter.Reset();
          inputs := [];
        }
      } else {
        shellUiFrom := if stableShellUi == -1 then shellUiFrom else |run|;
        stableShellUi, shellUiObservations, rendererOnline := -1, 0, false;
      }
    }

    method LeaveStandby()
      modifies this`standbyActive, this`standbyPid, this`missStreak, this`nextProbe
      ensures !standbyActive && StandbyHolds(0)
      ensures forall misses: nat :: StandbyHolds(misses)
    {
      standbyActive, standbyPid, missStreak, nextProbe := false, -1, 0, 0;
    }

    /** The game gate; a new game detaches the sampler and ends standby. */
    method ObserveGame(game: Option<Pid>, ghost misses: nat)
      requires SamplerHolds() && StandbyHolds(misses) && GameGate(0)
      modifies this`stableGame, this`gameObservations, this`gameFrom, this`standbyActive, this`standbyPid,
               this`missStreak, this`nextProbe, sampler
      ensures SamplerHolds() && StandbyHolds(misses) && GameGate(1)
      ensures stableGame == if game.Some? then game.value else -1
      ensures game == Some(old(stableGame)) ==>
                standbyActive == old(standbyActive) && nextProbe == old(nextProbe) && unchanged(sampler)
      ensures game != Some(old(stableGame)) ==> !standbyActive && !sampler.Attached()
      ensures sampler.failedPid == old(sampler.failedPid) && sampler.retryAfter == old(sampler.retryAfter)
    {
      if game.Some? {
        if game.value == stableGame {
          if gameObservations < GAME_GATE {
            gameObservations := gameObservations + 1;
          }
        } else {
          stableGame, gameObservations, gameFrom := game.value, 1, |run|;
          sampler.Reset();
          LeaveStandby();
        }
      } else {
        gameFrom := if stableGame == -1 then gameFrom else |run|;
        stableGame, gameObservations := -1, 0;
        sampler.Reset();
        LeaveStandby();
      }
    }

    /** The number that an attached sampler must give: the rate of the window now closed, if one has gone before. */
    ghost function VideoOutNumber(t: Tick): Option<int>
      reads sampler
    {
      if !sampler.Attached() || !t.alive || t.counter.None? || !sampler.haveBaseline || sampler.windows == [] then None else
      var w := sampler.Pending(Reading(t.counter.value, t.sampledAt));
      if Complete(w) then Measured(w) else None
    }

    /** Discovery finds the counter and is not still put off by an earlier failure. */
    ghost predicate Attachable(t: Tick)
      reads sampler`failedPid, sampler`retryAfter
    {
      && t.library.Some? && t.library.value != 0 && t.found.Some?
      && !(t.game == Some(sampler.failedPid) && t.attachAt < sampler.retryAfter)
    }

    /** A sample from an attached sampler, else an attempt to attach where standby allows one. */
    method SampleVideoOut(t: Tick, ghost misses: nat) returns (fps: Option<int>, tried: bool, failed: bool)
      requires SamplerHolds() && StandbyHolds(misses)
      requires stableGame == GameOf(t)
      modifies this`nextProbe, this`since, sampler
      ensures SamplerHolds() && StandbyHolds(misses)
      ensures fps == old(VideoOutNumber(t))
      ensures tried <==> t.game.Some? && !old(sampler.Attached()) && (standbyActive ==> t.now >= old(nextProbe))
      ensures failed <==> tried && !old(Attachable(t))
      ensures tried && !failed ==> t.found.Some? && sampler.pid == GameOf(t) && sampler.counterAddress == t.found.value
      ensures failed && standbyActive ==> since == t.now
      ensures !failed ==> since == old(since)
    {
      fps, tried, failed := None, false, false;
      if sampler.Attached() {
        fps := sampler.Sample(t.alive, t.counter, t.sampledAt);
      } else if t.game.Some? && (!standbyActive || t.now >= nextProbe) {
        tried := true;
        var attached := sampler.Attach(t.game.value, t.library, t.found, t.attachAt, t.attachDone);
        failed := !attached;
        if failed && standbyActive {
          nextProbe := Add64(t.now, STANDBY_US);
          since := t.now;
        }
      }
    }

    /** VideoOut first, then the display engine; rounds without a number wear standby out. */
    method Arbitrate(t: Tick, videoOut: Option<int>, dce: Option<Measure>, ghost misses: nat)
        returns (measured: Option<Measure>)
      requires StandbyHolds(misses) && stableGame == GameOf(t) && SamplerHolds()
      requires videoOut.Some? ==> stableGame > 0
      modifies this`standbyActive, this`standbyPid, this`missStreak, this`nextProbe, this`since
      ensures StandbyHolds(if measured.Some? then 0 else misses + 1)
      ensures measured == if videoOut.Some? then Some(Measure(videoOut.value, VideoOut))
                          else if t.game.Some? then dce else None
      ensures standbyActive == if videoOut.Some? then false
                               else if measured.Some? then old(standbyActive) || !sampler.Attached()
                               else old(standbyActive) && old(missStreak) + 1 < 3
      ensures !old(standbyActive) && standbyActive ==> since == t.now && measured.Some? && dce.Some?
      ensures old(standbyActive) && standbyActive ==> since == old(since)
    {
      if videoOut.Some? {
        LeaveStandby();
        return Some(Measure(videoOut.value, VideoOut));
      }
      if dce.Some? && t.game.Some? {
        missStreak := 0;
        if !sampler.Attached() {
          var entering := !standbyActive || standbyPid != t.game.value;
          standbyActive, standbyPid := true, t.game.value;
          if entering {
            nextProbe, since := Add64(t.now, STANDBY_US), t.now;
          }
        }
        return dce;
      }
      if standbyActive && t.game.Some? {
        missStreak := missStreak + 1;
        if missStreak >= MISSES_BEFORE_WAKE {
          LeaveStandby();
        }
      }
      return None;
    }

    /** VideoOut's number when there is one, else, once the game gate is open, the display engine's. */
    ghost function Number(videoOut: Option<int>, t: Tick): Option<Measure>
      reads this`stableGame, this`gameObservations
    {
      if videoOut.Some? then Some(Measure(videoOut.value, VideoOut))
      else if stableGame > 0 && gameObservations >= 3 then t.dce else None
    }

    /** The round's number, from whichever source, and what became of VideoOut discovery and of standby. */
    method MeasureRound(t: Tick, ghost misses: nat) returns (measured: Option<Measure>, tried: bool, failed: bool)
      requires SamplerHolds() && StandbyHolds(misses) && stableGame == GameOf(t)
      modifies this`standbyActive, this`standbyPid, this`missStreak, this`nextProbe, this`since, sampler
      ensures SamplerHolds() && StandbyHolds(if measured.Some? then 0 else misses + 1)
      ensures tried <==> t.game.Some? && !old(sampler.Attached()) && (old(standbyActive) ==> t.now >= old(nextProbe))
      ensures tried && !failed ==> t.found.Some? && sampler.pid == GameOf(t) && sampler.counterAddress == t.found.value
      ensures failed <==> tried && !old(Attachable(t))
      ensures failed && standbyActive ==> since == t.now
      ensures old(standbyActive) && standbyActive && !failed ==> since == old(since)
      ensures standbyActive && !old(standbyActive) ==>
                since == t.now && measured.Some? && gameObservations >= 3
      ensures measured == Number(old(VideoOutNumber(t)), t)
    {
      var ready := stableGame > 0 && gameObservations >= GAME_GATE;
      var videoOut: Option<int>;
      videoOut, tried, failed := SampleVideoOut(t, misses);
      measured := Arbitrate(t, videoOut, if ready then t.dce else None, misses);
    }

    method Install(installs: bool) returns (tried: bool)
      requires ShellUiGate(1) && GameGate(1)
      modifies this`rendererOnline
      ensures ShellUiGate(1)
      ensures tried <==> !old(rendererOnline) && stableGame > 0 && gameObservations >= 3 &&
                         shellUiObservations >= 10
      ensures rendererOnline == if tried then installs else old(rendererOnline)
    {
      tried := !rendererOnline && stableGame > 0 && gameObservations >= GAME_GATE && shellUiObservations >= SHELLUI_GATE;
      if tried {
        rendererOnline := installs;
      }
    }

    /** The number on screen was measured in a round `i` of this game, with no other game observed since. */
    ghost predicate MeasuredInThisGame(value: int)
      reads this`run
    {
      exists k: nat, i: nat :: OneGameFrom(run, k) && MeasuredAt(run, i, value) && k <= i
    }

    lemma ShownIsOwn(value: int)
      requires FilterHolds() && Shown(EpochAfter(inputs)) == Some(value)
      ensures MeasuredInThisGame(value)
    {
      ShownIsOwnMeasurement(inputs, value);
      var k: nat, i: nat :| IsOwnMeasurement(inputs, k, i, value);
      var skipped := |run| - |inputs|;
      assert IsInputOf(inputs[i], run[skipped + i].game, run[skipped + i].measured);
      assert MeasuredAt(run, skipped + i, value);
      forall j | skipped + k <= j < |run|
        ensures run[j].game == run[|run| - 1].game > 0 && run[j].measured.Some? && run[|run| - 1].measured.Some?
        ensures run[j].measured.value.source == run[|run| - 1].measured.value.source
      {
        assert IsInputOf(inputs[j - skipped], run[j].game, run[j].measured) && Usable(inputs[j - skipped]);
        assert IsInputOf(inputs[|inputs| - 1], run[|run| - 1].game, run[|run| - 1].measured) && Usable(inputs[|inputs| - 1]);
      }
      assert OneGameFrom(run, skipped + k);
    }

    /** Filters the round's number and traces what is shown back to its round. */
    method FilterAndTrace(measured: Option<Measure>, now: int) returns (shown: Option<int>)
      requires FilterHolds()
      modifies this`inputs, this`run, filter, filter.recent, filter.accepted, filter.elevated
      ensures FilterHolds()
      ensures run == old(run) + [RoundOf(measured)] && Fed(old(inputs), inputs, InputOf(stableGame, measured, now))
      ensures shown == Shown(EpochAfter(inputs)) && (shown.Some? ==> MeasuredInThisGame(shown.value))
    {
      shown := FilterRound(measured, now);
      if shown.Some? {
        ShownIsOwn(shown.value);
      }
    }

    /** Filters the round's number and records the round. */
    method Show(measured: Option<Measure>, now: int) returns (shown: Option<int>)
      requires FilterHolds() && ShellUiGate(1) && GameGate(1)
      modifies this`inputs, this`run, filter, filter.recent, filter.accepted, filter.elevated
      ensures FilterHolds() && ShellUiGate(0) && GameGate(0)
      ensures run == old(run) + [RoundOf(measured)] && Fed(old(inputs), inputs, InputOf(stableGame, measured, now))
      ensures Misses(run) == if measured.Some? then 0 else Misses(old(run)) + 1
      ensures shown == Shown(EpochAfter(inputs)) && (shown.Some? ==> MeasuredInThisGame(shown.value))
      ensures GatesOpen(run) <==> shellUiObservations >= 10 && stableGame > 0 && gameObservations >= 3
    {
      shown := FilterAndTrace(measured, now);
      MissesAfter(old(run), RoundOf(measured));
      GatesCount(run, shellUiFrom, stableShellUi, gameFrom, stableGame);
    }

    function RoundOf(measured: Option<Measure>): Record
      reads this`stableShellUi, this`stableGame
    {
      Record(stableShellUi, stableGame, measured)
    }

    method FilterRound(measured: Option<Measure>, now: int) returns (shown: Option<int>)
      requires FilterHolds()
      modifies this`inputs, this`run, filter, filter.recent, filter.accepted, filter.elevated
      ensures FilterHolds() && run == old(run) + [RoundOf(measured)]
      ensures Fed(old(inputs), inputs, InputOf(stableGame, measured, now))
      ensures shown == Shown(EpochAfter(inputs))
    {
      var input := InputOf(stableGame, measured, now);
      shown := filter.TakeSample(input);
      assert (inputs + [input])[..|inputs|] == inputs;
      inputs, run := inputs + [input], run + [RoundOf(measured)];
    }

    /** Both gates take this round's observations; a change of process starts afresh. */
    method Observe(t: Tick)
      requires Valid()
      modifies this`stableShellUi, this`shellUiObservations, this`rendererOnline, this`inputs, this`stableGame,
               this`gameObservations, this`shellUiFrom, this`gameFrom, this`standbyActive,
               this`standbyPid, this`missStreak, this`nextProbe, sampler, filter, filter.recent, filter.accepted, filter.elevated
      ensures ShellUiGate(1) && GameGate(1) && SamplerHolds() && StandbyHolds(Misses(run)) && FilterHolds()
      ensures stableShellUi == ShellUiOf(t) && stableGame == GameOf(t)
      ensures GameOf(t) == old(stableGame) ==> standbyActive == old(standbyActive) && nextProbe == old(nextProbe)
      ensures GameOf(t) != old(stableGame) ==> !standbyActive
      ensures sampler.Attached() <==> GameOf(t) == old(stableGame) && old(sampler.Attached())
      ensures VideoOutNumber(t) == if GameOf(t) == old(stableGame) then old(VideoOutNumber(t)) else None
      ensures Attachable(t) <==> old(Attachable(t))
      ensures inputs == if t.shellui > 0 && t.shellui != old(stableShellUi) then [] else old(inputs)
    {
      ObserveShellUi(t.shellui);
      ObserveGame(t.game, Misses(run));
    }

    /** The start of a round: what was observed and what was measured. */
    method Gather(t: Tick) returns (measured: Option<Measure>, tried: bool, failed: bool)
      requires Valid()
      modifies this`stableShellUi, this`shellUiObservations, this`rendererOnline, this`inputs, this`stableGame,
               this`gameObservations, this`shellUiFrom, this`gameFrom, this`standbyActive, this`standbyPid,
               this`missStreak, this`nextProbe, this`since, sampler, filter, filter.recent, filter.accepted, filter.elevated
      ensures ShellUiGate(1) && GameGate(1) && SamplerHolds() && FilterHolds()
      ensures StandbyHolds(if measured.Some? then 0 else Misses(run) + 1)
      ensures stableShellUi == ShellUiOf(t) && stableGame == GameOf(t)
      ensures tried && old(standbyActive) && GameOf(t) == old(stableGame) ==> t.now >= Add64(old(since), 60_000_000)
      ensures failed <==> tried && !old(Attachable(t))
      ensures failed && standbyActive ==> since == t.now
      ensures old(standbyActive) && standbyActive && !failed ==> since == old(since)
      ensures standbyActive && !old(standbyActive) ==> since == t.now && measured.Some?
      ensures tried <==> t.game.Some? && !(GameOf(t) == old(stableGame) && old(sampler.Attached())) &&
                               (GameOf(t) == old(stableGame) && old(standbyActive) ==> t.now >= old(nextProbe))
      ensures tried && !failed ==> t.found.Some? && sampler.pid == GameOf(t) && sampler.counterAddress == t.found.value
      ensures measured == Number(if GameOf(t) == old(stableGame) then old(VideoOutNumber(t)) else None, t)
      ensures inputs == if t.shellui > 0 && t.shellui != old(stableShellUi) then [] else old(inputs)
    {
      Observe(t);
      measured, tried, failed := MeasureRound(t, Misses(run));
    }

    /** The end of a round: the renderer, then the screen. */
    method Finish(measured: Option<Measure>, t: Tick) returns (installTried: bool, sent: Option<int>)
      requires FilterHolds() && ShellUiGate(1) && GameGate(1) && SamplerHolds()
      requires StandbyHolds(if measured.Some? then 0 else Misses(run) + 1)
      modifies this`rendererOnline, this`inputs, this`run, filter, filter.recent, filter.accepted, filter.elevated
      ensures Valid()
      ensures run == old(run) + [RoundOf(measured)] && Fed(old(inputs), inputs, InputOf(stableGame, measured, t.shownAt))
      ensures installTried ==> GatesOpen(run)
      ensures GatesOpen(run) ==> installTried || rendererOnline
      ensures sent == if rendererOnline then Shown(EpochAfter(inputs)) else None
      ensures sent.Some? ==> MeasuredInThisGame(sent.value)
    {
      installTried := Install(t.installs);
      var shown := Show(measured, t.shownAt);
      sent := if rendererOnline then shown else None;
    }

    /**
      * One round of the loop: `installed` says whether the renderer was tried, `attached` and `failed`
      * whether VideoOut discovery was, `sent` the number put on screen.
      */
    method Round(t: Tick) returns (installTried: bool, attachTried: bool, failed: bool, sent: Option<int>,
                                   ghost measured: Option<Measure>)
      requires Valid()
      modifies this, sampler, filter, filter.recent, filter.accepted, filter.elevated
      ensures Valid()
      ensures measured == Number(if GameOf(t) == old(stableGame) then old(VideoOutNumber(t)) else None, t)
      ensures run == old(run) + [Record(ShellUiOf(t), GameOf(t), measured)]
      ensures installTried ==> GatesOpen(run)
      ensures GatesOpen(run) ==> installTried || rendererOnline
      ensures attachTried && old(standbyActive) && GameOf(t) == old(stableGame) ==>
                t.now >= Add64(old(since), 60_000_000)
      ensures failed <==> attachTried && !old(Attachable(t))
      ensures failed && standbyActive ==> since == t.now
      ensures old(standbyActive) && standbyActive && !failed ==> since == old(since)
      ensures standbyActive && !old(standbyActive) ==> since == t.now && measured.Some?
      ensures attachTried <==> t.game.Some? && !(GameOf(t) == old(stableGame) && old(sampler.Attached())) &&
                               (GameOf(t) == old(stableGame) && old(standbyActive) ==> t.now >= old(nextProbe))
      ensures attachTried && !failed ==> t.found.Some? && sampler.pid == GameOf(t) && sampler.counterAddress == t.found.value
      ensures Fed(if t.shellui > 0 && t.shellui != old(stableShellUi) then [] else old(inputs), inputs,
                  InputOf(GameOf(t), measured, t.shownAt))
      ensures sent == if rendererOnline then Shown(EpochAfter(inputs)) else None
      ensures sent.Some? ==> MeasuredInThisGame(sent.value)
    {
      var number: Option<Measure>;
      number, attachTried, failed := Gather(t);
      measured := number;
      installTried, sent := Finish(number, t);
    }
  }

  /** Standby does not outlive three rounds in a row without a number. */
  lemma StandbyNeedsNumbers(loop: Loop)
    requires loop.Valid() && loop.standbyActive && |loop.run| >= 3
    ensures exists i :: |loop.run| - 3 <= i < |loop.run| && loop.run[i].measured.Some?
  {
    if forall i :: |loop.run| - 3 <= i < |loop.run| ==> loop.run[i].measured.None? {
      LongMisses(loop.run, 3);
    }
  }

  lemma {:induction false} LongMisses(run: seq<Record>, n: nat)
    requires n <= |run| && forall i :: |run| - n <= i < |run| ==> run[i].measured.None?
    ensures Misses(run) >= n
    decreases n
  {
    if n > 0 {
      LongMisses(run[..|run| - 1], n - 1);
    }
  }
}
