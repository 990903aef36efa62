/** Finding the frame counter of a game: the fixed table, the scan for indirect chains and their validation. */
module CounterDiscovery {
  import opened Common

  const TABLE_OFFSET: int := 0x34980
  const TABLE_ENTRIES: nat := 7
  const TABLE_ENTRY_SIZE: nat := 0x18
  const COUNTER_OFFSET: int := 0x768
  const FIXED_TABLE_SDK: int := 0x0960

  const SCAN_BEGIN: int := 0x10000
  const SCAN_END: int := 0x200000
  const SCAN_STEP: nat := 0x2000
  const LOOKAHEAD: nat := 0x20
  const READ_SIZE: nat := 0x2020
  const WINDOWS: nat := 248
  const RECORDS: nat := 1025
  const LAYOUTS: nat := 4
  const MAX_CANDIDATES: nat := 256

  /**
    * The memory of the game at one moment. Addresses that differ by a multiple of 2^64 name the same
    * place, as `uintptr_t` sums do.
    */
  datatype Snapshot = Snapshot(readable: (int, nat) -> bool, byte: int -> Byte)
  {
    function Bytes(address: int, n: nat): (s: seq<Byte>)
      ensures |s| == n && forall i :: 0 <= i < n ==> s[i] == byte(address + i)
    {
      seq<Byte>(n, i => byte(address + i))
    }

    function Word(address: int, n: nat): nat
    {
      FromBytes(Bytes(address, n))
    }

    function Read(address: int, n: nat): Option<nat>
    {
      if readable(address, n) then Some(Word(address, n)) else None
    }

    /** `read_memory`: a failed read may leave anything in the buffer. */
    method ReadMemory(address: int, buffer: array<Byte>) returns (ok: bool)
      modifies buffer
      ensures ok == readable(address, buffer.Length)
      ensures ok ==> buffer[..] == Bytes(address, buffer.Length)
    {
      ok := readable(address, buffer.Length);
      if ok {
        forall i | 0 <= i < buffer.Length {
          buffer[i] := byte(address + i);
        }
      } else {
        var noise: int -> Byte := *;
        forall i | 0 <= i < buffer.Length {
          buffer[i] := noise(i);
        }
      }
    }
  }

  /** `plausible_user_pointer`. */
  predicate Plausible(value: nat)
  {
    value >= 0x10000 && value < 0x8000_0000_0000 && value % 8 == 0
  }

  // ---------- What the scan looks for ----------

  /** One look at a record: in which window, how many words into it, under which of the four layouts. */
  datatype Position = Position(window: nat, record: nat, layout: nat)

  predicate IsPosition(p: Position)
  {
    p.window < WINDOWS && p.record < RECORDS && p.layout < LAYOUTS
  }

  /** The place of a look in the order of the scan. */
  function Rank(p: Position): nat
  {
    (p.window * RECORDS + p.record) * LAYOUTS + p.layout
  }

  function WindowOffset(window: nat): int
  {
    SCAN_BEGIN + window * SCAN_STEP
  }

  function RecordOffset(p: Position): int
  {
    WindowOffset(p.window) + p.record * 8
  }

  function EnabledOffset(layout: nat): nat
  {
    if layout % 2 == 0 then 0 else 4
  }

  function PointerOffset(layout: nat): nat
  {
    if layout < 2 then 8 else 16
  }

  /** The counter behind record, pointer and root, when every link of the chain holds. */
  function ChainFrom(m: Snapshot, enabled: nat, pointer: nat): Option<nat>
  {
    if enabled == 0 || enabled > 8 || !Plausible(pointer) then None else
    var root := m.Read(pointer, 8);
    if root.None? || !Plausible(root.value) || m.Read(root.value + COUNTER_OFFSET, 4).None? then None
    else Some(root.value + COUNTER_OFFSET)
  }

  function ChainAt(m: Snapshot, base: int, p: Position): Option<nat>
  {
    if !m.readable(base + WindowOffset(p.window), READ_SIZE) then None else
    var record := base + RecordOffset(p);
    ChainFrom(m, m.Word(record + EnabledOffset(p.layout), 4), m.Word(record + PointerOffset(p.layout), 8))
  }

  /** Every aligned offset of the range, both ends included, is looked at in each window that holds it. */
  lemma EveryOffsetIsExamined(offset: int, layout: nat) returns (p: Position)
    requires 0x10000 <= offset <= 0x200000 && offset % 8 == 0 && layout < 4
    ensures IsPosition(p) && p.layout == layout && RecordOffset(p) == offset
    ensures forall w :: 0 <= w < WINDOWS && WindowOffset(w) <= offset <= WindowOffset(w) + SCAN_STEP ==>
              var q := Position(w, (offset - WindowOffset(w)) / 8, layout);
              IsPosition(q) && RecordOffset(q) == offset
  {
    var w := Min((offset - SCAN_BEGIN) / SCAN_STEP, WINDOWS - 1);
    p := Position(w, (offset - WindowOffset(w)) / 8, layout);
  }

  /** A pointer into user space that an aligned object could have. */
  predicate IsUserPointer(p: nat)
  {
    0x10000 <= p < 0x8000_0000_0000 && p % 8 == 0
  }

  /**
    A 32-bit flag of one to eight, a pointer, at its target another pointer, and 0x768 past that one's
    target a readable counter.
    */
  ghost predicate LeadsTo(m: Snapshot, record: int, flagAt: int, pointerAt: int, counter: nat)
  {
    && 1 <= m.Word(record + flagAt, 4) <= 8
    && var pointer := m.Word(record + pointerAt, 8);
    && IsUserPointer(pointer) && m.readable(pointer, 8)
    && var root := m.Word(pointer, 8);
    && IsUserPointer(root) && counter == root + 0x768 && m.readable(counter, 4)
  }

  lemma ChainUnder(m: Snapshot, base: int, p: Position, at: int, flagAt: nat, pointerAt: nat, counter: nat)
    requires m.readable(base + WindowOffset(p.window), READ_SIZE) && at == base + RecordOffset(p)
    requires flagAt == EnabledOffset(p.layout) && pointerAt == PointerOffset(p.layout)
    ensures ChainAt(m, base, p) == Some(counter) <==> LeadsTo(m, at, flagAt, pointerAt, counter)
  {
  }

  /** The four layouts: the flag at +0 or +4, the pointer at +8 or +16. */
  lemma ChainsAtOffset(m: Snapshot, base: int, w: nat, record: nat, counter: nat)
    requires m.readable(base + 0x10000 + w * 0x2000, 0x2020)
    ensures var at := base + 0x10000 + w * 0x2000 + record * 8;
            && (ChainAt(m, base, Position(w, record, 0)) == Some(counter) <==> LeadsTo(m, at, 0, 8, counter))
            && (ChainAt(m, base, Position(w, record, 1)) == Some(counter) <==> LeadsTo(m, at, 4, 8, counter))
            && (ChainAt(m, base, Position(w, record, 2)) == Some(counter) <==> LeadsTo(m, at, 0, 16, counter))
            && (ChainAt(m, base, Position(w, record, 3)) == Some(counter) <==> LeadsTo(m, at, 4, 16, counter))
  {
    var at := base + 0x10000 + w * 0x2000 + record * 8;
    ChainUnder(m, base, Position(w, record, 0), at, 0, 8, counter);
    ChainUnder(m, base, Position(w, record, 1), at, 4, 8, counter);
    ChainUnder(m, base, Position(w, record, 2), at, 0, 16, counter);
    ChainUnder(m, base, Position(w, record, 3), at, 4, 16, counter);
  }

  /** No look goes past the buffer of its window. */
  lemma LooksStayInside(p: Position)
    requires IsPosition(p)
    ensures p.record * 8 + EnabledOffset(p.layout) + 4 <= READ_SIZE
    ensures p.record * 8 + PointerOffset(p.layout) + 8 <= READ_SIZE
  {
  }

  lemma RankIsInjective(p: Position, q: Position)
    requires IsPosition(p) && IsPosition(q) && Rank(p) == Rank(q)
    ensures p == q
  {
  }

  /** The chain met at each look, if any. */
  ghost function Chains(m: Snapshot, base: int): Position -> Option<nat>
  {
    (p: Position) => ChainAt(m, base, p)
  }

  // ---------- What the scan has found ----------

  datatype Candidate = Candidate(position: Position, counter: nat, first: nat,
                                 second: Option<nat>, third: Option<nat>)

  ghost predicate HasCounter(cs: seq<Candidate>, counter: nat)
  {
    exists i :: 0 <= i < |cs| && cs[i].counter == counter
  }

  ghost predicate Seen(chain: Position -> Option<nat>, n: nat, p: Position, counter: nat)
  {
    IsPosition(p) && Rank(p) < n && chain(p) == Some(counter)
  }

  /** A candidate is the first chain, in scan order, that leads to its counter. */
  ghost predicate IsFirst(chain: Position -> Option<nat>, n: nat, c: Candidate)
  {
    && Seen(chain, n, c.position, c.counter)
    && forall p: Position :: Seen(chain, n, p, c.counter) ==> Rank(c.position) <= Rank(p)
  }

  ghost predicate Ordered(cs: seq<Candidate>)
  {
    forall i, j :: 0 <= i < j < |cs| ==> Rank(cs[i].position) < Rank(cs[j].position)
  }

  /** A chain is missing only when the table was full before it was reached. */
  ghost predicate Accounted(cs: seq<Candidate>, p: Position, counter: nat)
  {
    || HasCounter(cs, counter)
    || (|cs| == 256 && Rank(cs[|cs| - 1].position) < Rank(p))
  }

  ghost predicate Missing(chain: Position -> Option<nat>, n: nat, cs: seq<Candidate>)
  {
    exists p: Position, counter: nat :: Seen(chain, n, p, counter) && !HasCounter(cs, counter)
  }

  ghost predicate AllFirst(chain: Position -> Option<nat>, n: nat, cs: seq<Candidate>)
  {
    forall i :: 0 <= i < |cs| ==> IsFirst(chain, n, cs[i])
  }

  ghost predicate AllAccounted(chain: Position -> Option<nat>, n: nat, cs: seq<Candidate>)
  {
    forall p: Position, counter: nat :: Seen(chain, n, p, counter) ==> Accounted(cs, p, counter)
  }

  /** After the first `n` looks `cs` holds, in order, the first chain to each of the first 256 counters. */
  ghost predicate Found(chain: Position -> Option<nat>, n: nat, cs: seq<Candidate>, truncated: bool)
  {
    && |cs| <= 256 && Ordered(cs) && AllFirst(chain, n, cs) && AllAccounted(chain, n, cs)
    && (truncated <==> Missing(chain, n, cs))
  }

  /** The counters of two candidates differ. */
  lemma CountersAreDistinct(chain: Position -> Option<nat>, n: nat, cs: seq<Candidate>, truncated: bool, i: nat, j: nat)
    requires Found(chain, n, cs, truncated) && i < j < |cs|
    ensures cs[i].counter != cs[j].counter
  {
    assert IsFirst(chain, n, cs[i]) && IsFirst(chain, n, cs[j]);
  }

  lemma OneLookMore(chain: Position -> Option<nat>, p: Position, q: Position, counter: nat)
    requires IsPosition(p)
    ensures Seen(chain, Rank(p) + 1, q, counter) <==>
              Seen(chain, Rank(p), q, counter) || (q == p && chain(p) == Some(counter))
  {
    if IsPosition(q) && Rank(q) == Rank(p) {
      RankIsInjective(p, q);
    }
  }

  lemma StillFirst(chain: Position -> Option<nat>, p: Position, cs: seq<Candidate>)
    requires IsPosition(p) && AllFirst(chain, Rank(p), cs)
    requires chain(p).Some? ==> !HasCounter(cs, chain(p).value)
    ensures AllFirst(chain, Rank(p) + 1, cs)
  {
    forall i | 0 <= i < |cs|
      ensures IsFirst(chain, Rank(p) + 1, cs[i])
    {
      assert IsFirst(chain, Rank(p), cs[i]);
      forall q: Position
        ensures Seen(chain, Rank(p) + 1, q, cs[i].counter) ==> Rank(cs[i].position) <= Rank(q)
      {
        OneLookMore(chain, p, q, cs[i].counter);
      }
    }
  }

  lemma SameMissing(chain: Position -> Option<nat>, p: Position, cs: seq<Candidate>)
    requires IsPosition(p) && (chain(p).Some? ==> HasCounter(cs, chain(p).value))
    ensures Missing(chain, Rank(p) + 1, cs) <==> Missing(chain, Rank(p), cs)
  {
    var n := Rank(p);
    if Missing(chain, n, cs) {
      var q: Position, counter: nat :| Seen(chain, n, q, counter) && !HasCounter(cs, counter);
      assert Seen(chain, n + 1, q, counter);
    }
    if Missing(chain, n + 1, cs) {
      var q: Position, counter: nat :| Seen(chain, n + 1, q, counter) && !HasCounter(cs, counter);
      OneLookMore(chain, p, q, counter);
    }
  }

  /** A look that meets no chain changes nothing. */
  lemma NoChain(chain: Position -> Option<nat>, p: Position, cs: seq<Candidate>, truncated: bool)
    requires IsPosition(p) && Found(chain, Rank(p), cs, truncated) && chain(p).None?
    ensures Found(chain, Rank(p) + 1, cs, truncated)
  {
    StillFirst(chain, p, cs);
    SameMissing(chain, p, cs);
    forall q: Position, counter: nat
      ensures Seen(chain, Rank(p) + 1, q, counter) <==> Seen(chain, Rank(p), q, counter)
    {
      OneLookMore(chain, p, q, counter);
    }
  }

  /** Nor does a second chain to a known counter. */
  lemma KnownCounter(chain: Position -> Option<nat>, p: Position, cs: seq<Candidate>, truncated: bool)
    requires IsPosition(p) && Found(chain, Rank(p), cs, truncated)
    requires chain(p).Some? && HasCounter(cs, chain(p).value)
    ensures Found(chain, Rank(p) + 1, cs, truncated)
  {
    SameMissing(chain, p, cs);
    forall q: Position, counter: nat
      ensures Seen(chain, Rank(p) + 1, q, counter) <==>
                Seen(chain, Rank(p), q, counter) || (q == p && chain(p) == Some(counter))
    {
      OneLookMore(chain, p, q, counter);
    }
    forall i | 0 <= i < |cs|
      ensures IsFirst(chain, Rank(p) + 1, cs[i])
    {
      assert IsFirst(chain, Rank(p), cs[i]);
    }
  }

  /** A chain to an unknown counter, when the table is full, only sets the flag. */
  lemma TableFull(chain: Position -> Option<nat>, p: Position, cs: seq<Candidate>, truncated: bool)
    requires IsPosition(p) && Found(chain, Rank(p), cs, truncated)
    requires chain(p).Some? && !HasCounter(cs, chain(p).value)
    requires |cs| == MAX_CANDIDATES
    ensures Found(chain, Rank(p) + 1, cs, true)
  {
    StillFirst(chain, p, cs);
    OneLookMore(chain, p, p, chain(p).value);
    assert IsFirst(chain, Rank(p), cs[|cs| - 1]);
    forall q: Position, counter: nat | Seen(chain, Rank(p) + 1, q, counter)
      ensures Accounted(cs, q, counter)
    {
      OneLookMore(chain, p, q, counter);
    }
  }

  lemma AllKnown(chain: Position -> Option<nat>, n: nat, cs: seq<Candidate>, truncated: bool, q: Position, counter: nat)
    requires Found(chain, n, cs, truncated) && |cs| < MAX_CANDIDATES && Seen(chain, n, q, counter)
    ensures HasCounter(cs, counter)
  {
    assert Accounted(cs, q, counter);
  }

  lemma NoneMissing(chain: Position -> Option<nat>, n: nat, cs: seq<Candidate>, truncated: bool)
    requires Found(chain, n, cs, truncated) && |cs| < MAX_CANDIDATES
    ensures !truncated
  {
    forall q: Position, counter: nat | Seen(chain, n, q, counter)
      ensures HasCounter(cs, counter)
    {
      AllKnown(chain, n, cs, truncated, q, counter);
    }
  }

  lemma StillKnown(cs: seq<Candidate>, c: Candidate, counter: nat)
    requires HasCounter(cs, counter) || counter == c.counter
    ensures HasCounter(cs + [c], counter)
  {
    var all := cs + [c];
    assert all[|cs|] == c;
    if HasCounter(cs, counter) {
      var i :| 0 <= i < |cs| && cs[i].counter == counter;
      assert all[i].counter == counter;
    }
  }

  /** A chain to an unknown counter, while there is room, becomes the last candidate. */
  lemma OneMore(chain: Position -> Option<nat>, p: Position, cs: seq<Candidate>, truncated: bool, c: Candidate)
    requires IsPosition(p) && Found(chain, Rank(p), cs, truncated)
    requires chain(p) == Some(c.counter) && !HasCounter(cs, c.counter)
    requires c.position == p && |cs| < MAX_CANDIDATES
    ensures Found(chain, Rank(p) + 1, cs + [c], false) && !truncated
  {
    var all := cs + [c];
    StillFirst(chain, p, cs);
    forall q: Position, counter: nat | Seen(chain, Rank(p) + 1, q, counter)
      ensures Accounted(all, q, counter) && HasCounter(all, counter)
    {
      OneLookMore(chain, p, q, counter);
      if Seen(chain, Rank(p), q, counter) {
        AllKnown(chain, Rank(p), cs, truncated, q, counter);
      }
      StillKnown(cs, c, counter);
    }
    NoneMissing(chain, Rank(p), cs, truncated);
    forall q: Position
      ensures Seen(chain, Rank(p) + 1, q, c.counter) ==> Rank(p) <= Rank(q)
    {
      OneLookMore(chain, p, q, c.counter);
      if Seen(chain, Rank(p), q, c.counter) {
        AllKnown(chain, Rank(p), cs, truncated, q, c.counter);
      }
    }
    assert Seen(chain, Rank(p) + 1, p, c.counter);
    assert IsFirst(chain, Rank(p) + 1, c);
    forall i | 0 <= i < |cs|
      ensures Rank(cs[i].position) < Rank(p)
    {
      assert IsFirst(chain, Rank(p), cs[i]);
    }
  }

  // ---------- The scan ----------

  datatype State = State(candidates: seq<Candidate>, truncated: bool)

  /** The chain met at `p`, if any, joins the candidates. */
  ghost function Next(m: Snapshot, s: State, p: Position, met: Option<nat>): State
  {
    if met.None? || HasCounter(s.candidates, met.value) then s
    else if |s.candidates| == MAX_CANDIDATES then s.(truncated := true)
    else s.(candidates := s.candidates + [Candidate(p, met.value, m.Word(met.value, 4), None, None)])
  }

  /** The look of rank `n`. */
  function PositionAt(n: nat): Position
  {
    Position(n / LAYOUTS / RECORDS, n / LAYOUTS % RECORDS, n % LAYOUTS)
  }

  /** A look: where, and the chain met there. */
  datatype Sight = Sight(at: Position, met: Option<nat>)

  /** `sights` lists the looks of a scan in order. */
  ghost predicate InScanOrder(sights: nat -> Sight, m: Snapshot, base: int)
  {
    forall p: Position {:trigger ChainAt(m, base, p)} ::
      IsPosition(p) ==> sights(Rank(p)) == Sight(p, ChainAt(m, base, p))
  }

  /** The candidates after the first `n` looks. */
  ghost function After(m: Snapshot, sights: nat -> Sight, n: nat): State
    decreases n, m
  {
    if n == 0 then State([], false)
    else Next(m, After(m, sights, n - 1), sights(n - 1).at, sights(n - 1).met)
  }

  lemma PositionOfRank(p: Position)
    requires IsPosition(p)
    ensures PositionAt(Rank(p)) == p
  {
  }

  lemma RankOfPosition(n: nat)
    requires n < WINDOWS * RECORDS * LAYOUTS
    ensures IsPosition(PositionAt(n)) && Rank(PositionAt(n)) == n
  {
  }

  lemma SightsExist(m: Snapshot, base: int) returns (sights: nat -> Sight)
    ensures InScanOrder(sights, m, base)
  {
    sights := (n: nat) => Sight(PositionAt(n), ChainAt(m, base, PositionAt(n)));
    forall p: Position | IsPosition(p)
      ensures sights(Rank(p)) == Sight(p, ChainAt(m, base, p))
    {
      PositionOfRank(p);
    }
  }

  lemma {:induction false} UnreadableLooks(m: Snapshot, base: int, sights: nat -> Sight, w: nat, n: nat, k: nat)
    requires InScanOrder(sights, m, base) && n == Rank(Position(w, 0, 0))
    requires w < WINDOWS && !m.readable(base + WindowOffset(w), READ_SIZE) && k <= RECORDS * LAYOUTS
    ensures After(m, sights, n + k) == After(m, sights, n)
    decreases k
  {
    if k > 0 {
      UnreadableLooks(m, base, sights, w, n, k - 1);
      UnreadableLook(m, base, sights, w, n + k - 1);
    }
  }

  lemma UnreadableLook(m: Snapshot, base: int, sights: nat -> Sight, w: nat, n: nat)
    requires InScanOrder(sights, m, base)
    requires w < WINDOWS && !m.readable(base + WindowOffset(w), READ_SIZE)
    requires Rank(Position(w, 0, 0)) <= n < Rank(Position(w + 1, 0, 0))
    ensures sights(n).met.None?
  {
    var k := n - Rank(Position(w, 0, 0));
    var p := Position(w, k / LAYOUTS, k % LAYOUTS);
    assert Rank(p) == n;
    assert ChainAt(m, base, p).None?;
  }

  ghost predicate FirstsRead(m: Snapshot, cs: seq<Candidate>)
  {
    forall i :: 0 <= i < |cs| ==> cs[i].first == m.Word(cs[i].counter, 4) && cs[i].third.None?
  }

  /** After `n` looks the state is what its specification says. */
  ghost predicate Accurate(m: Snapshot, chain: Position -> Option<nat>, n: nat, s: State)
  {
    Found(chain, n, s.candidates, s.truncated) && FirstsRead(m, s.candidates)
  }

  lemma NextIsAccurate(m: Snapshot, chain: Position -> Option<nat>, n: nat, s: State, p: Position)
    requires IsPosition(p) && n == Rank(p) && Accurate(m, chain, n, s)
    ensures Accurate(m, chain, n + 1, Next(m, s, p, chain(p)))
  {
    var met := chain(p);
    if met.None? {
      NoChain(chain, p, s.candidates, s.truncated);
    } else if HasCounter(s.candidates, met.value) {
      KnownCounter(chain, p, s.candidates, s.truncated);
    } else if |s.candidates| == MAX_CANDIDATES {
      TableFull(chain, p, s.candidates, s.truncated);
    } else {
      OneMore(chain, p, s.candidates, s.truncated, Candidate(p, met.value, m.Word(met.value, 4), None, None));
    }
  }

  ghost predicate SightIs(sights: nat -> Sight, chain: Position -> Option<nat>, n: nat)
  {
    exists p :: IsPosition(p) && Rank(p) == n && sights(n) == Sight(p, chain(p))
  }

  lemma {:induction false} FoldIsAccurate(m: Snapshot, chain: Position -> Option<nat>, sights: nat -> Sight, n: nat)
    requires forall k :: 0 <= k < n ==> SightIs(sights, chain, k)
    ensures Accurate(m, chain, n, After(m, sights, n))
    decreases n
  {
    if n > 0 {
      FoldIsAccurate(m, chain, sights, n - 1);
      assert SightIs(sights, chain, n - 1);
      var p :| IsPosition(p) && Rank(p) == n - 1 && sights(n - 1) == Sight(p, chain(p));
      NextIsAccurate(m, chain, n - 1, After(m, sights, n - 1), p);
    } else {
      NothingSeen(chain);
    }
  }

  lemma SightAt(m: Snapshot, base: int, sights: nat -> Sight, n: nat)
    requires InScanOrder(sights, m, base) && n < WINDOWS * RECORDS * LAYOUTS
    ensures SightIs(sights, Chains(m, base), n)
  {
    RankOfPosition(n);
    var p := PositionAt(n);
    assert sights(Rank(p)) == Sight(p, ChainAt(m, base, p));
  }

  /** The candidates of the scan are exactly those its specification names. */
  lemma ScanIsAccurate(m: Snapshot, base: int, sights: nat -> Sight, n: nat)
    requires InScanOrder(sights, m, base) && n <= WINDOWS * RECORDS * LAYOUTS
    ensures Accurate(m, Chains(m, base), n, After(m, sights, n))
  {
    forall k | 0 <= k < n
      ensures SightIs(sights, Chains(m, base), k)
    {
      SightAt(m, base, sights, k);
    }
    FoldIsAccurate(m, Chains(m, base), sights, n);
  }

  lemma NothingSeen(chain: Position -> Option<nat>)
    ensures Found(chain, 0, [], false)
  {
  }

  /** A field of a window buffer is the word of memory there. */
  lemma FieldOf(m: Snapshot, address: int, window: seq<Byte>, at: nat, n: nat)
    requires window == m.Bytes(address, |window|) && at + n <= |window|
    ensures FromBytes(window[at..at + n]) == m.Word(address + at, n)
  {
    assert window[at..at + n] == m.Bytes(address + at, n);
  }

  method ReadField(m: Snapshot, address: int, buffer: array<Byte>, at: nat, n: nat) returns (v: nat)
    requires buffer[..] == m.Bytes(address, buffer.Length) && at + n <= buffer.Length
    ensures v == m.Word(address + at, n)
  {
    FieldOf(m, address, buffer[..], at, n);
    assert buffer[at..at + n] == buffer[..][at..at + n];
    v := FromBytes(buffer[at..at + n]);
  }

  method IsKnown(cs: array<Candidate>, count: nat, counter: nat) returns (known: bool)
    requires count <= cs.Length
    ensures known <==> HasCounter(cs[..count], counter)
  {
    for i := 0 to count
      invariant forall j :: 0 <= j < i ==> cs[..count][j].counter != counter
    {
      if cs[i].counter == counter {
        assert cs[..count][i].counter == counter;
        return true;
      }
    }
    return false;
  }

  /** `add_candidate`, with its counter unreadable or read once. */
  method AddCandidate(m: Snapshot, p: Position, root: nat, cs: array<Candidate>, count: nat, truncated: bool)
      returns (count': nat, truncated': bool)
    requires cs.Length == MAX_CANDIDATES && count <= cs.Length
    modifies cs
    ensures count' <= cs.Length
    ensures var counter := root + COUNTER_OFFSET;
            m.readable(counter, 4) || HasCounter(old(cs[..count]), counter) ==>
              State(cs[..count'], truncated') == Next(m, State(old(cs[..count]), truncated), p, Some(counter))
    ensures !m.readable(root + COUNTER_OFFSET, 4) ==> State(cs[..count'], truncated') == State(old(cs[..count]), truncated)
  {
    count', truncated' := count, truncated;
    var counter := root + COUNTER_OFFSET;
    var known := IsKnown(cs, count, counter);
    if known {
      return;
    }
    var first := m.Read(counter, 4);
    if first.None? {
      return;
    }
    if count == cs.Length {
      truncated' := true;
      return;
    }
    ghost var before := cs[..count];
    cs[count] := Candidate(p, counter, first.value, None, None);
    count' := count + 1;
    assert cs[..count'] == before + [cs[count]];
  }

  /** `buffer` holds the window `w`. */
  ghost predicate Holds(m: Snapshot, base: int, w: nat, buffer: array<Byte>)
    reads buffer
  {
    && buffer.Length == READ_SIZE && m.readable(base + WindowOffset(w), READ_SIZE)
    && buffer[..] == m.Bytes(base + WindowOffset(w), READ_SIZE)
  }

  method ReadRecord(m: Snapshot, base: int, p: Position, buffer: array<Byte>) returns (enabled: nat, pointer: nat)
    requires IsPosition(p) && Holds(m, base, p.window, buffer)
    ensures ChainAt(m, base, p) == ChainFrom(m, enabled, pointer)
  {
    LooksStayInside(p);
    var local := p.record * 8;
    enabled := ReadField(m, base + WindowOffset(p.window), buffer, local + EnabledOffset(p.layout), 4);
    pointer := ReadField(m, base + WindowOffset(p.window), buffer, local + PointerOffset(p.layout), 8);
  }

  /** One look at a record in a window buffer. */
  method Look(m: Snapshot, base: int, p: Position, buffer: array<Byte>, cs: array<Candidate>, count: nat, truncated: bool)
      returns (count': nat, truncated': bool)
    requires IsPosition(p) && cs.Length == MAX_CANDIDATES && count <= cs.Length && Holds(m, base, p.window, buffer)
    modifies cs
    ensures count' <= cs.Length
    ensures State(cs[..count'], truncated') ==
              Next(m, State(old(cs[..count]), truncated), p, ChainAt(m, base, p))
  {
    count', truncated' := count, truncated;
    var enabled, pointer := ReadRecord(m, base, p, buffer);
    if enabled == 0 || enabled > 8 || !Plausible(pointer) {
      return;
    }
    var root := m.Read(pointer, 8);
    if root.None? || !Plausible(root.value) {
      return;
    }
    count', truncated' := AddCandidate(m, p, root.value, cs, count, truncated);
  }

  method LookNext(m: Snapshot, base: int, p: Position, buffer: array<Byte>, cs: array<Candidate>,
                  count: nat, truncated: bool, ghost sights: nat -> Sight, ghost n: nat)
      returns (count': nat, truncated': bool)
    requires IsPosition(p) && cs.Length == MAX_CANDIDATES && count <= cs.Length && Holds(m, base, p.window, buffer)
    requires InScanOrder(sights, m, base) && n == Rank(p)
    requires State(cs[..count], truncated) == After(m, sights, n)
    modifies cs
    ensures count' <= cs.Length && State(cs[..count'], truncated') == After(m, sights, n + 1)
  {
    assert sights(n) == Sight(p, ChainAt(m, base, p));
    count', truncated' := Look(m, base, p, buffer, cs, count, truncated);
  }

  method ScanRecord(m: Snapshot, base: int, w: nat, record: nat, buffer: array<Byte>,
                    cs: array<Candidate>, count: nat, truncated: bool, ghost sights: nat -> Sight, ghost n: nat)
      returns (count': nat, truncated': bool)
    requires w < WINDOWS && record < RECORDS && cs.Length == MAX_CANDIDATES && count <= cs.Length
    requires Holds(m, base, w, buffer) && InScanOrder(sights, m, base) && n == Rank(Position(w, record, 0))
    requires State(cs[..count], truncated) == After(m, sights, n)
    modifies cs
    ensures count' <= cs.Length && State(cs[..count'], truncated') == After(m, sights, n + LAYOUTS)
  {
    count', truncated' := count, truncated;
    for layout := 0 to LAYOUTS
      invariant count' <= cs.Length && Holds(m, base, w, buffer)
      invariant State(cs[..count'], truncated') == After(m, sights, n + layout)
    {
      count', truncated' := LookNext(m, base, Position(w, record, layout), buffer, cs, count', truncated', sights, n + layout);
    }
  }

  method ScanWindow(m: Snapshot, base: int, w: nat, buffer: array<Byte>,
                    cs: array<Candidate>, count: nat, truncated: bool, ghost sights: nat -> Sight, ghost n: nat)
      returns (count': nat, truncated': bool)
    requires w < WINDOWS && cs.Length == MAX_CANDIDATES && count <= cs.Length
    requires Holds(m, base, w, buffer) && InScanOrder(sights, m, base) && n == Rank(Position(w, 0, 0))
    requires State(cs[..count], truncated) == After(m, sights, n)
    modifies cs
    ensures count' <= cs.Length && State(cs[..count'], truncated') == After(m, sights, n + RECORDS * LAYOUTS)
  {
    count', truncated' := count, truncated;
    var record := 0;
    while record * 8 + LOOKAHEAD <= buffer.Length
      invariant record <= RECORDS && count' <= cs.Length && Holds(m, base, w, buffer)
      invariant State(cs[..count'], truncated') == After(m, sights, n + record * LAYOUTS)
      decreases RECORDS - record
    {
      count', truncated' := ScanRecord(m, base, w, record, buffer, cs, count', truncated', sights, n + record * LAYOUTS);
      record := record + 1;
    }
  }

  /** The whole scan. */
  method Scan(m: Snapshot, base: int, cs: array<Candidate>, ghost sights: nat -> Sight)
      returns (count: nat, truncated: bool)
    requires cs.Length == MAX_CANDIDATES && InScanOrder(sights, m, base)
    modifies cs
    ensures count <= cs.Length && State(cs[..count], truncated) == After(m, sights, WINDOWS * RECORDS * LAYOUTS)
  {
    count, truncated := 0, false;
    var buffer := new Byte[READ_SIZE];
    var w := 0;
    while SCAN_BEGIN + w * SCAN_STEP < SCAN_END
      invariant w <= WINDOWS && count <= cs.Length
      invariant State(cs[..count], truncated) == After(m, sights, w * RECORDS * LAYOUTS)
      decreases WINDOWS - w
    {
      var ok := m.ReadMemory(base + WindowOffset(w), buffer);
      if ok {
        count, truncated := ScanWindow(m, base, w, buffer, cs, count, truncated, sights, w * RECORDS * LAYOUTS);
      } else {
        UnreadableLooks(m, base, sights, w, w * RECORDS * LAYOUTS, RECORDS * LAYOUTS);
      }
      w := w + 1;
    }
  }

  // ---------- Validation ----------

  /** Smaller is steadier and nearer a display rate; nothing when the counter does not move like frames. */
  function Score(first: nat, second: nat, third: nat): Option<nat>
  {
    var d1, d2 := (second - first) % TWO32, (third - second) % TWO32;
    if d1 == 0 || d1 > 45 || d2 == 0 || d2 > 45 || Abs(d1 - d2) > 4 then None else
    var fps := (d1 + d2) * 2;
    Some(Abs(d1 - d2) * 1000 + Min(Abs(fps - 30), Min(Abs(fps - 60), Abs(fps - 120))) * 10)
  }

  /** The three moments a counter is read at. */
  datatype Moments = Moments(scan: Snapshot, later: Snapshot, last: Snapshot)
  {
    function ScoreOf(counter: nat): Option<nat>
    {
      var second, third := later.Read(counter, 4), last.Read(counter, 4);
      if second.None? || third.None? then None
      else Score(scan.Word(counter, 4), second.value, third.value)
    }
  }

  // ---------- What a score means ----------

  /** How far a wrapping counter advanced from one reading to the next. */
  function Advance(before: nat, after: nat): nat
  {
    (after - before) % TWO32
  }

  /** A counter that moves like displayed frames, over both waits and nearly alike. */
  predicate MovesLikeFrames(first: nat, second: nat, third: nat)
  {
    && 1 <= Advance(first, second) <= 45 && 1 <= Advance(second, third) <= 45
    && -4 <= Advance(first, second) - Advance(second, third) <= 4
  }

  /** How much the two advances differ. */
  function Jitter(first: nat, second: nat, third: nat): (j: nat)
    ensures j == Advance(first, second) - Advance(second, third) || j == Advance(second, third) - Advance(first, second)
  {
    var d := Advance(first, second) - Advance(second, third);
    if d < 0 then -d else d
  }

  /** How far the frames per second, from both quarter seconds, lie from the nearest display rate. */
  function RateDistance(first: nat, second: nat, third: nat): (d: nat)
    ensures var fps := 2 * (Advance(first, second) + Advance(second, third));
            && d <= Abs(fps - 30) && d <= Abs(fps - 60) && d <= Abs(fps - 120)
            && (d == Abs(fps - 30) || d == Abs(fps - 60) || d == Abs(fps - 120))
  {
    var fps := 2 * (Advance(first, second) + Advance(second, third));
    if fps < 45 then Abs(fps - 30) else if fps < 90 then Abs(fps - 60) else Abs(fps - 120)
  }

  /** Exactly the counters that move like frames have a score: jitter first, then distance. */
  lemma ScoreMeans(first: nat, second: nat, third: nat)
    ensures Score(first, second, third).Some? <==> MovesLikeFrames(first, second, third)
    ensures MovesLikeFrames(first, second, third) ==>
              && RateDistance(first, second, third) <= 60
              && Score(first, second, third).value ==
                 1000 * Jitter(first, second, third) + 10 * RateDistance(first, second, third)
  {
  }

  function CandidateScore(c: Candidate): Option<nat>
  {
    if c.second.None? || c.third.None? then None else Score(c.first, c.second.value, c.third.value)
  }

  /** `after` is `before` with the counters read again. */
  ghost predicate Remeasured(t: Moments, before: seq<Candidate>, after: seq<Candidate>)
  {
    && |after| == |before|
    && forall i :: 0 <= i < |after| ==>
         && after[i].position == before[i].position && after[i].counter == before[i].counter
         && CandidateScore(after[i]) == t.ScoreOf(before[i].counter)
  }

  method ReadSecond(m: Snapshot, cs: array<Candidate>, count: nat)
    requires count <= cs.Length
    modifies cs
    ensures forall i :: 0 <= i < count ==> cs[i] == old(cs[i]).(second := m.Read(old(cs[i]).counter, 4))
  {
    for i := 0 to count
      invariant forall j :: 0 <= j < i ==> cs[j] == old(cs[j]).(second := m.Read(old(cs[j]).counter, 4))
      invariant forall j :: i <= j < count ==> cs[j] == old(cs[j])
    {
      cs[i] := cs[i].(second := m.Read(cs[i].counter, 4));
    }
  }

  /** Only counters that could be read a second time are read a third. */
  method ReadThird(m: Snapshot, cs: array<Candidate>, count: nat)
    requires count <= cs.Length
    requires forall i :: 0 <= i < count ==> cs[i].third.None?
    modifies cs
    ensures forall i :: 0 <= i < count ==>
              cs[i] == if old(cs[i]).second.Some? then old(cs[i]).(third := m.Read(old(cs[i]).counter, 4)) else old(cs[i])
  {
    for i := 0 to count
      invariant forall j :: 0 <= j < i ==>
                  cs[j] == if old(cs[j]).second.Some? then old(cs[j]).(third := m.Read(old(cs[j]).counter, 4)) else old(cs[j])
      invariant forall j :: i <= j < count ==> cs[j] == old(cs[j])
    {
      if cs[i].second.Some? {
        cs[i] := cs[i].(third := m.Read(cs[i].counter, 4));
      }
    }
  }

  method Remeasure(t: Moments, cs: array<Candidate>, count: nat)
    requires count <= cs.Length && FirstsRead(t.scan, cs[..count])
    modifies cs
    ensures Remeasured(t, old(cs[..count]), cs[..count])
  {
    assert forall i :: 0 <= i < count ==> cs[..count][i] == cs[i];
    ReadSecond(t.later, cs, count);
    ReadThird(t.last, cs, count);
  }

  function Scores(cs: seq<Candidate>): (s: seq<Option<nat>>)
    ensures |s| == |cs| && forall i :: 0 <= i < |cs| ==> s[i] == CandidateScore(cs[i])
  {
    seq(|cs|, i requires 0 <= i < |cs| => CandidateScore(cs[i]))
  }

  /** The first of the least of the first `n` scores. */
  ghost predicate IsLeast(scores: seq<Option<nat>>, n: nat, i: nat)
  {
    && i < n <= |scores| && scores[i].Some?
    && forall j :: 0 <= j < n && scores[j].Some? ==>
         scores[i].value <= scores[j].value && (j < i ==> scores[i].value < scores[j].value)
  }

  /** The first candidate of the least score among those that have one. */
  ghost predicate IsBest(cs: seq<Candidate>, n: nat, i: nat)
  {
    IsLeast(Scores(cs), n, i)
  }

  ghost predicate NoneScores(cs: seq<Candidate>, n: nat)
  {
    n <= |cs| && forall j :: 0 <= j < n ==> CandidateScore(cs[j]).None?
  }

  method Select(cs: array<Candidate>, count: nat) returns (selected: nat)
    requires count <= cs.Length
    ensures if selected == count then NoneScores(cs[..count], count) else IsBest(cs[..count], count, selected)
  {
    ghost var all := cs[..count];
    selected := count;
    var least := 0xFFFF_FFFF;
    for i := 0 to count
      invariant if selected == count then least == 0xFFFF_FFFF && NoneScores(all, i)
                else IsBest(all, i, selected) && least == CandidateScore(all[selected]).value
    {
      assert cs[i] == all[i] && Scores(all)[i] == CandidateScore(all[i]);
      var score := CandidateScore(cs[i]);
      if score.Some? {
        ScoreIsSmall(cs[i]);
        if score.value < least {
          selected, least := i, score.value;
        }
      }
    }
  }

  lemma ScoreIsSmall(c: Candidate)
    ensures CandidateScore(c).Some? ==> CandidateScore(c).value < 10_000
  {
  }

  // ---------- Discovery ----------

  function FixedEntry(m: Snapshot, base: int, i: nat): Option<nat>
  {
    var entry := base + TABLE_OFFSET + i * TABLE_ENTRY_SIZE;
    var enabled, pointer := m.Word(entry, 4), m.Word(entry + 8, 8);
    if enabled == 0 || pointer == 0 then None else
    var root := m.Read(pointer, 8);
    if root.None? || root.value == 0 then None else Some(Add64(root.value, COUNTER_OFFSET))
  }

  /** An entry is 24 bytes from 0x34980 on: a 32-bit flag, and at +8 a pointer to a root 0x768 before the counter. */
  lemma FixedEntryMeans(m: Snapshot, base: int, i: nat, counter: nat)
    ensures FixedEntry(m, base, i) == Some(counter) <==>
              var at := base + 0x34980 + 24 * i;
              var pointer := m.Word(at + 8, 8);
              && m.Word(at, 4) != 0 && pointer != 0 && m.readable(pointer, 8) && m.Word(pointer, 8) != 0
              && counter == (m.Word(pointer, 8) + 0x768) % TWO64
  {
  }

  /** The first usable entry of the fixed table, on the firmware it was proven on. */
  ghost predicate IsFixedChain(m: Snapshot, base: int, sdk: Word32, found: Option<nat>)
  {
    var usable := sdk / 0x10000 == FIXED_TABLE_SDK && m.readable(base + TABLE_OFFSET, TABLE_ENTRIES * TABLE_ENTRY_SIZE);
    if found.None? then usable ==> forall i :: 0 <= i < TABLE_ENTRIES ==> FixedEntry(m, base, i).None?
    else usable && exists i :: 0 <= i < TABLE_ENTRIES && FixedEntry(m, base, i) == found &&
                               forall j :: 0 <= j < i ==> FixedEntry(m, base, j).None?
  }

  method ReadFixedTable(m: Snapshot, base: int, sdk: Word32) returns (found: Option<nat>)
    ensures IsFixedChain(m, base, sdk, found)
  {
    if sdk / 0x10000 != FIXED_TABLE_SDK {
      return None;
    }
    var table := new Byte[TABLE_ENTRIES * TABLE_ENTRY_SIZE];
    var ok := m.ReadMemory(base + TABLE_OFFSET, table);
    if !ok {
      return None;
    }
    for i := 0 to TABLE_ENTRIES
      invariant table[..] == m.Bytes(base + TABLE_OFFSET, TABLE_ENTRIES * TABLE_ENTRY_SIZE)
      invariant forall j :: 0 <= j < i ==> FixedEntry(m, base, j).None?
    {
      var at := i * TABLE_ENTRY_SIZE;
      var enabled := ReadField(m, base + TABLE_OFFSET, table, at, 4);
      var pointer := ReadField(m, base + TABLE_OFFSET, table, at + 8, 8);
      if enabled != 0 && pointer != 0 {
        var root := m.Read(pointer, 8);
        if root.Some? && root.value != 0 {
          assert FixedEntry(m, base, i) == Some(Add64(root.value, COUNTER_OFFSET));
          return Some(Add64(root.value, COUNTER_OFFSET));
        }
      }
    }
    return None;
  }

  ghost predicate IsChain(m: Snapshot, base: int, p: Position, counter: nat)
  {
    IsPosition(p) && ChainAt(m, base, p) == Some(counter)
  }

  /** No chain in the module beats `counter`: not on score, nor, on equal scores, by coming earlier. */
  ghost predicate Unbeaten(t: Moments, base: int, p: Position, counter: nat)
  {
    && IsChain(t.scan, base, p, counter) && t.ScoreOf(counter).Some?
    && forall q: Position, other: nat :: IsChain(t.scan, base, q, other) && t.ScoreOf(other).Some? ==>
         && t.ScoreOf(counter).value <= t.ScoreOf(other).value
         && (t.ScoreOf(counter) == t.ScoreOf(other) ==> Rank(p) <= Rank(q))
  }

  ghost predicate NoChainScores(t: Moments, base: int)
  {
    forall q: Position, other: nat :: IsChain(t.scan, base, q, other) ==> t.ScoreOf(other).None?
  }

  const LOOKS: nat := WINDOWS * RECORDS * LAYOUTS

  lemma HoldsTheFirst(m: Snapshot, base: int, cs: seq<Candidate>, q: Position, other: nat) returns (j: nat)
    requires Accurate(m, Chains(m, base), LOOKS, State(cs, false)) && IsChain(m, base, q, other)
    ensures j < |cs| && cs[j].counter == other && Rank(cs[j].position) <= Rank(q)
  {
    assert Seen(Chains(m, base), LOOKS, q, other);
    j :| 0 <= j < |cs| && cs[j].counter == other;
    assert IsFirst(Chains(m, base), LOOKS, cs[j]);
  }

  lemma CandidateIsChain(m: Snapshot, base: int, cs: seq<Candidate>, truncated: bool, i: nat)
    requires Accurate(m, Chains(m, base), LOOKS, State(cs, truncated)) && i < |cs|
    ensures IsChain(m, base, cs[i].position, cs[i].counter)
  {
    assert IsFirst(Chains(m, base), LOOKS, cs[i]);
  }

  lemma NotBeatenBy(m: Snapshot, base: int, cs: seq<Candidate>, scores: seq<Option<nat>>,
                    score: nat -> Option<nat>, i: nat, q: Position, other: nat)
    requires Accurate(m, Chains(m, base), LOOKS, State(cs, false)) && IsChain(m, base, q, other)
    requires |scores| == |cs| && forall j :: 0 <= j < |cs| ==> scores[j] == score(cs[j].counter)
    requires IsLeast(scores, |scores|, i) && score(other).Some?
    ensures scores[i].value <= score(other).value
    ensures scores[i] == score(other) ==> Rank(cs[i].position) <= Rank(q)
  {
    var j := HoldsTheFirst(m, base, cs, q, other);
    assert scores[j] == score(other);
    assert i < j ==> Rank(cs[i].position) < Rank(cs[j].position);
  }

  /** With no candidate dropped, the best candidate is the best chain of the whole module. */
  lemma BestOfModule(t: Moments, base: int, before: seq<Candidate>, after: seq<Candidate>, i: nat)
    requires Accurate(t.scan, Chains(t.scan, base), LOOKS, State(before, false))
    requires Remeasured(t, before, after) && IsBest(after, |after|, i)
    ensures Unbeaten(t, base, after[i].position, after[i].counter)
  {
    CandidateIsChain(t.scan, base, before, false, i);
    var scores, score := Scores(after), (counter: nat) => t.ScoreOf(counter);
    assert scores[i] == t.ScoreOf(after[i].counter);
    forall q: Position, other: nat | IsChain(t.scan, base, q, other) && t.ScoreOf(other).Some?
      ensures t.ScoreOf(after[i].counter).value <= t.ScoreOf(other).value
      ensures t.ScoreOf(after[i].counter) == t.ScoreOf(other) ==> Rank(after[i].position) <= Rank(q)
    {
      NotBeatenBy(t.scan, base, before, scores, score, i, q, other);
    }
  }

  lemma NoneOfModule(t: Moments, base: int, before: seq<Candidate>, after: seq<Candidate>)
    requires Accurate(t.scan, Chains(t.scan, base), LOOKS, State(before, false))
    requires Remeasured(t, before, after) && NoneScores(after, |after|)
    ensures NoChainScores(t, base)
  {
    forall q: Position, other: nat | IsChain(t.scan, base, q, other)
      ensures t.ScoreOf(other).None?
    {
      var j := HoldsTheFirst(t.scan, base, before, q, other);
      assert CandidateScore(after[j]) == t.ScoreOf(other);
    }
  }

  method ScanModule(m: Snapshot, base: int, cs: array<Candidate>) returns (count: nat, truncated: bool)
    requires cs.Length == MAX_CANDIDATES
    modifies cs
    ensures count <= cs.Length && Accurate(m, Chains(m, base), LOOKS, State(cs[..count], truncated))
  {
    ghost var sights := SightsExist(m, base);
    count, truncated := Scan(m, base, cs, sights);
    ScanIsAccurate(m, base, sights, LOOKS);
  }

  ghost predicate Concluded(t: Moments, base: int, found: Option<nat>, truncated: bool, at: Position)
  {
    && (found.Some? ==> IsChain(t.scan, base, at, found.value) && t.ScoreOf(found.value).Some?)
    && (!truncated ==> if found.Some? then Unbeaten(t, base, at, found.value) else NoChainScores(t, base))
  }

  lemma Conclude(t: Moments, base: int, before: seq<Candidate>, after: seq<Candidate>, truncated: bool, selected: nat)
    requires Accurate(t.scan, Chains(t.scan, base), LOOKS, State(before, truncated))
    requires Remeasured(t, before, after)
    requires if selected == |after| then NoneScores(after, |after|) else IsBest(after, |after|, selected)
    ensures if selected == |after| then Concluded(t, base, None, truncated, Position(0, 0, 0))
            else Concluded(t, base, Some(after[selected].counter), truncated, after[selected].position)
  {
    if selected < |after| {
      CandidateIsChain(t.scan, base, before, truncated, selected);
    }
    if !truncated {
      if selected == |after| {
        NoneOfModule(t, base, before, after);
      } else {
        BestOfModule(t, base, before, after, selected);
      }
    }
  }

  // ---------- The answer, in terms of readings ----------

  /** The counter could be read at all three moments. */
  ghost predicate ReadThrice(t: Moments, counter: nat)
  {
    t.later.readable(counter, 4) && t.last.readable(counter, 4)
  }

  ghost predicate Qualifies(t: Moments, counter: nat)
  {
    ReadThrice(t, counter) && MovesLikeFrames(t.scan.Word(counter, 4), t.later.Word(counter, 4), t.last.Word(counter, 4))
  }

  ghost function JitterOf(t: Moments, counter: nat): nat
  {
    Jitter(t.scan.Word(counter, 4), t.later.Word(counter, 4), t.last.Word(counter, 4))
  }

  ghost function DistanceOf(t: Moments, counter: nat): nat
  {
    RateDistance(t.scan.Word(counter, 4), t.later.Word(counter, 4), t.last.Word(counter, 4))
  }

  /** Less jitter, or as much and nearer to a display rate, or as near and earlier in the scan. */
  ghost predicate Beats(t: Moments, q: Position, other: nat, p: Position, counter: nat)
  {
    || JitterOf(t, other) < JitterOf(t, counter)
    || (JitterOf(t, other) == JitterOf(t, counter) && DistanceOf(t, other) < DistanceOf(t, counter))
    || (JitterOf(t, other) == JitterOf(t, counter) && DistanceOf(t, other) == DistanceOf(t, counter) && Rank(q) < Rank(p))
  }

  lemma QualifiesMeans(t: Moments, counter: nat)
    ensures Qualifies(t, counter) <==> t.ScoreOf(counter).Some?
    ensures Qualifies(t, counter) ==>
              t.ScoreOf(counter).value == 1000 * JitterOf(t, counter) + 10 * DistanceOf(t, counter) && DistanceOf(t, counter) <= 60
  {
    ScoreMeans(t.scan.Word(counter, 4), t.later.Word(counter, 4), t.last.Word(counter, 4));
  }

  /** A found counter qualifies; untruncated, no chain of the module beats it, or none qualifies at all. */
  ghost predicate FoundRightly(t: Moments, base: int, found: Option<nat>, truncated: bool, at: Position)
  {
    if found.Some? then
      && IsChain(t.scan, base, at, found.value) && Qualifies(t, found.value)
      && (!truncated ==>
            forall q: Position, other: nat :: IsChain(t.scan, base, q, other) && Qualifies(t, other) ==>
              !Beats(t, q, other, at, found.value))
    else
      !truncated ==> forall q: Position, other: nat :: IsChain(t.scan, base, q, other) ==> !Qualifies(t, other)
  }

  /** What the scores decide is what the readings say. */
  lemma ConclusionIsRight(t: Moments, base: int, found: Option<nat>, truncated: bool, at: Position)
    requires Concluded(t, base, found, truncated, at)
    ensures FoundRightly(t, base, found, truncated, at)
  {
    forall q: Position, other: nat | IsChain(t.scan, base, q, other) && Qualifies(t, other) && !truncated
      ensures found.Some? && !Beats(t, q, other, at, found.value)
    {
      QualifiesMeans(t, other);
      if found.Some? {
        QualifiesMeans(t, found.value);
      }
    }
    if found.Some? {
      QualifiesMeans(t, found.value);
    }
  }

  /** `resolve_counter_address` past the fixed table: scan, read twice more, select. */
  method ScanAndSelect(t: Moments, base: int) returns (found: Option<nat>, truncated: bool, at: Position)
    ensures Concluded(t, base, found, truncated, at) && FoundRightly(t, base, found, truncated, at)
  {
    at := Position(0, 0, 0);
    var cs := new Candidate[MAX_CANDIDATES](_ => Candidate(Position(0, 0, 0), 0, 0, None, None));
    var count: nat;
    count, truncated := ScanModule(t.scan, base, cs);
    ghost var before := cs[..count];
    if count == 0 {
      Conclude(t, base, before, before, truncated, 0);
      ConclusionIsRight(t, base, None, truncated, at);
      return None, truncated, at;
    }
    Remeasure(t, cs, count);
    var selected := Select(cs, count);
    Conclude(t, base, before, cs[..count], truncated, selected);
    if selected == count {
      ConclusionIsRight(t, base, None, truncated, at);
      return None, truncated, at;
    }
    found, at := Some(cs[selected].counter), cs[selected].position;
    ConclusionIsRight(t, base, found, truncated, at);
  }

  /** `resolve_counter_address`. */
  method Resolve(t: Moments, base: int, sdk: Word32) returns (found: Option<nat>, truncated: bool, at: Position)
    ensures IsFixedChain(t.scan, base, sdk, found) || IsFixedChain(t.scan, base, sdk, None)
    ensures IsFixedChain(t.scan, base, sdk, None) ==> FoundRightly(t, base, found, truncated, at)
  {
    truncated, at := false, Position(0, 0, 0);
    found := ReadFixedTable(t.scan, base, sdk);
    if found.Some? {
      return;
    }
    found, truncated, at := ScanAndSelect(t, base);
  }
}
