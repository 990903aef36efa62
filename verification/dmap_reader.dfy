/** Reading another process through the kernel's direct map, chunk by page. */
module DmapReader {
  import opened Common

  const ALLPROC_OFFSET: int := 0x02755D50
  const PROC_PID: int := 0xBC
  const PROC_VMSPACE: int := 0x200
  const PROC_NEXT: int := 0x00
  const VMSPACE_PMAP: int := 0x1D8
  const PMAP_PML4_VIRTUAL: int := 0x20
  const PMAP_PML4_PHYSICAL: int := 0x28
  const FIXED_DMAP_BASE: Word64 := 0xFFFF873B00000000
  const MAX_PROC_WALK: nat := 1024

  const PAGE_4K: nat := 0x1000
  const PAGE_2M: nat := 0x20_0000
  const PAGE_1G: nat := 0x4000_0000
  const SPAN_512G: nat := 0x80_0000_0000

  /**
    * Kernel memory, page tables included, fixed for as long as a read takes: which ranges can be copied
    * out, the byte at an address and the little-endian integer of a given length there. Addresses that
    * differ by a multiple of 2^64 name the same place, as `uintptr_t` sums do; nothing is readable at null.
    */
  datatype KernelView = KernelView(readable: (int, nat) -> bool, byte: int -> Byte, word: (int, nat) -> nat,
                                   dataBase: Word64, isFw960: bool)
  {
    /** `read_kernel_value`. */
    function ReadWord(address: int, n: nat): Option<nat>
    {
      if readable(address, n) then Some(word(address, n)) else None
    }

    function ReadPointer(address: int): Option<nat>
    {
      var w := ReadWord(address, 8);
      if w == Some(0) then None else w
    }

    /** A page-table entry with its present bit set. */
    function Entry(address: int): Option<nat>
    {
      var w := ReadWord(address, 8);
      if w.Some? && w.value % 2 == 1 then w else None
    }
  }

  // ---------- The process list ----------

  /** The first process on the list whose pid field matches, within `left` links. */
  function ProcOnList(k: KernelView, current: nat, pid: int, left: nat): nat
    decreases left, current
  {
    if current == 0 || left == 0 then 0 else
    var p := k.ReadWord(current + PROC_PID, 4);
    if p.None? then 0
    else if p.value == pid % TWO32 then current
    else
      var next := k.ReadWord(current + PROC_NEXT, 8);
      if next.None? || next.value == current then 0
      else ProcOnList(k, next.value, pid, left - 1)
  }

  function Proc(k: KernelView, pid: int): nat
  {
    if pid <= 0 || !k.isFw960 || k.dataBase == 0 then 0 else
    var head := k.ReadWord(k.dataBase + ALLPROC_OFFSET, 8);
    if head.None? then 0 else ProcOnList(k, head.value, pid, 1024)
  }

  /** The first links of the list, from `current` on, of which only the last is of the process. */
  ghost predicate EndsAt(k: KernelView, current: nat, pid: int, list: seq<nat>)
  {
    && list != [] && list[0] == current
    && (forall i :: 0 <= i < |list| ==> list[i] != 0)
    && (forall i :: 0 <= i < |list| - 1 ==> NextOf(k, list[i]) == Some(list[i + 1]) && list[i + 1] != list[i])
    && (forall i :: 0 <= i < |list| - 1 ==> PidOf(k, list[i]).Some? && PidOf(k, list[i]) != Some(pid % TWO32))
    && PidOf(k, list[|list| - 1]) == Some(pid % TWO32)
  }

  function PidOf(k: KernelView, entry: nat): Option<nat>
  {
    if k.readable(entry + 0xbc, 4) then Some(k.word(entry + 0xbc, 4)) else None
  }

  function NextOf(k: KernelView, entry: nat): Option<nat>
  {
    if k.readable(entry, 8) then Some(k.word(entry, 8)) else None
  }

  lemma {:induction false} FoundIsFirst(k: KernelView, current: nat, pid: int, left: nat) returns (list: seq<nat>)
    requires ProcOnList(k, current, pid, left) != 0
    ensures EndsAt(k, current, pid, list) && |list| <= left && list[|list| - 1] == ProcOnList(k, current, pid, left)
    decreases left, current
  {
    if PidOf(k, current) == Some(pid % TWO32) {
      list := [current];
    } else {
      var rest := FoundIsFirst(k, NextOf(k, current).value, pid, left - 1);
      list := [current] + rest;
    }
  }

  lemma {:induction false} FirstIsFound(k: KernelView, current: nat, pid: int, left: nat, list: seq<nat>)
    requires EndsAt(k, current, pid, list) && |list| <= left
    ensures ProcOnList(k, current, pid, left) == list[|list| - 1]
    decreases left, current
  {
    if |list| > 1 {
      assert NextOf(k, list[0]) == Some(list[0 + 1]);
      FirstIsFound(k, list[1], pid, left - 1, list[1..]);
    }
  }

  /** An entry is found if and only if it is the first of the process among the first `left` links. */
  lemma FoundIff(k: KernelView, current: nat, pid: int, left: nat, proc: nat)
    requires proc != 0
    ensures ProcOnList(k, current, pid, left) == proc <==>
              exists list :: EndsAt(k, current, pid, list) && |list| <= left && list[|list| - 1] == proc
  {
    if ProcOnList(k, current, pid, left) == proc {
      var list := FoundIsFirst(k, current, pid, left);
    }
    forall list | EndsAt(k, current, pid, list) && |list| <= left && list[|list| - 1] == proc
      ensures ProcOnList(k, current, pid, left) == proc
    {
      FirstIsFound(k, current, pid, left, list);
    }
  }

  /** `find_proc`. */
  method FindProc(k: KernelView, pid: int) returns (proc: nat)
    ensures proc == Proc(k, pid)
    ensures proc != 0 ==> k.ReadWord(proc + PROC_PID, 4) == Some(pid % TWO32)
  {
    if pid <= 0 || !k.isFw960 || k.dataBase == 0 {
      return 0;
    }
    var head := k.ReadWord(k.dataBase + ALLPROC_OFFSET, 8);
    if head.None? {
      return 0;
    }
    var current: nat, i: nat := head.value, 0;
    while current != 0 && i < MAX_PROC_WALK
      invariant i <= MAX_PROC_WALK
      invariant ProcOnList(k, current, pid, MAX_PROC_WALK - i) == Proc(k, pid)
      decreases MAX_PROC_WALK - i
    {
      var candidate := k.ReadWord(current + PROC_PID, 4);
      if candidate.None? {
        return 0;
      }
      if candidate.value == pid % TWO32 {
        return current;
      }
      var next := k.ReadWord(current + PROC_NEXT, 8);
      if next.None? || next.value == current {
        return 0;
      }
      current := next.value;
      i := i + 1;
    }
    return 0;
  }

  // ---------- Four-level translation (Intel SDM Vol. 3A, section 4.5) ----------

  datatype Pml4 = NoTables | Pml4(virtual: nat, physical: nat)
  datatype Page = NoPage | Page(physical: int, size: nat)

  function Tables(k: KernelView, pid: int): Pml4
  {
    var proc := Proc(k, pid);
    if proc == 0 then NoTables else
    var vmspace := k.ReadPointer(proc + PROC_VMSPACE);
    if vmspace.None? then NoTables else
    var pmap := k.ReadPointer(vmspace.value + VMSPACE_PMAP);
    if pmap.None? then NoTables else
    var virtual := k.ReadPointer(pmap.value + PMAP_PML4_VIRTUAL);
    if virtual.None? then NoTables else
    var physical := k.ReadPointer(pmap.value + PMAP_PML4_PHYSICAL);
    if physical.None? then NoTables else Pml4(virtual.value, physical.value)
  }

  /** The base in use once the tables are known: the one already chosen, or a plausible difference. */
  function ChosenBase(current: nat, t: Pml4): (base: nat)
    ensures t.Pml4? ==> base != 0
    ensures current != 0 || t.NoTables? ==> base == current
  {
    if current != 0 || t.NoTables? then current
    else if t.virtual > t.physical && t.physical < 0x100_0000_0000 &&
            t.virtual - t.physical >= 0x1_0000_0000_0000 then t.virtual - t.physical
    else FIXED_DMAP_BASE
  }

  /** The bits of an entry from the page size up to bit 51. */
  function Frame(entry: nat, size: nat): int
    requires size > 0
  {
    entry % 0x10_0000_0000_0000 - entry % size
  }

  predicate IsLargePage(entry: nat)
  {
    entry / 128 % 2 == 1
  }

  /** The address of the entry that covers `remote` in the table `entry` points to. */
  function Slot(base: nat, entry: nat, remote: nat, span: nat): int
    requires span > 0
  {
    base + Frame(entry, PAGE_4K) + remote / span % 512 * 8
  }

  function PageOf(k: KernelView, base: nat, pml4: nat, remote: nat): Page
  {
    var e4 := k.Entry(pml4 + remote / SPAN_512G % 512 * 8);
    if e4.None? then NoPage else
    var e3 := k.Entry(Slot(base, e4.value, remote, PAGE_1G));
    if e3.None? then NoPage
    else if IsLargePage(e3.value) then Page(Frame(e3.value, PAGE_1G) + remote % PAGE_1G, PAGE_1G)
    else
      var e2 := k.Entry(Slot(base, e3.value, remote, PAGE_2M));
      if e2.None? then NoPage
      else if IsLargePage(e2.value) then Page(Frame(e2.value, PAGE_2M) + remote % PAGE_2M, PAGE_2M)
      else
        var e1 := k.Entry(Slot(base, e2.value, remote, PAGE_4K));
        if e1.None? then NoPage
        else Page(Frame(e1.value, PAGE_4K) + remote % PAGE_4K, PAGE_4K)
  }

  predicate IsPageSize(size: nat)
  {
    size == PAGE_4K || size == PAGE_2M || size == PAGE_1G
  }

  // ---------- What a page table means ----------

  /** An address by its parts: the bits no table looks at, four table indices, the offset in 4 KB. */
  datatype Virtual = Virtual(high: nat, i4: nat, i3: nat, i2: nat, i1: nat, offset: nat)
  {
    predicate IsProper()
    {
      i4 < 512 && i3 < 512 && i2 < 512 && i1 < 512 && offset < PAGE_4K
    }

    function Value(): nat
    {
      high * 0x1_0000_0000_0000 + i4 * SPAN_512G + i3 * PAGE_1G + i2 * PAGE_2M + i1 * PAGE_4K + offset
    }
  }

  /** A present entry: attributes above bit 51, a frame aligned to `size`, the flags below it. */
  ghost predicate IsEntry(entry: nat, frame: int, size: nat, attributes: nat, flags: nat)
    requires IsPageSize(size)
  {
    && entry == attributes * 0x10_0000_0000_0000 + frame + flags
    && 0 <= frame < 0x10_0000_0000_0000 && frame % size == 0 && flags < size && flags % 2 == 1
  }

  ghost predicate Points(k: KernelView, at: int, frame: int, size: nat)
    requires IsPageSize(size)
  {
    k.readable(at, 8) && exists attributes, flags :: IsEntry(k.word(at, 8), frame, size, attributes, flags)
  }

  /** Bit 7: the entry maps a page itself instead of pointing to a further table. */
  ghost predicate Marked(k: KernelView, at: int)
  {
    k.word(at, 8) % 256 >= 128
  }

  ghost predicate MapsFromTable(k: KernelView, base: nat, t1: int, v: Virtual, page: Page)
  {
    page.Page? && page.size == PAGE_4K && Points(k, base + t1 + v.i1 * 8, page.physical - v.offset, PAGE_4K)
  }

  ghost predicate MapsFromDirectory(k: KernelView, base: nat, t2: int, v: Virtual, page: Page)
  {
    var at := base + t2 + v.i2 * 8;
    if Marked(k, at)
    then page.Page? && page.size == PAGE_2M && Points(k, at, page.physical - (v.i1 * PAGE_4K + v.offset), PAGE_2M)
    else exists t1 :: Points(k, at, t1, PAGE_4K) && MapsFromTable(k, base, t1, v, page)
  }

  ghost predicate MapsFromPointers(k: KernelView, base: nat, t3: int, v: Virtual, page: Page)
  {
    var at := base + t3 + v.i3 * 8;
    if Marked(k, at)
    then page.Page? && page.size == PAGE_1G &&
         Points(k, at, page.physical - (v.i2 * PAGE_2M + v.i1 * PAGE_4K + v.offset), PAGE_1G)
    else exists t2 :: Points(k, at, t2, PAGE_4K) && MapsFromDirectory(k, base, t2, v, page)
  }

  /** The tables below `pml4` put the address into `page`. */
  ghost predicate Maps(k: KernelView, base: nat, pml4: nat, v: Virtual, page: Page)
  {
    exists t3 :: Points(k, pml4 + v.i4 * 8, t3, PAGE_4K) && MapsFromPointers(k, base, t3, v, page)
  }

  lemma Quotient(q: nat, r: nat, size: nat)
    requires (IsPageSize(size) || size == SPAN_512G) && r < size
    ensures (q * size + r) / size == q && (q * size + r) % size == r
  {
  }

  lemma LowBits(high: nat, low: nat, size: nat)
    requires IsPageSize(size) && low < 0x10_0000_0000_0000
    ensures (high * 0x10_0000_0000_0000 + low) % size == low % size
  {
    var entry, q := high * 0x10_0000_0000_0000 + low, low / size;
    if size == PAGE_4K {
      assert entry == (high * 0x100_0000_0000 + q) * PAGE_4K + low % PAGE_4K;
      Quotient(high * 0x100_0000_0000 + q, low % PAGE_4K, PAGE_4K);
    } else if size == PAGE_2M {
      assert entry == (high * 0x8000_0000 + q) * PAGE_2M + low % PAGE_2M;
      Quotient(high * 0x8000_0000 + q, low % PAGE_2M, PAGE_2M);
    } else {
      assert entry == (high * 0x40_0000 + q) * PAGE_1G + low % PAGE_1G;
      Quotient(high * 0x40_0000 + q, low % PAGE_1G, PAGE_1G);
    }
  }

  lemma Parity(entry: nat, size: nat)
    requires IsPageSize(size)
    ensures entry % size % 2 == entry % 2
  {
    if size == PAGE_4K {
      Even(entry / PAGE_4K * 0x800, entry % PAGE_4K);
    } else if size == PAGE_2M {
      Even(entry / PAGE_2M * 0x10_0000, entry % PAGE_2M);
    } else {
      Even(entry / PAGE_1G * 0x2000_0000, entry % PAGE_1G);
    }
  }

  lemma Even(half: nat, r: nat)
    ensures (2 * half + r) % 2 == r % 2
  {
  }

  lemma PartsOfEntry(entry: nat, size: nat)
    requires IsPageSize(size)
    ensures IsEntry(entry, Frame(entry, size), size, entry / 0x10_0000_0000_0000, entry % size) <==> entry % 2 == 1
  {
    var attributes, page := entry / 0x10_0000_0000_0000, entry % 0x10_0000_0000_0000;
    LowBits(attributes, page, size);
    var q := page / size;
    assert page == q * size + page % size && Frame(entry, size) == q * size;
    Quotient(q, 0, size);
    Parity(entry, size);
  }

  lemma PartsAreTheEntry(entry: nat, frame: int, size: nat, attributes: nat, flags: nat)
    requires IsPageSize(size) && IsEntry(entry, frame, size, attributes, flags)
    ensures Frame(entry, size) == frame && entry % 2 == 1
  {
    FrameEnds(frame, flags, size);
    LowBits(attributes, frame + flags, size);
    Parity(entry, size);
    LowWord(attributes, frame + flags);
  }

  lemma LowWord(attributes: nat, low: nat)
    requires low < 0x10_0000_0000_0000
    ensures (attributes * 0x10_0000_0000_0000 + low) % 0x10_0000_0000_0000 == low
  {
  }

  /** The flags do not reach past bit 51, nor into the frame. */
  lemma FrameEnds(frame: nat, flags: nat, size: nat)
    requires IsPageSize(size) && frame < 0x10_0000_0000_0000 && frame % size == 0 && flags < size
    ensures frame + flags < 0x10_0000_0000_0000 && (frame + flags) % size == flags
  {
    var q := frame / size;
    assert frame == q * size;
    Quotient(q, flags, size);
    Below(q, flags, size);
  }

  lemma Below(q: nat, flags: nat, size: nat)
    requires IsPageSize(size) && q * size < 0x10_0000_0000_0000 && flags < size
    ensures q * size + flags < 0x10_0000_0000_0000
  {
    if size == PAGE_4K {
      assert q < 0x100_0000_0000;
    } else if size == PAGE_2M {
      assert q < 0x8000_0000;
    } else {
      assert q < 0x40_0000;
    }
  }

  /** An entry points where its masked bits say, and nowhere else. */
  lemma PointsIff(k: KernelView, at: int, frame: int, size: nat)
    requires IsPageSize(size)
    ensures Points(k, at, frame, size) <==> k.Entry(at).Some? && frame == Frame(k.Entry(at).value, size)
  {
    var entry := k.word(at, 8);
    PartsOfEntry(entry, size);
    if Points(k, at, frame, size) {
      var attributes, flags :| IsEntry(entry, frame, size, attributes, flags);
      PartsAreTheEntry(entry, frame, size, attributes, flags);
    }
  }

  lemma Digit(q: nat, i: nat, r: nat, size: nat)
    requires (IsPageSize(size) || size == SPAN_512G) && i < 512 && r < size
    ensures ((q * 512 + i) * size + r) / size % 512 == i && ((q * 512 + i) * size + r) % size == r
  {
    Quotient(q * 512 + i, r, size);
  }

  lemma PartsOfAddress(v: Virtual)
    requires v.IsProper()
    ensures var a := v.Value();
            && a / SPAN_512G % 512 == v.i4 && a / PAGE_1G % 512 == v.i3
            && a / PAGE_2M % 512 == v.i2 && a / PAGE_4K % 512 == v.i1
            && a % PAGE_4K == v.offset && a % PAGE_2M == v.i1 * PAGE_4K + v.offset
            && a % PAGE_1G == v.i2 * PAGE_2M + v.i1 * PAGE_4K + v.offset
  {
    var q3 := v.high * 512 + v.i4;
    var q2 := q3 * 512 + v.i3;
    var q1 := q2 * 512 + v.i2;
    Digit(q1, v.i1, v.offset, PAGE_4K);
    Digit(q2, v.i2, v.i1 * PAGE_4K + v.offset, PAGE_2M);
    Digit(q3, v.i3, v.i2 * PAGE_2M + v.i1 * PAGE_4K + v.offset, PAGE_1G);
    Digit(v.high, v.i4, v.i3 * PAGE_1G + v.i2 * PAGE_2M + v.i1 * PAGE_4K + v.offset, SPAN_512G);
  }

  lemma EveryAddressHasParts(a: nat) returns (v: Virtual)
    ensures v.IsProper() && v.Value() == a
  {
    var q1 := a / PAGE_4K;
    var q2 := q1 / 512;
    var q3 := q2 / 512;
    var q4 := q3 / 512;
    v := Virtual(q4 / 512, q4 % 512, q3 % 512, q2 % 512, q1 % 512, a % PAGE_4K);
  }

  lemma MarkedIff(entry: nat)
    ensures entry % 256 >= 128 <==> IsLargePage(entry)
  {
  }

  /** What holds of a table that `at` points to holds of the table at the masked bits. */
  lemma OnePointer(k: KernelView, at: int, holds: int -> bool)
    ensures (exists t :: Points(k, at, t, PAGE_4K) && holds(t)) <==>
              k.Entry(at).Some? && holds(Frame(k.Entry(at).value, PAGE_4K))
  {
    if k.Entry(at).Some? {
      PointsIff(k, at, Frame(k.Entry(at).value, PAGE_4K), PAGE_4K);
    }
    forall t | Points(k, at, t, PAGE_4K) ensures k.Entry(at).Some? && t == Frame(k.Entry(at).value, PAGE_4K) {
      PointsIff(k, at, t, PAGE_4K);
    }
  }

  lemma TableIsMapping(k: KernelView, base: nat, t1: int, v: Virtual, page: Page)
    requires v.IsProper() && page.Page?
    ensures MapsFromTable(k, base, t1, v, page) <==>
              var e1 := k.Entry(base + t1 + v.i1 * 8);
              e1.Some? && page == Page(Frame(e1.value, PAGE_4K) + v.offset, PAGE_4K)
  {
    PointsIff(k, base + t1 + v.i1 * 8, page.physical - v.offset, PAGE_4K);
  }

  lemma DirectoryIsMapping(k: KernelView, base: nat, t2: int, v: Virtual, page: Page)
    requires v.IsProper() && page.Page?
    ensures MapsFromDirectory(k, base, t2, v, page) <==>
              var e2 := k.Entry(base + t2 + v.i2 * 8);
              && e2.Some?
              && if IsLargePage(e2.value)
                 then page == Page(Frame(e2.value, PAGE_2M) + v.i1 * PAGE_4K + v.offset, PAGE_2M)
                 else MapsFromTable(k, base, Frame(e2.value, PAGE_4K), v, page)
  {
    var at := base + t2 + v.i2 * 8;
    MarkedIff(k.word(at, 8));
    PointsIff(k, at, page.physical - (v.i1 * PAGE_4K + v.offset), PAGE_2M);
    OnePointer(k, at, t1 => MapsFromTable(k, base, t1, v, page));
  }

  lemma PointersAreMapping(k: KernelView, base: nat, t3: int, v: Virtual, page: Page)
    requires v.IsProper() && page.Page?
    ensures MapsFromPointers(k, base, t3, v, page) <==>
              var e3 := k.Entry(base + t3 + v.i3 * 8);
              && e3.Some?
              && if IsLargePage(e3.value)
                 then page == Page(Frame(e3.value, PAGE_1G) + v.i2 * PAGE_2M + v.i1 * PAGE_4K + v.offset, PAGE_1G)
                 else MapsFromDirectory(k, base, Frame(e3.value, PAGE_4K), v, page)
  {
    var at := base + t3 + v.i3 * 8;
    MarkedIff(k.word(at, 8));
    PointsIff(k, at, page.physical - (v.i2 * PAGE_2M + v.i1 * PAGE_4K + v.offset), PAGE_1G);
    OnePointer(k, at, t2 => MapsFromDirectory(k, base, t2, v, page));
  }

  lemma RootIsMapping(k: KernelView, base: nat, pml4: nat, v: Virtual, page: Page)
    ensures Maps(k, base, pml4, v, page) <==>
              var e4 := k.Entry(pml4 + v.i4 * 8);
              e4.Some? && MapsFromPointers(k, base, Frame(e4.value, PAGE_4K), v, page)
  {
    OnePointer(k, pml4 + v.i4 * 8, t3 => MapsFromPointers(k, base, t3, v, page));
  }

  lemma WalkIsMapping(k: KernelView, base: nat, pml4: nat, v: Virtual, remote: nat, page: Page)
    requires v.IsProper() && page.Page?
    requires remote / SPAN_512G % 512 == v.i4 && remote / PAGE_1G % 512 == v.i3
    requires remote / PAGE_2M % 512 == v.i2 && remote / PAGE_4K % 512 == v.i1
    requires remote % PAGE_4K == v.offset && remote % PAGE_2M == v.i1 * PAGE_4K + v.offset
    requires remote % PAGE_1G == v.i2 * PAGE_2M + v.i1 * PAGE_4K + v.offset
    ensures PageOf(k, base, pml4, remote) == page <==> Maps(k, base, pml4, v, page)
  {
    RootIsMapping(k, base, pml4, v, page);
    var e4 := k.Entry(pml4 + v.i4 * 8);
    if e4.Some? {
      var t3 := Frame(e4.value, PAGE_4K);
      PointersAreMapping(k, base, t3, v, page);
      var e3 := k.Entry(base + t3 + v.i3 * 8);
      if e3.Some? && !IsLargePage(e3.value) {
        var t2 := Frame(e3.value, PAGE_4K);
        DirectoryIsMapping(k, base, t2, v, page);
        var e2 := k.Entry(base + t2 + v.i2 * 8);
        if e2.Some? {
          TableIsMapping(k, base, Frame(e2.value, PAGE_4K), v, page);
        }
      }
    }
  }

  /** The walk finds exactly the page that the tables give the address. */
  lemma TranslationIsMapping(k: KernelView, base: nat, pml4: nat, v: Virtual, page: Page)
    requires v.IsProper() && page.Page?
    ensures PageOf(k, base, pml4, v.Value()) == page <==> Maps(k, base, pml4, v, page)
  {
    PartsOfAddress(v);
    WalkIsMapping(k, base, pml4, v, v.Value(), page);
  }

  lemma SameQuotient(a: nat, j: nat, size: nat)
    requires IsPageSize(size)
    requires a % size + j < size
    ensures (a + j) / size == a / size && (a + j) % size == a % size + j
  {
  }

  lemma Inside2M(a: nat, j: nat)
    requires a % PAGE_4K + j < PAGE_4K
    ensures a % PAGE_2M + j < PAGE_2M
  {
    var q, m := a / PAGE_2M, a % PAGE_2M;
    var t, r := m / PAGE_4K, m % PAGE_4K;
    assert a == (512 * q + t) * PAGE_4K + r;
    assert a % PAGE_4K == r && t <= 511;
  }

  lemma Inside1G(a: nat, j: nat)
    requires a % PAGE_2M + j < PAGE_2M
    ensures a % PAGE_1G + j < PAGE_1G
  {
    var q, m := a / PAGE_1G, a % PAGE_1G;
    var t, r := m / PAGE_2M, m % PAGE_2M;
    assert a == (512 * q + t) * PAGE_2M + r;
    assert a % PAGE_2M == r && t <= 511;
  }

  lemma SameSpan(a: nat, j: nat)
    requires a % PAGE_1G + j < PAGE_1G
    ensures (a + j) / SPAN_512G == a / SPAN_512G
  {
    assert a / PAGE_1G / 512 == a / SPAN_512G;
    SameQuotient(a, j, PAGE_1G);
    assert (a + j) / PAGE_1G / 512 == (a + j) / SPAN_512G;
  }

  lemma InsideAllPages(a: nat, j: nat, size: nat)
    requires IsPageSize(size) && a % size + j < size
    ensures size == PAGE_4K ==> a % PAGE_2M + j < PAGE_2M
    ensures a % PAGE_1G + j < PAGE_1G
  {
    if size == PAGE_4K {
      Inside2M(a, j);
    }
    if size != PAGE_1G {
      Inside1G(a, j);
    }
  }

  /** Within a page, translation is affine: the whole page moves together. */
  lemma TranslationIsAffine(k: KernelView, base: nat, pml4: nat, remote: nat, j: nat)
    requires var page := PageOf(k, base, pml4, remote); page.Page? && remote % page.size + j < page.size
    ensures var page := PageOf(k, base, pml4, remote);
            PageOf(k, base, pml4, remote + j) == Page(page.physical + j, page.size)
  {
    var size := PageOf(k, base, pml4, remote).size;
    InsideAllPages(remote, j, size);
    SameSpan(remote, j);
    SameQuotient(remote, j, PAGE_1G);
    if size != PAGE_1G {
      SameQuotient(remote, j, PAGE_2M);
    }
    if size == PAGE_4K {
      SameQuotient(remote, j, PAGE_4K);
    }
  }

  /** Only the low 48 bits of an address are translated, so sums that wrap at 2^64 need no care. */
  lemma TranslationWraps(k: KernelView, base: nat, pml4: nat, remote: nat)
    ensures PageOf(k, base, pml4, remote % TWO64) == PageOf(k, base, pml4, remote)
  {
    Wraps(remote, PAGE_4K);
    Wraps(remote, PAGE_2M);
    Wraps(remote, PAGE_1G);
    Wraps(remote, SPAN_512G);
  }

  lemma Wraps(a: nat, size: nat)
    requires IsPageSize(size) || size == SPAN_512G
    ensures a % TWO64 % size == a % size && a % TWO64 / size % 512 == a / size % 512
  {
    var w, turns := a % TWO64, a / TWO64;
    var d := if size == PAGE_4K then turns * (TWO64 / PAGE_2M)
             else if size == PAGE_2M then turns * (TWO64 / PAGE_1G)
             else if size == PAGE_1G then turns * (TWO64 / SPAN_512G)
             else turns * (TWO64 / (512 * SPAN_512G));
    Shift(w, d, size);
  }

  lemma Shift(w: nat, d: nat, size: nat)
    requires IsPageSize(size) || size == SPAN_512G
    ensures (w + d * 512 * size) % size == w % size
    ensures (w + d * 512 * size) / size % 512 == w / size % 512
  {
    var q := w / size;
    assert (w + d * 512 * size) / size == q + d * 512;
  }

  // ---------- The reader ----------

  function PageAt(k: KernelView, base: nat, t: Pml4, address: nat): Page
  {
    if t.NoTables? then NoPage else PageOf(k, base, t.virtual, address)
  }

  /** `pages` is the translation of every address under the tables `t`. */
  ghost predicate Translates(pages: nat -> Page, k: KernelView, base: nat, t: Pml4)
  {
    forall a: nat {:trigger PageAt(k, base, t, a)} :: pages(a) == PageAt(k, base, t, a)
  }

  lemma TranslationExists(k: KernelView, base: nat, t: Pml4) returns (pages: nat -> Page)
    ensures Translates(pages, k, base, t)
  {
    pages := (a: nat) => PageAt(k, base, t, a);
  }

  /** `b` lies in the page of `a`, at or after it, and is translated along with it. */
  ghost predicate MovesAlong(pages: nat -> Page, a: nat, b: nat)
  {
    var page := pages(a);
    page.Page? ==>
      && IsPageSize(page.size)
      && (a <= b && a % page.size + (b - a) < page.size ==>
            pages(b) == Page(page.physical + (b - a), page.size))
  }

  lemma PageMovesAlong(pages: nat -> Page, k: KernelView, base: nat, t: Pml4, a: nat, b: nat)
    requires Translates(pages, k, base, t)
    ensures MovesAlong(pages, a, b)
  {
    var page := PageAt(k, base, t, a);
    if page.Page? && a <= b && a % page.size + (b - a) < page.size {
      TranslationIsAffine(k, base, t.virtual, a, b - a);
      assert pages(b) == PageAt(k, base, t, b);
    }
  }

  lemma PagesMoveAlong(pages: nat -> Page, k: KernelView, base: nat, t: Pml4, a: nat)
    requires Translates(pages, k, base, t)
    ensures forall b: nat :: MovesAlong(pages, a, b)
  {
    forall b: nat
      ensures MovesAlong(pages, a, b)
    {
      PageMovesAlong(pages, k, base, t, a, b);
    }
  }

  /** The simple form: translate one address alone and read one byte. */
  ghost function Bytewise(k: KernelView, base: nat, page: Page): Option<Byte>
  {
    if page.NoPage? then None else Some(k.byte(base + page.physical))
  }

  /** Output byte `i` is the byte at the direct map plus the translation of `remote + i`. */
  ghost predicate Reads(k: KernelView, base: nat, pages: nat -> Page, remote: nat, out: seq<Byte>)
  {
    forall i :: 0 <= i < |out| ==> Bytewise(k, base, pages(remote + i)) == Some(out[i])
  }

  lemma ReadsJoin(k: KernelView, base: nat, pages: nat -> Page, remote: nat, out: seq<Byte>, more: seq<Byte>)
    requires Reads(k, base, pages, remote, out) && Reads(k, base, pages, remote + |out|, more)
    ensures Reads(k, base, pages, remote, out + more)
  {
    forall i | 0 <= i < |out + more|
      ensures Bytewise(k, base, pages(remote + i)) == Some((out + more)[i])
    {
      if i >= |out| {
        assert remote + i == remote + |out| + (i - |out|);
      }
    }
  }

  /** A chunk copied from one page holds, byte for byte, what the simple form reads. */
  lemma ChunkIsBytewise(k: KernelView, base: nat, pages: nat -> Page, address: nat, out: seq<Byte>)
    requires forall b: nat :: MovesAlong(pages, address, b)
    requires pages(address).Page? && IsPageSize(pages(address).size)
    requires address % pages(address).size + |out| <= pages(address).size
    requires forall i :: 0 <= i < |out| ==> out[i] == k.byte(base + pages(address).physical + i)
    ensures Reads(k, base, pages, address, out)
  {
    forall i | 0 <= i < |out|
      ensures Bytewise(k, base, pages(address + i)) == Some(out[i])
    {
      assert MovesAlong(pages, address, address + i);
    }
  }

  /** Why a chunk of `n` bytes that starts on `page` could not be read. */
  ghost predicate ChunkFails(k: KernelView, base: nat, page: Page, n: nat)
  {
    page.NoPage? || page.physical == 0 || !k.readable(base + page.physical, n)
  }

  class DmapReader {
    var dmapBase: nat
    const kernel: KernelView

    constructor (kernel: KernelView)
      ensures dmapBase == 0 && this.kernel == kernel
    {
      dmapBase := 0;
      this.kernel := kernel;
    }

    /** `choose_dmap`: set once, never zero afterwards. */
    method ChooseDmap(virtual: nat, physical: nat) returns (base: nat)
      modifies this`dmapBase
      ensures base == dmapBase == ChosenBase(old(dmapBase), Pml4(virtual, physical))
    {
      if dmapBase != 0 {
        return dmapBase;
      }
      if virtual > physical && physical < 0x100_0000_0000 {
        var candidate := virtual - physical;
        if candidate / 0x1_0000_0000_0000 != 0 {
          dmapBase := candidate;
        }
      }
      if dmapBase == 0 {
        dmapBase := FIXED_DMAP_BASE;
      }
      base := dmapBase;
    }

    /** `translate`: the physical address and page size, or zeros. */
    method Translate(pid: int, remote: nat) returns (physical: int, pageSize: nat)
      modifies this`dmapBase
      ensures dmapBase == ChosenBase(old(dmapBase), Tables(kernel, pid))
      ensures match PageAt(kernel, dmapBase, Tables(kernel, pid), remote)
              case NoPage => physical == pageSize == 0
              case Page(p, size) => physical == p && pageSize == size
    {
      physical, pageSize := 0, 0;
      var proc := FindProc(kernel, pid);
      if proc == 0 {
        return;
      }
      var vmspace := kernel.ReadPointer(proc + PROC_VMSPACE);
      if vmspace.None? {
        return;
      }
      var pmap := kernel.ReadPointer(vmspace.value + VMSPACE_PMAP);
      if pmap.None? {
        return;
      }
      var virtual := kernel.ReadPointer(pmap.value + PMAP_PML4_VIRTUAL);
      if virtual.None? {
        return;
      }
      var tablesPhysical := kernel.ReadPointer(pmap.value + PMAP_PML4_PHYSICAL);
      if tablesPhysical.None? {
        return;
      }
      var base := ChooseDmap(virtual.value, tablesPhysical.value);
      physical, pageSize := WalkTables(base, virtual.value, remote);
    }

    method WalkTables(base: nat, pml4: nat, remote: nat) returns (physical: int, pageSize: nat)
      ensures match PageOf(kernel, base, pml4, remote)
              case NoPage => physical == pageSize == 0
              case Page(p, size) => physical == p && pageSize == size
    {
      var e4 := kernel.Entry(pml4 + remote / SPAN_512G % 512 * 8);
      if e4.None? {
        return 0, 0;
      }
      var e3 := kernel.Entry(Slot(base, e4.value, remote, PAGE_1G));
      if e3.None? {
        return 0, 0;
      }
      if IsLargePage(e3.value) {
        return Frame(e3.value, PAGE_1G) + remote % PAGE_1G, PAGE_1G;
      }
      var e2 := kernel.Entry(Slot(base, e3.value, remote, PAGE_2M));
      if e2.None? {
        return 0, 0;
      }
      if IsLargePage(e2.value) {
        return Frame(e2.value, PAGE_2M) + remote % PAGE_2M, PAGE_2M;
      }
      var e1 := kernel.Entry(Slot(base, e2.value, remote, PAGE_4K));
      if e1.None? {
        return 0, 0;
      }
      return Frame(e1.value, PAGE_4K) + remote % PAGE_4K, PAGE_4K;
    }

    /** `pages` is how process `pid` is translated, with the base that the next translation settles on. */
    ghost predicate View(pid: int, base: nat, pages: nat -> Page)
      reads this`dmapBase
    {
      && base == ChosenBase(dmapBase, Tables(kernel, pid))
      && Translates(pages, kernel, base, Tables(kernel, pid))
    }

    method Locate(pid: int, address: nat, ghost base: nat, ghost pages: nat -> Page)
        returns (physical: int, pageSize: nat)
      requires View(pid, base, pages)
      modifies this`dmapBase
      ensures dmapBase == base && View(pid, base, pages)
      ensures forall b: nat :: MovesAlong(pages, address, b)
      ensures match pages(address)
              case NoPage => physical == pageSize == 0
              case Page(p, size) => physical == p && pageSize == size
    {
      physical, pageSize := Translate(pid, address);
      assert pages(address) == PageAt(kernel, base, Tables(kernel, pid), address);
      PagesMoveAlong(pages, kernel, base, Tables(kernel, pid), address);
    }

    /**
      * The body of `proc_read`'s loop: copies from the page that holds `address`, as far as it reaches.
      * A zero `chunk` means failure, with the length that was tried in `attempted`.
      */
    method ReadChunk(pid: int, address: nat, out: array<Byte>, output: nat, ghost base: nat, ghost pages: nat -> Page)
        returns (chunk: nat, ghost attempted: nat)
      requires output < out.Length && View(pid, base, pages)
      modifies this`dmapBase, out
      ensures dmapBase == base && View(pid, base, pages)
      ensures output + chunk <= out.Length && out[..output] == old(out[..output])
      ensures chunk == 0 ==> ChunkFails(kernel, base, pages(address), attempted)
      ensures Reads(kernel, base, pages, address, out[output..output + chunk])
    {
      attempted := 0;
      var physical, pageSize := Locate(pid, address, base, pages);
      assert MovesAlong(pages, address, address);
      if physical == 0 || pageSize == 0 {
        return 0, 0;
      }
      chunk, attempted := CopyChunk(address, out, output, physical, pageSize, pages);
    }

    method CopyChunk(address: nat, out: array<Byte>, output: nat, physical: int, pageSize: nat,
                     ghost pages: nat -> Page)
        returns (chunk: nat, ghost attempted: nat)
      requires output < out.Length && IsPageSize(pageSize)
      requires physical != 0 && pages(address) == Page(physical, pageSize)
      requires forall b: nat :: MovesAlong(pages, address, b)
      modifies out
      ensures output + chunk <= out.Length && out[..output] == old(out[..output])
      ensures chunk == 0 ==> ChunkFails(kernel, dmapBase, pages(address), attempted)
      ensures Reads(kernel, dmapBase, pages, address, out[output..output + chunk])
    {
      chunk := Min(out.Length - output, pageSize - address % pageSize);
      attempted := chunk;
      if !kernel.readable(dmapBase + physical, chunk) {
        // A failed copy may have filled any part of its destination.
        var noise: int -> Byte := *;
        forall i | output <= i < output + chunk {
          out[i] := noise(i);
        }
        chunk := 0;
        return;
      }
      forall i | output <= i < output + chunk {
        out[i] := kernel.byte(dmapBase + physical + (i - output));
      }
      ChunkIsBytewise(kernel, dmapBase, pages, address, out[output..output + chunk]);
    }

    /** One more chunk after the first `output` bytes from `remote`, or a failure. */
    method ReadOn(pid: int, ghost remote: nat, address: nat, out: array<Byte>, output: nat,
                  ghost base: nat, ghost pages: nat -> Page)
        returns (chunk: nat, ghost attempted: nat)
      requires output < out.Length && address == remote + output && View(pid, base, pages)
      requires Reads(kernel, base, pages, remote, out[..output])
      modifies this`dmapBase, out
      ensures dmapBase == base && View(pid, base, pages)
      ensures output + chunk <= out.Length && Reads(kernel, base, pages, remote, out[..output + chunk])
      ensures chunk == 0 ==> ChunkFails(kernel, base, pages(address), attempted)
    {
      ghost var before := out[..output];
      chunk, attempted := ReadChunk(pid, address, out, output, base, pages);
      ReadsJoin(kernel, base, pages, remote, before, out[output..output + chunk]);
      assert out[..output + chunk] == before + out[output..output + chunk];
    }

    /** `proc_read`: agrees with the byte-by-byte form on every mix of page sizes. */
    method ProcRead(pid: int, remote: Word64, out: array<Byte>, ghost base: nat, ghost pages: nat -> Page)
        returns (ok: bool, ghost done: nat, ghost next: nat)
      requires View(pid, base, pages)
      modifies this`dmapBase, out
      ensures out.Length == 0 ==> ok
      ensures out.Length > 0 && (pid <= 0 || remote == 0) ==> !ok && out[..] == old(out[..])
      ensures done <= out.Length && Reads(kernel, base, pages, remote, out[..done])
      ensures ok ==> done == out.Length
      ensures !ok && pid > 0 && remote != 0 ==>
                done < out.Length && ChunkFails(kernel, base, pages(remote + done), next)
      ensures View(pid, base, pages)
      ensures old(dmapBase) != 0 ==> dmapBase == old(dmapBase)
    {
      done, next := 0, 0;
      if out.Length == 0 {
        return true, 0, 0;
      }
      if pid <= 0 || remote == 0 {
        return false, 0, 0;
      }
      var address: nat, output: nat, remaining: nat := remote, 0, out.Length;
      while remaining != 0
        invariant output + remaining == out.Length && address == remote + output
        invariant Reads(kernel, base, pages, remote, out[..output])
        invariant View(pid, base, pages)
        invariant old(dmapBase) != 0 ==> dmapBase == old(dmapBase)
        decreases remaining
      {
        var chunk: nat;
        chunk, next := ReadOn(pid, remote, address, out, output, base, pages);
        if chunk == 0 {
          return false, output, next;
        }
        address, output, remaining := address + chunk, output + chunk, remaining - chunk;
      }
      return true, output, next;
    }
  }
}
