/** Requests and acknowledgements exchanged by the ShellUI renderer and the controller. */
module HookProtocol {
  import opened Common
  import opened MdbgIo

  const REQUEST_MAGIC: Word64 := 0x395145524b484643
  const ACK_MAGIC: Word64 := 0x394b43414b484643
  const PROTOCOL_VERSION: Word32 := 9
  const JUMP_PREFIX: seq<Byte> := [0xff, 0x25, 0x00, 0x00, 0x00, 0x00]
  const JUMP_SIZE: nat := 14
  const RET: Byte := 0xc3
  const NOP: Byte := 0x90
  const REQUEST_NONCE_SALT: Word64 := 0x8d4f23a76c19e502
  const GUARD_NONCE_SALT: Word64 := 0x6d9bc2f1a54837e0

  /** The sixteen bytes at the start of a method. */
  type Code = s: seq<Byte> | |s| == PATCH_SIZE witness Zeros(PATCH_SIZE)
  type Pid = p: int | -0x8000_0000 <= p < 0x8000_0000

  datatype Backend = Unsupported | Mdbg | PtraceIo
  datatype Phase = Patch | Probe | MainThreadGuard
  datatype Status =
    | Success | InvalidRequest | UnsupportedFirmware | AuthFailure | AttachFailure
    | ExpectedBytesMismatch | WriteFailure | VerifyFailure | DetachFailure | AuthRestoreFailure

  datatype Request = Request(
    magic: Word64, version: Word32, pid: Pid, nonce: Word64,
    methodAddress: Word64, hookAddress: Word64, originalCall: Word64,
    patchSize: Word32, displacedSize: Word32, expected: Code, desired: Code, checksum: Word32)

  datatype Ack = Ack(
    pid: Pid, nonce: Word64, status: Status, readRc: int, writeRc: int,
    verified: bool, restored: bool, detached: bool, authRestored: bool,
    phase: Phase, observed: Code)

  // ---------- Checksum (FNV-1a over the packed bytes) ----------

  const FNV_OFFSET: Word32 := 2166136261
  const FNV_PRIME: nat := 16777619

  function FnvStep(hash: Word32, byte: Byte): Word32
  {
    Xor32(hash, byte) * FNV_PRIME % TWO32
  }

  function Fnv(hash: Word32, data: seq<Byte>): Word32
    decreases |data|
  {
    if data == [] then hash else Fnv(FnvStep(hash, data[0]), data[1..])
  }

  /** `shellui_hook_checksum`. */
  method Checksum(data: seq<Byte>) returns (hash: Word32)
    ensures hash == Fnv(FNV_OFFSET, data)
  {
    hash := FNV_OFFSET;
    for i := 0 to |data|
      invariant Fnv(hash, data[i..]) == Fnv(FNV_OFFSET, data)
    {
      assert data[i..][1..] == data[i + 1..];
      hash := FnvStep(hash, data[i]);
    }
  }

  /** The prime is odd, so multiplying by it loses nothing modulo 2^32. */
  lemma PrimeKeepsApart(a: Word32, b: Word32)
    requires a * FNV_PRIME % TWO32 == b * FNV_PRIME % TWO32
    ensures a == b
  {
    var d, t := a - b, a * FNV_PRIME / TWO32 - b * FNV_PRIME / TWO32;
    assert d * 16777619 == t * 0x1_0000_0000;
    assert d == (t * 899433627 - d * 3513497) * 0x1_0000_0000;
  }

  lemma StepKeepsApart(h: Word32, g: Word32, x: Byte, y: Byte)
    requires FnvStep(h, x) == FnvStep(g, y) && (h == g || x == y)
    ensures h == g && x == y
  {
    PrimeKeepsApart(Xor32(h, x), Xor32(g, y));
    if x == y {
      XorCancel(h, g, x);
    } else {
      XorCommutes(h, x);
      XorCommutes(h, y);
      XorCancel(x, y, h);
    }
  }

  lemma {:induction false} FoldKeepsApart(h: Word32, g: Word32, data: seq<Byte>)
    requires h != g
    ensures Fnv(h, data) != Fnv(g, data)
    decreases |data|
  {
    if data != [] {
      if FnvStep(h, data[0]) == FnvStep(g, data[0]) {
        StepKeepsApart(h, g, data[0], data[0]);
      }
      FoldKeepsApart(FnvStep(h, data[0]), FnvStep(g, data[0]), data[1..]);
    }
  }

  /** One wrong byte always changes the checksum. */
  lemma {:induction false} OneByteIsCaught(h: Word32, data: seq<Byte>, i: nat, b: Byte)
    requires i < |data| && b != data[i]
    ensures Fnv(h, data[i := b]) != Fnv(h, data)
    decreases i
  {
    var wrong := data[i := b];
    if i == 0 {
      if FnvStep(h, data[0]) == FnvStep(h, b) {
        StepKeepsApart(h, h, data[0], b);
      }
      assert wrong[1..] == data[1..];
      FoldKeepsApart(FnvStep(h, b), FnvStep(h, data[0]), data[1..]);
    } else {
      assert wrong[1..] == data[1..][i - 1 := b];
      OneByteIsCaught(FnvStep(h, data[0]), data[1..], i - 1, b);
    }
  }

  /** A packed structure: little-endian integers of given widths. */
  datatype Fields = End | Field(width: nat, value: nat, rest: Fields)

  function Pack(fields: Fields): seq<Byte>
  {
    match fields
    case End => []
    case Field(width, value, rest) => ToBytes(width, value) + Pack(rest)
  }

  /** The packed fields that precede the checksum. */
  function RequestBytes(r: Request): seq<Byte>
  {
    Pack(Field(8, r.magic, Field(4, r.version, Field(4, r.pid % TWO32, Field(8, r.nonce,
         Field(8, r.methodAddress, Field(8, r.hookAddress, Field(8, r.originalCall,
         Field(4, r.patchSize, Field(4, r.displacedSize, End)))))))))) + r.expected + r.desired
  }

  function RequestChecksum(r: Request): Word32
  {
    Fnv(FNV_OFFSET, RequestBytes(r))
  }

  /** Not one byte of either code can change unnoticed. */
  lemma CorruptCodeIsCaught(r: Request, i: nat, b: Byte)
    requires i < PATCH_SIZE
    ensures b != r.expected[i] ==> RequestChecksum(r.(expected := r.expected[i := b])) != RequestChecksum(r)
    ensures b != r.desired[i] ==> RequestChecksum(r.(desired := r.desired[i := b])) != RequestChecksum(r)
  {
    var bytes := RequestBytes(r);
    var at := |bytes| - 2 * PATCH_SIZE + i;
    if b != r.expected[i] {
      assert RequestBytes(r.(expected := r.expected[i := b])) == bytes[at := b];
      OneByteIsCaught(FNV_OFFSET, bytes, at, b);
    }
    if b != r.desired[i] {
      assert RequestBytes(r.(desired := r.desired[i := b])) == bytes[at + PATCH_SIZE := b];
      OneByteIsCaught(FNV_OFFSET, bytes, at + PATCH_SIZE, b);
    }
  }

  /** `r` with its checksum filled in. */
  function Sealed(r: Request): (s: Request)
    ensures s == r.(checksum := s.checksum) && s.checksum == RequestChecksum(s)
  {
    assert RequestBytes(r.(checksum := RequestChecksum(r))) == RequestBytes(r);
    r.(checksum := RequestChecksum(r))
  }

  // ---------- Firmware routing ----------

  function Family(sdk: Word32): Word32
  {
    sdk - sdk % 0x1_0000
  }

  predicate IsFw1160(sdk: Word32)
  {
    Family(sdk) == 0x11600000
  }

  function HookBackend(sdk: Word32, etaChain: bool): Backend
  {
    var family := Family(sdk);
    if 0x03000000 <= family <= 0x08200000 then Mdbg
    else if family == 0x09600000 && etaChain then PtraceIo
    else Unsupported
  }

  function GuardBackend(sdk: Word32): Backend
  {
    var family := Family(sdk);
    if 0x01000000 <= family <= 0x08200000 || family == 0x09000000 then Mdbg
    else if 0x08300000 <= family < 0x09000000 || 0x09000000 < family < 0x09600000 ||
            0x09600000 < family <= 0x10ff0000 || family == 0x11600000 then PtraceIo
    else Unsupported
  }

  function ProbeBackend(sdk: Word32): Backend
  {
    var family := Family(sdk);
    if 0x01000000 <= family <= 0x08200000 || family == 0x09000000 then Mdbg
    else if 0x08300000 <= family <= 0x10ff0000 || family == 0x11600000 then PtraceIo
    else Unsupported
  }

  /** What may be written may be probed first, by the same way in; only FW 9.60 is probed and never guarded. */
  lemma RoutedAlike(sdk: Word32, etaChain: bool)
    ensures HookBackend(sdk, etaChain) != Unsupported ==> ProbeBackend(sdk) == HookBackend(sdk, etaChain)
    ensures GuardBackend(sdk) == if Family(sdk) == 0x09600000 then Unsupported else ProbeBackend(sdk)
    ensures HookBackend(sdk, false) != Unsupported ==> HookBackend(sdk, true) == HookBackend(sdk, false) == Mdbg
  {
  }

  // ---------- Classification and validation ----------

  predicate IsEtaChain(r: Request)
  {
    JUMP_PREFIX <= r.expected
  }

  predicate IsProbe(r: Request)
  {
    r.displacedSize == 0
  }

  predicate IsGuard(r: Request)
  {
    r.displacedSize == 1 && r.originalCall == 0 && r.hookAddress == r.methodAddress
  }

  predicate HeaderValid(r: Request, pid: Pid)
  {
    && r.magic == REQUEST_MAGIC && r.version == PROTOCOL_VERSION
    && r.pid == pid && pid > 0 && r.nonce != 0
    && UserAddress(r.methodAddress)
    && UserAddress(Add64(r.methodAddress, PATCH_SIZE - 1))
    && UserAddress(r.hookAddress)
    && r.patchSize == PATCH_SIZE
  }

  predicate CommonValid(r: Request, pid: Pid)
  {
    HeaderValid(r, pid) && r.checksum == RequestChecksum(r)
  }

  predicate ProbeValid(r: Request, pid: Pid)
  {
    && CommonValid(r, pid) && r.originalCall == 0 && IsProbe(r)
    && r.expected == Zeros(PATCH_SIZE) && r.desired == Zeros(PATCH_SIZE)
  }

  /** What the guard validator asks of the code bytes. */
  predicate GuardShape(r: Request)
  {
    && IsGuard(r)
    && r.expected[0] != RET && r.desired[0] == RET
    && forall i :: 1 <= i < PATCH_SIZE ==> r.desired[i] == r.expected[i]
  }

  predicate GuardValid(r: Request, pid: Pid)
  {
    CommonValid(r, pid) && GuardShape(r)
  }

  /** What the patch validator asks of the addresses, the sizes and the code bytes. */
  predicate PatchShape(r: Request)
  {
    && UserAddress(r.originalCall)
    && r.originalCall != r.hookAddress && r.originalCall != r.methodAddress
    && 14 <= r.displacedSize <= 16
    && !IsProbe(r) && !IsGuard(r)
    && JUMP_PREFIX <= r.desired
    && FromBytes(r.desired[6..14]) == r.hookAddress
    && (if IsEtaChain(r)
        then r.displacedSize == 14 && FromBytes(r.expected[6..14]) == r.originalCall
        else forall i :: 14 <= i < r.displacedSize ==> r.desired[i] == NOP)
    && forall i :: r.displacedSize <= i < PATCH_SIZE ==> r.desired[i] == r.expected[i]
  }

  predicate PatchValid(r: Request, pid: Pid)
  {
    CommonValid(r, pid) && PatchShape(r)
  }

  /** The validator the controller picks. */
  predicate RequestValid(r: Request, pid: Pid)
  {
    if IsProbe(r) then ProbeValid(r, pid)
    else if IsGuard(r) then GuardValid(r, pid)
    else PatchValid(r, pid)
  }

  function RequestBackend(r: Request, sdk: Word32): Backend
  {
    if IsProbe(r) then ProbeBackend(sdk)
    else if IsGuard(r) then GuardBackend(sdk)
    else HookBackend(sdk, IsEtaChain(r))
  }

  function RequestPhase(r: Request): Phase
  {
    if IsProbe(r) then Probe else if IsGuard(r) then MainThreadGuard else Patch
  }

  lemma ValidatorsAreDisjoint(r: Request, pid: Pid)
    ensures ProbeValid(r, pid) ==> !GuardValid(r, pid) && !PatchValid(r, pid)
    ensures GuardValid(r, pid) ==> !ProbeValid(r, pid) && !PatchValid(r, pid)
    ensures RequestValid(r, pid) <==> ProbeValid(r, pid) || GuardValid(r, pid) || PatchValid(r, pid)
  {
  }

  // ---------- The narrowed write ----------

  function WriteOffset(r: Request): nat
  {
    if IsGuard(r) then 0 else if IsEtaChain(r) then 6 else 0
  }

  function WriteSize(r: Request): nat
  {
    if IsGuard(r) then 1 else if IsEtaChain(r) then 8 else PATCH_SIZE
  }

  function Narrowed(r: Request, bytes: Code): (s: seq<Byte>)
    ensures |s| == WriteSize(r)
  {
    bytes[WriteOffset(r)..WriteOffset(r) + WriteSize(r)]
  }

  lemma OverlayWhole(from: Code, to: Code, offset: nat, size: nat)
    requires offset + size <= PATCH_SIZE
    requires forall i :: 0 <= i < PATCH_SIZE && !(offset <= i < offset + size) ==> from[i] == to[i]
    ensures Overlay(from, offset, to[offset..offset + size]) == to
  {
  }

  lemma AgreeOutsideNarrowed(r: Request)
    requires GuardShape(r) || PatchShape(r)
    ensures forall i :: 0 <= i < PATCH_SIZE && !(WriteOffset(r) <= i < WriteOffset(r) + WriteSize(r)) ==>
              r.expected[i] == r.desired[i]
  {
    if !IsGuard(r) && IsEtaChain(r) {
      forall i | 0 <= i < 6 ensures r.expected[i] == r.desired[i] {
        assert r.expected[i] == r.expected[..6][i] == JUMP_PREFIX[i] == r.desired[..6][i] == r.desired[i];
      }
    }
  }

  /** Writing only the narrowed range installs all of `desired`, and writing it back undoes that. */
  lemma NarrowedWriteIsWhole(r: Request)
    requires GuardShape(r) || PatchShape(r)
    ensures Overlay(r.expected, WriteOffset(r), Narrowed(r, r.desired)) == r.desired
    ensures Overlay(r.desired, WriteOffset(r), Narrowed(r, r.expected)) == r.expected
    ensures r.expected != r.desired
  {
    AgreeOutsideNarrowed(r);
    OverlayWhole(r.expected, r.desired, WriteOffset(r), WriteSize(r));
    OverlayWhole(r.desired, r.expected, WriteOffset(r), WriteSize(r));
  }

  // ---------- What the renderer builds ----------

  function JumpBytes(target: Word64): (s: seq<Byte>)
    ensures |s| == JUMP_SIZE
  {
    JUMP_PREFIX + ToBytes(8, target)
  }

  function NonZero(nonce: Word64): (n: Word64)
    ensures n != 0
  {
    if nonce == 0 then 1 else nonce
  }

  function ShiftedPid(pid: Pid): Word64
  {
    pid % TWO32 * TWO32
  }

  function HookNonce(pid: Pid, methodAddress: Word64, hookAddress: Word64, originalCall: Word64): Word64
  {
    NonZero(XorAll([methodAddress, hookAddress, originalCall, ShiftedPid(pid), REQUEST_NONCE_SALT]))
  }

  function GuardNonce(pid: Pid, methodAddress: Word64): Word64
  {
    NonZero(XorAll([methodAddress, ShiftedPid(pid), GUARD_NONCE_SALT]))
  }

  function Draft(pid: Pid, nonce: Word64, methodAddress: Word64, hookAddress: Word64,
                 originalCall: Word64, displacedSize: Word32, expected: Code, desired: Code): Request
  {
    Request(REQUEST_MAGIC, PROTOCOL_VERSION, pid, nonce, methodAddress, hookAddress, originalCall,
            PATCH_SIZE, displacedSize, expected, desired, 0)
  }

  lemma SealedCommonValid(r: Request, pid: Pid)
    ensures CommonValid(Sealed(r), pid) <==> HeaderValid(r, pid)
  {
  }

  lemma DraftHeader(pid: Pid, nonce: Word64, m: Word64, h: Word64, original: Word64, d: Word32,
                    expected: Code, desired: Code)
    requires nonce != 0
    ensures HeaderValid(Draft(pid, nonce, m, h, original, d, expected, desired), pid) <==>
              pid > 0 && MethodInUserRange(m) && UserAddress(h)
  {
    if UserAddress(m) {
      assert Add64(m, PATCH_SIZE - 1) == m + PATCH_SIZE - 1;
    }
  }

  /** What a sealed draft is worth, whatever its nonce. */
  lemma DraftAccepted(pid: Pid, nonce: Word64, m: Word64, h: Word64, original: Word64, d: Word32,
                      expected: Code, desired: Code)
    requires nonce != 0
    ensures var r := Sealed(Draft(pid, nonce, m, h, original, d, expected, desired));
            && (CommonValid(r, pid) <==> pid > 0 && MethodInUserRange(m) && UserAddress(h))
            && r.methodAddress == m && r.hookAddress == h && r.originalCall == original
            && r.displacedSize == d && r.expected == expected && r.desired == desired
  {
    var u := Draft(pid, nonce, m, h, original, d, expected, desired);
    SealedCommonValid(u, pid);
    DraftHeader(pid, nonce, m, h, original, d, expected, desired);
    var r := Sealed(u);
    assert r == u.(checksum := r.checksum);
  }

  /** `publish_hook_request` up to the file write. */
  function HookRequest(pid: Pid, methodAddress: Word64, hookAddress: Word64, expected: Code,
                       desired: Code, displacedSize: Word32, originalCall: Word64): Request
  {
    Sealed(Draft(pid, HookNonce(pid, methodAddress, hookAddress, originalCall),
                 methodAddress, hookAddress, originalCall, displacedSize, expected, desired))
  }

  function ProbeRequest(pid: Pid, methodAddress: Word64, hookAddress: Word64): Request
  {
    HookRequest(pid, methodAddress, hookAddress, Zeros(PATCH_SIZE), Zeros(PATCH_SIZE), 0, 0)
  }

  /** `publish_main_thread_guard_request` up to the file write. */
  function GuardRequest(pid: Pid, methodAddress: Word64, expected: Code): Request
  {
    Sealed(Draft(pid, GuardNonce(pid, methodAddress),
                 methodAddress, methodAddress, 0, 1, expected, expected[0 := RET]))
  }

  /** The bytes `install_update_hook` wants: the jump, then no-ops up to the displaced size. */
  function HookedCode(expected: Code, displacedSize: nat, hookAddress: Word64): (desired: Code)
    requires JUMP_SIZE <= displacedSize <= PATCH_SIZE
    ensures desired[..JUMP_SIZE] == JumpBytes(hookAddress)
    ensures forall i :: JUMP_SIZE <= i < displacedSize ==> desired[i] == NOP
    ensures forall i :: displacedSize <= i < PATCH_SIZE ==> desired[i] == expected[i]
  {
    JumpBytes(hookAddress) + seq(displacedSize - JUMP_SIZE, _ => NOP) + expected[displacedSize..]
  }

  function PatchRequest(pid: Pid, methodAddress: Word64, hookAddress: Word64, expected: Code,
                        displacedSize: nat, originalCall: Word64): Request
    requires JUMP_SIZE <= displacedSize <= PATCH_SIZE
  {
    HookRequest(pid, methodAddress, hookAddress, expected,
                HookedCode(expected, displacedSize, hookAddress), displacedSize, originalCall)
  }

  predicate MethodInUserRange(methodAddress: Word64)
  {
    UserAddress(methodAddress) && UserAddress(methodAddress + PATCH_SIZE - 1)
  }

  lemma ProbeAccepted(pid: Pid, methodAddress: Word64, hookAddress: Word64)
    ensures var r := ProbeRequest(pid, methodAddress, hookAddress);
            && RequestPhase(r) == Probe
            && (RequestValid(r, pid) <==>
                pid > 0 && MethodInUserRange(methodAddress) && UserAddress(hookAddress))
  {
    DraftAccepted(pid, HookNonce(pid, methodAddress, hookAddress, 0), methodAddress, hookAddress, 0, 0,
                  Zeros(PATCH_SIZE), Zeros(PATCH_SIZE));
  }

  lemma GuardAccepted(pid: Pid, methodAddress: Word64, expected: Code)
    ensures var r := GuardRequest(pid, methodAddress, expected);
            && RequestPhase(r) == MainThreadGuard
            && (RequestValid(r, pid) <==>
                pid > 0 && MethodInUserRange(methodAddress) && expected[0] != RET)
  {
    DraftAccepted(pid, GuardNonce(pid, methodAddress), methodAddress, methodAddress, 0, 1,
                  expected, expected[0 := RET]);
  }

  lemma HookedCodeTarget(expected: Code, displacedSize: nat, hookAddress: Word64)
    requires JUMP_SIZE <= displacedSize <= PATCH_SIZE
    ensures var desired := HookedCode(expected, displacedSize, hookAddress);
            JUMP_PREFIX <= desired && FromBytes(desired[6..14]) == hookAddress
  {
    var desired := HookedCode(expected, displacedSize, hookAddress);
    assert desired[..6] == desired[..14][..6] == JUMP_PREFIX;
    assert desired[6..14] == desired[..14][6..] == ToBytes(8, hookAddress);
    Word64RoundTrip(hookAddress);
  }

  /** The addresses a hook request must keep apart. */
  predicate HookAddressesApart(methodAddress: Word64, hookAddress: Word64, originalCall: Word64)
  {
    && MethodInUserRange(methodAddress) && UserAddress(hookAddress) && UserAddress(originalCall)
    && originalCall != hookAddress && originalCall != methodAddress
  }

  /** A jump already in place is chained: fourteen bytes displaced, its target is the original. */
  lemma ChainedPatchAccepted(pid: Pid, methodAddress: Word64, hookAddress: Word64, expected: Code)
    requires JUMP_PREFIX <= expected
    ensures FromBytes(expected[6..14]) < TWO64
    ensures var originalCall := FromBytes(expected[6..14]);
            var r := PatchRequest(pid, methodAddress, hookAddress, expected, JUMP_SIZE, originalCall);
            && RequestPhase(r) == Patch
            && (RequestValid(r, pid) <==>
                pid > 0 && HookAddressesApart(methodAddress, hookAddress, originalCall))
  {
    Word64FromBytes(expected[6..14]);
    var originalCall := FromBytes(expected[6..14]);
    HookedCodeTarget(expected, JUMP_SIZE, hookAddress);
    DraftAccepted(pid, HookNonce(pid, methodAddress, hookAddress, originalCall), methodAddress, hookAddress,
                  originalCall, JUMP_SIZE, expected, HookedCode(expected, JUMP_SIZE, hookAddress));
  }

  lemma NativePatchAccepted(pid: Pid, methodAddress: Word64, hookAddress: Word64, expected: Code,
                            displacedSize: nat, trampoline: Word64)
    requires !(JUMP_PREFIX <= expected) && JUMP_SIZE <= displacedSize <= PATCH_SIZE
    ensures var r := PatchRequest(pid, methodAddress, hookAddress, expected, displacedSize, trampoline);
            && RequestPhase(r) == Patch
            && (RequestValid(r, pid) <==>
                pid > 0 && HookAddressesApart(methodAddress, hookAddress, trampoline))
  {
    HookedCodeTarget(expected, displacedSize, hookAddress);
    DraftAccepted(pid, HookNonce(pid, methodAddress, hookAddress, trampoline), methodAddress, hookAddress,
                  trampoline, displacedSize, expected, HookedCode(expected, displacedSize, hookAddress));
  }
}
