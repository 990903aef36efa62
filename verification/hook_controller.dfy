/**
 The controller's side of the protocol: one stopped-process transaction per request.
 It validates, attaches, compares, writes a narrowed range, reads back, rolls back,
 detaches and restores its credentials, whatever fails on the way.
 */
module HookController {
  import opened Common
  import opened Kernel
  import opened MdbgIo
  import opened GuardWrite
  import opened HookProtocol

  const PTRACE_AUTH: Word64 := 0x4800000000010003
  const RWX: nat := PROT_READ + PROT_WRITE + PROT_EXEC
  const RX: nat := PROT_READ + PROT_EXEC

  datatype RequestFile = NoFile | Torn | Stored(request: Request)

  /** The two files of the protocol directory. */
  class ProtocolFiles {
    ghost var faults: nat      // how often an operation had no effect
    var request: RequestFile
    var ack: Option<Ack>

    constructor ()
      ensures request == NoFile && ack == None
    {
      faults, request, ack := 0, NoFile, None;
    }

    /** `unlink` may fail; its result is ignored. */
    method RemoveRequest()
      modifies this`request, this`faults
      ensures request == old(request) || request == NoFile
      ensures faults >= old(faults) && (request != NoFile ==> faults > old(faults))
    {
      var effective: bool := *;
      request := if effective then NoFile else request;
      faults := if effective then faults else faults + 1;
    }

    /** Written aside and renamed: readers see the old acknowledgement or the whole new one. */
    method ReplaceAck(next: Ack)
      modifies this`ack, this`faults
      ensures ack == old(ack) || ack == Some(next)
      ensures faults >= old(faults) && (ack != Some(next) ==> faults > old(faults))
    {
      var effective: bool := *;
      ack := if effective then Some(next) else ack;
      faults := if effective then faults else faults + 1;
    }
  }

  /** What a transaction reports. */
  datatype Outcome = Outcome(status: Status, expectedMatched: bool, verified: bool, restored: bool,
                             detached: bool, authRestored: bool, observed: Code)

  class Report {
    var status: Status
    var readRc: int
    var writeRc: int
    var expectedMatched: bool
    var verified: bool
    var restored: bool
    var detached: bool
    var authRestored: bool
    var observed: Code

    constructor ()
      ensures View() == Outcome(InvalidRequest, false, false, false, false, false, Zeros(PATCH_SIZE))
    {
      status, readRc, writeRc := InvalidRequest, -1, -1;
      expectedMatched, verified, restored, detached, authRestored := false, false, false, false, false;
      observed := Zeros(PATCH_SIZE);
    }

    function View(): Outcome
      reads this
    {
      Outcome(status, expectedMatched, verified, restored, detached, authRestored, observed)
    }
  }

  /** FW 9.00 guards write twice: through the debugger, then through ptrace. */
  predicate RetriesWrite(r: Request, sdk: Word32)
  {
    IsGuard(r) && Family(sdk) == 0x09000000
  }

  /** How many of the failures have no second way around them for this request on this firmware. */
  function Serious(f: Faults, r: Request, sdk: Word32): nat
  {
    f.hard + (if IsFw1160(sdk) then 0 else f.readRefused)
    + (if UsesProtectionWindow(r, sdk) then 0 else f.writeRefused)
    + (if RetriesWrite(r, sdk) then 0 else f.debuggerWrite)
  }

  /** `read_shellui_code`: FW 11.60 alone falls back, and only after EFAULT. */
  method ReadTarget(k: Kernel, sdk: Word32, backend: Backend, pid: int, address: int)
    returns (rc: int, bytes: Code)
    requires backend != Unsupported
    modifies k`auth, k`caps, k`memory, k`faults
    ensures k.memory == old(k.memory)
    ensures rc == 0 ==> bytes == Window(k.memory, address, PATCH_SIZE)
    ensures rc != 0 ==> bytes == Zeros(PATCH_SIZE)
    ensures (old(k.auth) != 0 ==> k.auth != 0) && Grew(old(k.faults), k.faults)
    ensures rc != 0 && MayRead(pid, address) && old(k.auth) != 0 ==>
              || k.faults.hard > old(k.faults).hard
              || (!IsFw1160(sdk) && k.faults.readRefused > old(k.faults).readRefused)
  {
    var out := new Byte[PATCH_SIZE](_ => 0);
    if backend == Mdbg {
      rc := DebuggerReadTarget(k, sdk, pid, address, out);
    } else {
      rc := k.CopyOut(Ptrace, address, out);
      if IsFw1160(sdk) && rc == EFAULT {
        rc := DebuggerReadTarget(k, sdk, pid, address, out);
      }
    }
    if rc != 0 {
      Clear(out);
    }
    bytes := out[..];
  }

  predicate MayRead(pid: int, address: int)
  {
    pid > 0 && UserAddress(address) && UserAddress(address + PATCH_SIZE - 1)
  }

  method DebuggerReadTarget(k: Kernel, sdk: Word32, pid: int, address: int, out: array<Byte>)
    returns (rc: int)
    modifies k`auth, k`caps, k`memory, k`faults, out
    ensures k.memory == old(k.memory)
    ensures rc == 0 ==> out[..] == Window(k.memory, address, out.Length)
    ensures (old(k.auth) != 0 ==> k.auth != 0) && GrewHard(old(k.faults), k.faults)
    ensures rc != 0 && out.Length == PATCH_SIZE && MayRead(pid, address) && old(k.auth) != 0 ==>
              k.faults.hard > old(k.faults).hard
  {
    if IsFw1160(sdk) {
      rc := TransferExact(k, true, pid, address, out);
    } else {
      rc := k.CopyOut(Debugger, address, out);
    }
  }

  // ---------- The write and its rollback ----------

  /** The one request kind that goes through the protection window of `GuardWrite`. */
  predicate UsesProtectionWindow(r: Request, sdk: Word32)
  {
    IsGuard(r) && IsFw1160(sdk)
  }

  function WriteAddress(r: Request): int
  {
    r.methodAddress + WriteOffset(r)
  }

  /** `write_target` on every firmware but 11.60. */
  method WritePlain(k: Kernel, r: Request, sdk: Word32, backend: Backend, bytes: Code) returns (rc: int)
    modifies k`memory, k`protection, k`faults
    ensures WroteWithin(old(k.memory), k.memory, WriteAddress(r), Narrowed(r, bytes))
    ensures Grew(old(k.faults), k.faults)
    ensures rc == 0 ==> Window(k.memory, WriteAddress(r), WriteSize(r)) == Narrowed(r, bytes)
    ensures rc != 0 && backend == RequestBackend(r, sdk) && !UsesProtectionWindow(r, sdk) ==>
              Serious(k.faults, r, sdk) > Serious(old(k.faults), r, sdk)
  {
    var errno;
    var data := Narrowed(r, bytes);
    if IsGuard(r) && Family(sdk) == 0x09000000 && backend == Mdbg {
      rc := k.Protect(RWX);
      if rc != 0 {
        return -1000;
      }
      rc, errno := k.CopyIn(Debugger, WriteAddress(r), data);
      if rc != 0 {
        ghost var mid := k.memory;
        rc, errno := k.CopyIn(Ptrace, WriteAddress(r), data);
        WroteTwice(old(k.memory), mid, k.memory, WriteAddress(r), data);
      }
      var restoreRc := k.Protect(RX);
      if restoreRc != 0 {
        return -1001;
      }
    } else {
      rc, errno := k.CopyIn(if backend == Mdbg then Debugger else Ptrace, WriteAddress(r), data);
    }
  }

  /** `write_target`. */
  method WriteTarget(k: Kernel, r: Request, sdk: Word32, backend: Backend, pid: int, bytes: Code,
                     guard: GuardWriteState)
    returns (rc: int)
    requires pid > 0 && UserAddress(r.methodAddress)
    modifies k`memory, k`protection, k`auth, k`caps, k`faults, guard
    ensures WroteWithin(old(k.memory), k.memory, WriteAddress(r), Narrowed(r, bytes))
    ensures rc == 0 ==> Window(k.memory, WriteAddress(r), WriteSize(r)) == Narrowed(r, bytes)
    ensures (old(k.auth) != 0 ==> k.auth != 0) && Grew(old(k.faults), k.faults)
    ensures rc != 0 && backend == RequestBackend(r, sdk) && old(k.auth) != 0 &&
            (UsesProtectionWindow(r, sdk) ==>
               old(InScope(guard.Snap(k), pid, r.methodAddress) && Usable(guard.Snap(k)))) ==>
              Serious(k.faults, r, sdk) > Serious(old(k.faults), r, sdk)
    ensures UsesProtectionWindow(r, sdk) ==>
              GuardCall(old(guard.Snap(k)), guard.Snap(k), pid, r.methodAddress, bytes[0], rc)
  {
    if UsesProtectionWindow(r, sdk) {
      assert Narrowed(r, bytes) == [bytes[0]];
      rc := WriteGuardByte(k, pid, r.methodAddress, bytes[0], guard);
      assert rc == 0 ==> Window(k.memory, WriteAddress(r), 1) == [bytes[0]];
    } else {
      rc := WritePlain(k, r, sdk, backend, bytes);
    }
  }

  function CodeAt(m: Memory, r: Request): Code
  {
    Window(m, r.methodAddress, PATCH_SIZE)
  }

  /** Memory may differ only in the range the request narrows the write to. */
  ghost predicate OnlyNarrowedChanged(r: Request, m: Memory, m': Memory)
  {
    SameOutside(m, m', WriteAddress(r), WriteSize(r))
  }

  lemma SameCodeSameMemory(r: Request, m: Memory, m': Memory)
    requires OnlyNarrowedChanged(r, m, m') && CodeAt(m, r) == CodeAt(m', r)
    ensures SameMemory(m, m')
  {
    forall a ensures m'(a) == m(a) {
      if r.methodAddress <= a < r.methodAddress + PATCH_SIZE {
        var i := a - r.methodAddress;
        assert CodeAt(m, r)[i] == m(r.methodAddress + i) && CodeAt(m', r)[i] == m'(r.methodAddress + i);
      }
    }
  }

  /** Writing the narrowed range of `bytes` over code that agrees with it elsewhere gives all of `bytes`. */
  lemma WrittenWhole(r: Request, m: Memory, m': Memory, was: Code, bytes: Code)
    requires OnlyNarrowedChanged(r, m, m') && CodeAt(m, r) == was
    requires forall i :: 0 <= i < PATCH_SIZE && !(WriteOffset(r) <= i < WriteOffset(r) + WriteSize(r)) ==> was[i] == bytes[i]
    requires Window(m', WriteAddress(r), WriteSize(r)) == Narrowed(r, bytes)
    ensures CodeAt(m', r) == bytes
  {
    var now, offset := CodeAt(m', r), WriteOffset(r);
    forall i | 0 <= i < PATCH_SIZE ensures now[i] == bytes[i] {
      if offset <= i < offset + WriteSize(r) {
        assert Window(m', WriteAddress(r), WriteSize(r))[i - offset] == m'(WriteAddress(r) + (i - offset));
        assert Narrowed(r, bytes)[i - offset] == bytes[i];
      } else {
        assert CodeAt(m, r)[i] == m(r.methodAddress + i);
      }
    }
  }

  /** The machine state a transaction is about. */
  datatype Machine = Machine(memory: Memory, protection: nat, attached: bool, auth: Word64)

  function MachineOf(k: Kernel): Machine
    reads k
  {
    Machine(k.memory, k.protection, k.attached, k.auth)
  }

  /** What a request needs for nothing but a failure to stop it. */
  ghost predicate Workable(r: Request, sdk: Word32, backend: Backend, pid: Pid, m: Machine)
  {
    && backend == RequestBackend(r, sdk) && MayRead(pid, r.methodAddress) && m.auth != 0
    && (UsesProtectionWindow(r, sdk) ==> m.protection <= 0xff && Executable(m.protection))
  }

  /** Writes the expected code back and believes only what it reads. */
  method RollBack(k: Kernel, r: Request, sdk: Word32, backend: Backend, pid: Pid, guard: GuardWriteState,
                  report: Report, ghost m: Memory)
    requires backend != Unsupported && pid > 0 && UserAddress(r.methodAddress)
    requires CodeAt(m, r) == r.expected && OnlyNarrowedChanged(r, m, k.memory)
    modifies k`memory, k`protection, k`auth, k`caps, k`faults, guard, report`restored
    ensures OnlyNarrowedChanged(r, old(k.memory), k.memory)
    ensures report.restored ==> CodeAt(k.memory, r) == r.expected
    ensures report.restored && UsesProtectionWindow(r, sdk) ==>
              && guard.originalProtection >= 0 && k.protection == guard.originalProtection
              && guard.originalProtection ==
                 (if old(guard.originalProtection) >= 0 then old(guard.originalProtection) else old(k.protection))
    ensures Grew(old(k.faults), k.faults)
    ensures !report.restored && backend == RequestBackend(r, sdk) && MayRead(pid, r.methodAddress) && old(k.auth) != 0 &&
            (UsesProtectionWindow(r, sdk) ==>
               old(InScope(guard.Snap(k), pid, r.methodAddress) && Usable(guard.Snap(k)))) ==>
              Serious(k.faults, r, sdk) > Serious(old(k.faults), r, sdk)
  {
    report.restored := false;
    var restoreRc := WriteTarget(k, r, sdk, backend, pid, r.expected, guard);
    if restoreRc == 0 {
      WrittenWhole(r, m, k.memory, r.expected, r.expected);
      var checkRc, check := ReadTarget(k, sdk, backend, pid, r.methodAddress);
      report.restored := checkRc == 0 && check == r.expected;
    }
  }

  /** Write, then read back. */
  method Install(k: Kernel, r: Request, sdk: Word32, backend: Backend, pid: Pid, guard: GuardWriteState)
    returns (writeRc: int, verifyRc: int, verified: Code)
    requires backend != Unsupported && pid > 0 && UserAddress(r.methodAddress)
    requires CodeAt(k.memory, r) == r.expected && (GuardShape(r) || PatchShape(r))
    requires guard.originalProtection < 0
    modifies k`memory, k`protection, k`auth, k`caps, k`faults, guard
    ensures OnlyNarrowedChanged(r, old(k.memory), k.memory)
    ensures UsesProtectionWindow(r, sdk) ==>
              GuardCall(old(guard.Snap(k)), guard.Snap(k), pid, r.methodAddress, r.desired[0], writeRc)
    ensures verifyRc == 0 ==> verified == CodeAt(k.memory, r)
    ensures writeRc == 0 ==> CodeAt(k.memory, r) == r.desired
    ensures (old(k.auth) != 0 ==> k.auth != 0) && Grew(old(k.faults), k.faults)
    ensures Workable(r, sdk, backend, pid, old(MachineOf(k))) && (writeRc != 0 || verifyRc != 0) ==>
              Serious(k.faults, r, sdk) > Serious(old(k.faults), r, sdk)
  {
    writeRc := WriteTarget(k, r, sdk, backend, pid, r.desired, guard);
    if writeRc == 0 {
      AgreeOutsideNarrowed(r);
      WrittenWhole(r, old(k.memory), k.memory, r.expected, r.desired);
    }
    verifyRc, verified := ReadTarget(k, sdk, backend, pid, r.methodAddress);
  }

  /** Write, read back, and roll back unless the read-back shows the desired code. */
  method InstallOrRollBack(k: Kernel, r: Request, sdk: Word32, backend: Backend, pid: Pid, report: Report)
    requires backend != Unsupported && pid > 0 && UserAddress(r.methodAddress) && !IsProbe(r)
    requires CodeAt(k.memory, r) == r.expected && (GuardShape(r) || PatchShape(r))
    modifies k`memory, k`protection, k`auth, k`caps, k`faults
    modifies report`status, report`writeRc, report`verified, report`restored
    ensures OnlyNarrowedChanged(r, old(k.memory), k.memory)
    ensures report.status in {Success, WriteFailure, VerifyFailure}
    ensures report.status == Success ==>
              && report.verified && report.restored == old(report.restored)
              && CodeAt(k.memory, r) == r.desired
              && (UsesProtectionWindow(r, sdk) ==> k.protection == old(k.protection))
    ensures report.status != Success && report.restored ==>
              && SameMemory(old(k.memory), k.memory)
              && (UsesProtectionWindow(r, sdk) ==> k.protection == old(k.protection))
    ensures Grew(old(k.faults), k.faults)
    ensures Workable(r, sdk, backend, pid, old(MachineOf(k))) && report.status != Success ==>
              Serious(k.faults, r, sdk) >= Serious(old(k.faults), r, sdk) + (if report.restored then 1 else 2)
  {
    var guard := new GuardWriteState();
    var verifyRc, verified;
    report.writeRc, verifyRc, verified := Install(k, r, sdk, backend, pid, guard);
    report.verified := verifyRc == 0 && verified == r.desired;
    if report.verified && report.writeRc == 0 {
      report.status := Success;
      return;
    }
    report.status := if report.writeRc == 0 then VerifyFailure else WriteFailure;
    var stillOriginal := verifyRc == 0 && verified == r.expected;
    if stillOriginal && (!UsesProtectionWindow(r, sdk) || guard.protectionRestored) {
      report.restored := true;
    } else {
      RollBack(k, r, sdk, backend, pid, guard, report, old(k.memory));
    }
    if report.restored {
      SameCodeSameMemory(r, old(k.memory), k.memory);
    }
  }

  // ---------- The whole transaction ----------

  /** Statuses reached before anything was written. */
  predicate NothingWritten(status: Status)
  {
    status in {InvalidRequest, UnsupportedFirmware, AuthFailure, AttachFailure, ExpectedBytesMismatch}
  }

  /** What the stopped part may do, and what it may claim. */
  ghost predicate StoppedEffect(r: Request, sdk: Word32, m: Machine, m': Machine, o: Outcome)
  {
    && (IsProbe(r) || NothingWritten(o.status) ==> m'.memory == m.memory && !o.restored)
    && (IsProbe(r) && o.status == Success ==> o.verified && o.observed == CodeAt(m.memory, r))
    && (!IsProbe(r) ==> OnlyNarrowedChanged(r, m.memory, m'.memory))
    && (!IsProbe(r) && !NothingWritten(o.status) ==> CodeAt(m.memory, r) == r.expected)
    && (!IsProbe(r) && o.status == Success ==>
          && CodeAt(m'.memory, r) == r.desired && o.verified && !o.restored
          && (UsesProtectionWindow(r, sdk) ==> m'.protection == m.protection))
    && (o.restored ==>
          && SameMemory(m.memory, m'.memory) && o.status in {WriteFailure, VerifyFailure}
          && (UsesProtectionWindow(r, sdk) ==> m'.protection == m.protection))
  }

  /** What one consumed request may do to the machine, and what its report may claim about it. */
  ghost predicate TransactionEffect(r: Request, pid: Pid, sdk: Word32, m: Machine, m': Machine, o: Outcome)
  {
    && (o.status == InvalidRequest <==> !RequestValid(r, pid))
    && (o.status == UnsupportedFirmware <==>
          RequestValid(r, pid) && RequestBackend(r, sdk) == Unsupported)
    && StoppedEffect(r, sdk, m, m', o)
    && ClosedEffect(r, m, m', o)
  }

  /** What detaching and restoring the credentials adds. */
  ghost predicate ClosedEffect(r: Request, m: Machine, m': Machine, o: Outcome)
  {
    && (!IsProbe(r) && o.status == Success ==> o.detached && o.authRestored)
    && (o.status == DetachFailure ==> CodeAt(m'.memory, r) == r.desired && !o.detached)
    && (o.status == AuthRestoreFailure ==> CodeAt(m'.memory, r) == r.desired && !o.authRestored)
    && (o.detached ==> !m'.attached)
    && (o.authRestored ==> m'.auth == m.auth)
  }

  /**
    Why a workable transaction fell short, with `n` and `n'` the serious failures counted before and after
    it. A probe, and a patch or guard that finds its expected code, succeed unless there was one; and
    what stays unrestored cost a second one, for the rollback is always tried.
    */
  ghost predicate FallsShortForCause(r: Request, m: Machine, o: Outcome, n: nat, n': nat)
  {
    && n <= n'
    && (IsProbe(r) || CodeAt(m.memory, r) == r.expected ==> o.status == Success || n' > n)
    && (o.status in {WriteFailure, VerifyFailure} && !o.restored ==> n' >= n + 2)
  }

  /** Attach, compare, and either report what was read or go on to the write. */
  method TransactStopped(k: Kernel, r: Request, sdk: Word32, backend: Backend, pid: Pid, report: Report)
    requires backend != Unsupported && pid > 0 && UserAddress(r.methodAddress)
    requires IsProbe(r) || GuardShape(r) || PatchShape(r)
    requires !report.restored
    modifies k`memory, k`protection, k`auth, k`caps, k`faults
    modifies report`status, report`readRc, report`writeRc, report`expectedMatched
    modifies report`verified, report`restored, report`observed
    ensures report.status in {Success, ExpectedBytesMismatch, WriteFailure, VerifyFailure}
    ensures IsProbe(r) ==> report.status in {Success, ExpectedBytesMismatch}
    ensures StoppedEffect(r, sdk, old(MachineOf(k)), MachineOf(k), report.View())
    ensures Workable(r, sdk, backend, pid, old(MachineOf(k))) ==>
              FallsShortForCause(r, old(MachineOf(k)), report.View(), Serious(old(k.faults), r, sdk), Serious(k.faults, r, sdk))
  {
    var observed;
    report.readRc, observed := ReadTarget(k, sdk, backend, pid, r.methodAddress);
    if IsProbe(r) {
      if report.readRc == 0 {
        report.observed := observed;
        report.expectedMatched, report.verified := true, true;
        report.status := Success;
      } else {
        report.status := ExpectedBytesMismatch;
      }
    } else if report.readRc != 0 || observed != r.expected {
      report.status := ExpectedBytesMismatch;
    } else {
      report.expectedMatched := true;
      InstallOrRollBack(k, r, sdk, backend, pid, report);
    }
  }

  /** The same, and what is not detached or not given its credentials back cost a failure of its own kind. */
  ghost predicate ClosesForCause(r: Request, m: Machine, o: Outcome, n: nat, n': nat)
  {
    FallsShortForCause(r, m, o, n, n') && (n' == n ==> o.detached && o.authRestored)
  }

  method DetachTarget(k: Kernel, patchApplied: bool, report: Report)
    modifies k`attached, k`faults, report`status, report`detached
    ensures report.detached ==> !k.attached
    ensures GrewHard(old(k.faults), k.faults) && (!report.detached ==> k.faults.hard > old(k.faults).hard)
    ensures report.status == if !report.detached && patchApplied then DetachFailure else old(report.status)
  {
    var detachRc := k.Detach();
    report.detached := detachRc == 0;
    if !report.detached && patchApplied {
      report.status := DetachFailure;
    }
  }

  /** What a target that was attached to is left as; `applied` is whether the patch is in place. */
  ghost predicate Detached(r: Request, m': Machine, o: Outcome, applied: bool)
  {
    && o.status in {Success, ExpectedBytesMismatch, WriteFailure, VerifyFailure, DetachFailure}
    && (o.detached ==> !m'.attached)
    && (applied ==> CodeAt(m'.memory, r) == r.desired)
    && (applied <==> !IsProbe(r) && o.status in {Success, DetachFailure})
    && (o.status == DetachFailure <==> applied && !o.detached)
  }

  /** The part of a transaction between attaching and giving the credentials back. */
  method TransactAttached(k: Kernel, r: Request, sdk: Word32, backend: Backend, pid: Pid, report: Report)
      returns (applied: bool)
    requires backend != Unsupported && pid > 0 && UserAddress(r.methodAddress)
    requires IsProbe(r) || GuardShape(r) || PatchShape(r)
    requires !report.restored && !report.detached && !report.authRestored
    modifies k, report
    ensures !report.authRestored
    ensures StoppedEffect(r, sdk, old(MachineOf(k)), MachineOf(k), report.View())
    ensures Detached(r, MachineOf(k), report.View(), applied)
    ensures Workable(r, sdk, backend, pid, old(MachineOf(k))) ==>
              && FallsShortForCause(r, old(MachineOf(k)), report.View(), Serious(old(k.faults), r, sdk), Serious(k.faults, r, sdk))
              && (report.detached || Serious(k.faults, r, sdk) > Serious(old(k.faults), r, sdk))
  {
    TransactStopped(k, r, sdk, backend, pid, report);
    applied := !IsProbe(r) && report.status == Success;
    DetachTarget(k, applied, report);
  }

  /** Attach, transact, detach and put the credentials back. */
  method TransactPrivileged(k: Kernel, r: Request, sdk: Word32, backend: Backend, pid: Pid,
                            originalAuth: Word64, report: Report)
    requires backend != Unsupported && pid > 0 && UserAddress(r.methodAddress) && originalAuth != 0
    requires IsProbe(r) || GuardShape(r) || PatchShape(r)
    requires !report.restored && !report.detached && !report.authRestored
    modifies k, report
    ensures report.status !in {InvalidRequest, UnsupportedFirmware}
    ensures StoppedEffect(r, sdk, old(MachineOf(k)), MachineOf(k), report.View())
    ensures ClosedEffect(r, old(MachineOf(k)).(auth := originalAuth), MachineOf(k), report.View())
    ensures Workable(r, sdk, backend, pid, old(MachineOf(k))) ==>
              ClosesForCause(r, old(MachineOf(k)), report.View(), Serious(old(k.faults), r, sdk), Serious(k.faults, r, sdk))
  {
    var patchApplied := false;
    var attachRc := k.Attach();
    if attachRc != 0 {
      report.status := AttachFailure;
    } else {
      patchApplied := TransactAttached(k, r, sdk, backend, pid, report);
    }
    RestoreAuth(k, originalAuth, patchApplied, report);
  }

  /** Puts the auth id back and believes only what it reads. */
  method RestoreAuth(k: Kernel, originalAuth: Word64, patchApplied: bool, report: Report)
    requires originalAuth != 0 && !report.authRestored
    modifies k`auth, k`faults, report`status, report`authRestored
    ensures report.authRestored ==> k.auth == originalAuth
    ensures GrewHard(old(k.faults), k.faults) && (!report.authRestored ==> k.faults.hard > old(k.faults).hard)
    ensures report.status ==
            if !report.authRestored && patchApplied then AuthRestoreFailure else old(report.status)
  {
    var authRc := k.SetAuth(originalAuth);
    if authRc == 0 {
      var now := k.GetAuth();
      report.authRestored := now == originalAuth;
    }
    if !report.authRestored && patchApplied {
      report.status := AuthRestoreFailure;
    }
  }

  /** Takes the auth id that ptrace needs, remembering the one to give back. */
  method TakeAuth(k: Kernel) returns (ok: bool, originalAuth: Word64)
    modifies k`auth, k`faults
    ensures ok ==> originalAuth == old(k.auth) != 0 && k.auth != 0
    ensures GrewHard(old(k.faults), k.faults) && (!ok && old(k.auth) != 0 ==> k.faults.hard > old(k.faults).hard)
  {
    originalAuth := k.GetAuth();
    if originalAuth == 0 {
      return false, 0;
    }
    var authRc := k.SetAuth(PTRACE_AUTH);
    ok := authRc == 0;
  }

  /** A transaction of a request that has been validated, on a firmware that supports it. */
  method TransactSupported(k: Kernel, r: Request, sdk: Word32, backend: Backend, pid: Pid, report: Report)
    requires backend != Unsupported && pid > 0 && UserAddress(r.methodAddress)
    requires IsProbe(r) || GuardShape(r) || PatchShape(r)
    requires !report.restored && !report.detached && !report.authRestored
    modifies k, report
    ensures report.status !in {InvalidRequest, UnsupportedFirmware}
    ensures StoppedEffect(r, sdk, old(MachineOf(k)), MachineOf(k), report.View())
    ensures ClosedEffect(r, old(MachineOf(k)), MachineOf(k), report.View())
    ensures Workable(r, sdk, backend, pid, old(MachineOf(k))) ==>
              ClosesForCause(r, old(MachineOf(k)), report.View(), Serious(old(k.faults), r, sdk), Serious(k.faults, r, sdk))
  {
    var ok, originalAuth := TakeAuth(k);
    if !ok {
      report.status := AuthFailure;
      return;
    }
    TransactPrivileged(k, r, sdk, backend, pid, originalAuth, report);
  }

  /** A valid request on a supported firmware, of a controller with an auth id and a usable mapping. */
  ghost predicate CanSucceed(r: Request, pid: Pid, sdk: Word32, m: Machine)
  {
    && RequestValid(r, pid) && RequestBackend(r, sdk) != Unsupported && m.auth != 0
    && (UsesProtectionWindow(r, sdk) ==> m.protection <= 0xff && Executable(m.protection))
  }

  lemma ValidIsReadable(r: Request, pid: Pid)
    requires RequestValid(r, pid)
    ensures MayRead(pid, r.methodAddress) && (IsProbe(r) || GuardShape(r) || PatchShape(r))
  {
    HeaderIsReadable(r, pid);
  }

  lemma HeaderIsReadable(r: Request, pid: Pid)
    ensures HeaderValid(r, pid) ==> MayRead(pid, r.methodAddress)
  {
    if UserAddress(r.methodAddress) {
      assert Add64(r.methodAddress, PATCH_SIZE - 1) == r.methodAddress + PATCH_SIZE - 1;
    }
  }

  /** The part of `poll_and_apply_shellui_hook` between consuming a request and acknowledging it. */
  method Transact(k: Kernel, r: Request, sdk: Word32, pid: Pid) returns (report: Report)
    modifies k
    ensures fresh(report)
    ensures TransactionEffect(r, pid, sdk, old(MachineOf(k)), MachineOf(k), report.View())
    ensures CanSucceed(r, pid, sdk, old(MachineOf(k))) ==>
              ClosesForCause(r, old(MachineOf(k)), report.View(), Serious(old(k.faults), r, sdk), Serious(k.faults, r, sdk))
  {
    report := new Report();
    if !RequestValid(r, pid) {
      return;
    }
    ValidIsReadable(r, pid);
    var backend := RequestBackend(r, sdk);
    if backend == Unsupported {
      report.status := UnsupportedFirmware;
      return;
    }
    TransactSupported(k, r, sdk, backend, pid, report);
  }

  function AckFor(r: Request, o: Outcome, readRc: int, writeRc: int): Ack
  {
    Ack(r.pid, r.nonce, o.status, readRc, writeRc, o.verified, o.restored, o.detached,
        o.authRestored, RequestPhase(r), o.observed)
  }

  datatype PollResult = NoRequest | Applied | Failed

  /** `poll_and_apply_shellui_hook`. */
  method Poll(k: Kernel, files: ProtocolFiles, sdk: Word32, pid: Pid) returns (result: PollResult, report: Report)
    modifies k, files
    ensures fresh(report)
    ensures result == NoRequest <==> !old(files.request).Stored?
    ensures result == NoRequest ==>
              && MachineOf(k) == old(MachineOf(k))
              && files.request == old(files.request) && files.ack == old(files.ack)
    ensures result != NoRequest ==>
              var r := old(files.request).request;
              && TransactionEffect(r, pid, sdk, old(MachineOf(k)), MachineOf(k), report.View())
              && (result == Applied <==> report.status == Success)
              && (CanSucceed(r, pid, sdk, old(MachineOf(k))) ==>
                    ClosesForCause(r, old(MachineOf(k)), report.View(),
                                   Serious(old(k.faults), r, sdk), Serious(k.faults, r, sdk)))
              && (files.faults == old(files.faults) ==>
                    files.request == NoFile &&
                    files.ack == Some(AckFor(r, report.View(), report.readRc, report.writeRc)))
              && files.request in {old(files.request), NoFile}
              && files.ack in {old(files.ack), Some(AckFor(r, report.View(), report.readRc, report.writeRc))}
  {
    match files.request
    case Stored(r) =>
      files.RemoveRequest();
      report := Transact(k, r, sdk, pid);
      files.ReplaceAck(AckFor(r, report.View(), report.readRc, report.writeRc));
      result := if report.status == Success then Applied else Failed;
    case _ =>
      report := new Report();
      result := NoRequest;
  }

  // ---------- What a reader of the report may conclude ----------

  /** `m` with the whole of `code` at `address`. */
  ghost predicate HasCodeInstalled(m: Memory, m': Memory, address: int, code: Code)
  {
    forall a :: m'(a) == if address <= a < address + PATCH_SIZE then code[a - address] else m(a)
  }

  lemma CodeAndFrame(r: Request, m: Memory, m': Memory)
    requires OnlyNarrowedChanged(r, m, m') && CodeAt(m', r) == r.desired
    ensures HasCodeInstalled(m, m', r.methodAddress, r.desired)
  {
    forall a | r.methodAddress <= a < r.methodAddress + PATCH_SIZE
      ensures m'(a) == r.desired[a - r.methodAddress]
    {
      assert CodeAt(m', r)[a - r.methodAddress] == m'(r.methodAddress + (a - r.methodAddress));
    }
  }

  /** The two states a reported transaction may leave: installed, or exactly as it was. */
  lemma ReportedStateIsReal(r: Request, pid: Pid, sdk: Word32, m: Machine, m': Machine, o: Outcome)
    requires TransactionEffect(r, pid, sdk, m, m', o) && !IsProbe(r)
    requires o.status == Success || o.restored || NothingWritten(o.status)
    ensures if o.status == Success
            then HasCodeInstalled(m.memory, m'.memory, r.methodAddress, r.desired)
            else SameMemory(m.memory, m'.memory)
  {
    if o.status == Success {
      CodeAndFrame(r, m.memory, m'.memory);
    }
  }

  /** A second transaction for an installed request changes nothing: its comparison fails. */
  lemma InstalledIsStable(r: Request, pid: Pid, sdk: Word32, m: Machine, m': Machine, o: Outcome)
    requires TransactionEffect(r, pid, sdk, m, m', o) && !IsProbe(r)
    requires CodeAt(m.memory, r) == r.desired
    ensures m'.memory == m.memory && o.status != Success
  {
    if RequestValid(r, pid) {
      DesiredDiffers(r, pid);
    }
  }

  lemma DesiredDiffers(r: Request, pid: Pid)
    requires RequestValid(r, pid) && !IsProbe(r)
    ensures r.expected != r.desired
  {
  }

  /** Without a serious failure a patch or guard whose expected code stands there is done, all of it. */
  lemma UndisturbedSucceeds(r: Request, pid: Pid, sdk: Word32, m: Machine, m': Machine, o: Outcome, n: nat)
    requires TransactionEffect(r, pid, sdk, m, m', o) && ClosesForCause(r, m, o, n, n)
    requires !IsProbe(r) && CodeAt(m.memory, r) == r.expected
    ensures o.status == Success && HasCodeInstalled(m.memory, m'.memory, r.methodAddress, r.desired)
    ensures !m'.attached && m'.auth == m.auth
  {
    ReportedStateIsReal(r, pid, sdk, m, m', o);
  }

  /** Without a serious failure a probe reports the true bytes and leaves everything as it was. */
  lemma UndisturbedProbe(r: Request, pid: Pid, sdk: Word32, m: Machine, m': Machine, o: Outcome, n: nat)
    requires TransactionEffect(r, pid, sdk, m, m', o) && ClosesForCause(r, m, o, n, n) && IsProbe(r)
    ensures o.status == Success && o.verified && o.observed == CodeAt(m.memory, r)
    ensures m'.memory == m.memory && !m'.attached && m'.auth == m.auth
  {
  }
}
