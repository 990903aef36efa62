/** The FW 11.60 one-byte write inside a saved and restored VM-protection window. */
module GuardWrite {
  import opened Common
  import opened Kernel
  import opened MdbgIo

  /** What survives a call: the target, and the part of the state a rollback reuses. */
  datatype Snapshot = Snapshot(memory: Memory, protection: nat, pid: int, address: int,
                               original: int, restored: bool)

  class GuardWriteState {
    var pid: int
    var address: int
    var originalProtection: int
    var protectRc: int
    var ptraceWriteRc: int
    var mdbgWriteRc: int
    var restoreProtectionRc: int
    var protectionRestored: bool

    constructor ()
      ensures originalProtection == -1 && !protectionRestored
    {
      pid, address, originalProtection := -1, 0, -1;
      protectRc, ptraceWriteRc, mdbgWriteRc, restoreProtectionRc := -1, -1, -1, -1;
      protectionRestored := false;
    }

    function Snap(k: Kernel): Snapshot
      reads this, k
    {
      Snapshot(k.memory, k.protection, pid, address, originalProtection, protectionRestored)
    }
  }

  predicate InScope(s: Snapshot, pid: int, address: int)
  {
    pid > 0 && UserAddress(address) && (s.original >= 0 ==> s.pid == pid && s.address == address)
  }

  /** Every effect one call may have, in terms of what it found. */
  ghost predicate GuardCall(s: Snapshot, s': Snapshot, pid: int, address: int, byte: Byte, rc: int)
  {
    && (!InScope(s, pid, address) ==> s' == s && rc == EINVAL)
    // The saved protection is written once, with what the mapping really had.
    && (s.original >= 0 ==> s'.original == s.original && s'.pid == s.pid && s'.address == s.address)
    && (s.original < 0 <= s'.original ==>
          && s'.original == s.protection <= 0xff && Executable(s.protection)
          && s'.pid == pid && s'.address == address)
    // An unknown mapping is never touched.
    && (s'.original < 0 ==> s'.protection == s.protection && s'.memory == s.memory && rc != 0)
    && (s'.original >= 0 ==>
          || s'.protection == s.protection
          || s'.protection == s'.original
          || s'.protection == WithReadWrite(s'.original))
    && WroteWithin(s.memory, s'.memory, address, [byte])
    && (s'.restored && InScope(s, pid, address) ==> s'.original >= 0 && s'.protection == s'.original)
    && (rc == 0 ==>
          && s'.original >= 0 && s'.restored && s'.protection == s'.original
          && s'.memory(address) == byte)
  }

  /** A mapping the call may use: executable, and with the flags it had or READ and WRITE added. */
  ghost predicate Usable(s: Snapshot)
  {
    var original := if s.original < 0 then s.protection else s.original;
    && original <= 0xff && Executable(original)
    && (s.protection == original || s.protection == WithReadWrite(original))
  }

  /** On a usable mapping only a failure that has no second way around it makes a call fail. */
  ghost predicate FailsForCause(s: Snapshot, auth: Word64, pid: int, address: int, rc: int, f: Faults, f': Faults)
  {
    && Grew(f, f') && f'.readRefused == f.readRefused && f'.debuggerWrite == f.debuggerWrite
    && (rc != 0 && auth != 0 && InScope(s, pid, address) && Usable(s) ==> f'.hard > f.hard)
  }

  lemma WroteTwice(before: Memory, mid: Memory, after: Memory, address: int, bytes: seq<Byte>)
    requires WroteWithin(before, mid, address, bytes) && WroteWithin(mid, after, address, bytes)
    ensures WroteWithin(before, after, address, bytes)
  {
  }

  /** The write itself: ptrace first, the checked debugger only after EFAULT or EPERM. */
  method TryWriters(k: Kernel, pid: int, address: int, byte: Byte, state: GuardWriteState)
    returns (rc: int)
    requires pid > 0 && UserAddress(address)
    modifies k`memory, k`auth, k`caps, k`faults, state`ptraceWriteRc, state`mdbgWriteRc
    ensures WroteWithin(old(k.memory), k.memory, address, [byte])
    ensures rc == 0 ==> k.memory(address) == byte
    ensures k.auth == old(k.auth) || k.auth == COREDUMP_AUTH
    ensures k.caps == old(k.caps) || k.caps == ALL_CAPS
    ensures Grew(old(k.faults), k.faults)
    ensures k.faults.readRefused == old(k.faults).readRefused && k.faults.debuggerWrite == old(k.faults).debuggerWrite
    ensures rc != 0 && old(k.auth) != 0 ==> k.faults.hard > old(k.faults).hard
  {
    var raw, errno := k.CopyIn(Ptrace, address, [byte]);
    ghost var mid := k.memory;
    state.ptraceWriteRc := if raw == -1 then (if errno != 0 then errno else EIO) else raw;
    rc := state.ptraceWriteRc;
    if rc == EFAULT || rc == EPERM {
      state.mdbgWriteRc := WriteByte(k, pid, address, byte);
      rc := state.mdbgWriteRc;
      WroteTwice(old(k.memory), mid, k.memory, address, [byte]);
    } else if rc == 0 {
      assert Window(k.memory, address, 1)[0] == k.memory(address + 0);
    }
  }

  /** Asks for the saved protection back and believes only a query. */
  method Restore(k: Kernel, state: GuardWriteState)
    requires state.originalProtection >= 0
    modifies k`protection, k`faults, state`restoreProtectionRc, state`protectionRestored
    ensures k.protection == old(k.protection) || k.protection == state.originalProtection
    ensures state.protectionRestored ==> k.protection == state.originalProtection
    ensures GrewHard(old(k.faults), k.faults)
    ensures !state.protectionRestored ==> k.faults.hard > old(k.faults).hard
  {
    state.restoreProtectionRc := k.Protect(state.originalProtection);
    state.protectionRestored := false;
    if state.restoreProtectionRc == 0 {
      var check := k.QueryProtection();
      state.protectionRestored := check == state.originalProtection;
    }
  }

  /** Opens the window unless it is open already, writes, and closes it whatever happened. */
  method WriteThroughWindow(k: Kernel, pid: int, address: int, byte: Byte, state: GuardWriteState,
                            open: bool)
    returns (rc: int)
    requires state.originalProtection >= 0 && pid > 0 && UserAddress(address)
    requires open ==> k.protection == WithReadWrite(state.originalProtection)
    modifies k`memory, k`protection, k`auth, k`caps, k`faults
    modifies state`protectRc, state`ptraceWriteRc, state`mdbgWriteRc
    modifies state`restoreProtectionRc, state`protectionRestored
    ensures WroteWithin(old(k.memory), k.memory, address, [byte])
    ensures k.protection in {old(k.protection), state.originalProtection,
                             WithReadWrite(state.originalProtection)}
    ensures state.protectionRestored ==> k.protection == state.originalProtection
    ensures rc == 0 ==> state.protectionRestored && k.memory(address) == byte
    ensures k.auth == old(k.auth) || k.auth == COREDUMP_AUTH
    ensures k.caps == old(k.caps) || k.caps == ALL_CAPS
    ensures Grew(old(k.faults), k.faults)
    ensures k.faults.readRefused == old(k.faults).readRefused && k.faults.debuggerWrite == old(k.faults).debuggerWrite
    ensures rc != 0 && old(k.auth) != 0 ==> k.faults.hard > old(k.faults).hard
  {
    var writable := WithReadWrite(state.originalProtection);
    if open {
      state.protectRc := 0;
    } else {
      state.protectRc := k.Protect(writable);
    }
    var writeRc := EIO;
    if state.protectRc == 0 {
      var check := k.QueryProtection();
      if check == writable {
        writeRc := TryWriters(k, pid, address, byte, state);
      }
    }

    // Restored even if the setup failed after touching the mapping.
    Restore(k, state);
    if !state.protectionRestored {
      return -1001;
    }
    if state.protectRc != 0 {
      return -1000;
    }
    rc := writeRc;
  }

  /** `shellui_write_guard_byte`. */
  method WriteGuardByte(k: Kernel, pid: int, address: int, byte: Byte, state: GuardWriteState)
    returns (rc: int)
    modifies k`memory, k`protection, k`auth, k`caps, k`faults, state
    ensures GuardCall(old(state.Snap(k)), state.Snap(k), pid, address, byte, rc)
    ensures FailsForCause(old(state.Snap(k)), old(k.auth), pid, address, rc, old(k.faults), k.faults)
    ensures k.auth == old(k.auth) || k.auth == COREDUMP_AUTH
    ensures k.caps == old(k.caps) || k.caps == ALL_CAPS
  {
    if pid <= 0 || !UserAddress(address) ||
       (state.originalProtection >= 0 && (state.pid != pid || state.address != address)) {
      return EINVAL;
    }
    state.protectRc, state.ptraceWriteRc := -1, -1;
    state.mdbgWriteRc, state.restoreProtectionRc := -1, -1;
    state.protectionRestored := false;
    var current := k.QueryProtection();
    if current < 0 {
      // A rollback still tries to recover the saved protection after a failed query.
      if state.originalProtection >= 0 {
        Restore(k, state);
      }
      if !state.protectionRestored {
        return EIO;
      }
      current := state.originalProtection;
    }
    if current > 0xff || !Executable(current) {
      return EIO;
    }
    if state.originalProtection < 0 {
      state.pid, state.address, state.originalProtection := pid, address, current;
    }
    var writable := WithReadWrite(state.originalProtection);
    if current != state.originalProtection && current != writable {
      return EIO;
    }

    rc := WriteThroughWindow(k, pid, address, byte, state, current == writable);
  }

  // ---------- Whole runs ----------

  datatype Call = Call(pid: int, address: int, byte: Byte, rc: int)

  /** A run: calls that share one state, with the snapshots before, between and after them. */
  ghost predicate GuardRun(snaps: seq<Snapshot>, calls: seq<Call>)
  {
    && |snaps| == |calls| + 1
    && snaps[0].original < 0
    && forall i :: 0 <= i < |calls| ==> RunStep(snaps, calls, i)
  }

  ghost predicate RunStep(snaps: seq<Snapshot>, calls: seq<Call>, i: nat)
    requires |snaps| == |calls| + 1 && i < |calls|
  {
    var c := calls[i];
    GuardCall(snaps[i], snaps[i + 1], c.pid, c.address, c.byte, c.rc)
  }

  /** What holds after every call of a run that began at `first`. */
  ghost predicate RunInvariant(first: Snapshot, s: Snapshot)
  {
    && (s.original < 0 ==> s.protection == first.protection && s.memory == first.memory)
    && (s.original >= 0 ==>
          && s.original == first.protection && Executable(s.original)
          && (s.protection == first.protection || s.protection == WithReadWrite(first.protection))
          && SameOutside(first.memory, s.memory, s.address, 1))
  }

  lemma {:induction false} RunKeepsInvariant(snaps: seq<Snapshot>, calls: seq<Call>, n: nat)
    requires GuardRun(snaps, calls) && n <= |calls|
    ensures RunInvariant(snaps[0], snaps[n])
    ensures forall i :: 0 <= i <= n && snaps[i].original >= 0 ==>
              snaps[n].original == snaps[i].original && snaps[n].address == snaps[i].address
  {
    if n > 0 {
      RunKeepsInvariant(snaps, calls, n - 1);
      assert RunStep(snaps, calls, n - 1);
    }
  }

  /** A zero return is exact after any history of failures: one byte written, protection restored. */
  lemma ZeroReturnIsExact(snaps: seq<Snapshot>, calls: seq<Call>, n: nat)
    requires GuardRun(snaps, calls) && n < |calls| && calls[n].rc == 0
    ensures snaps[n + 1].memory(calls[n].address) == calls[n].byte
    ensures snaps[n + 1].protection == snaps[0].protection
    ensures SameOutside(snaps[0].memory, snaps[n + 1].memory, calls[n].address, 1)
  {
    RunKeepsInvariant(snaps, calls, n);
    RunKeepsInvariant(snaps, calls, n + 1);
    assert RunStep(snaps, calls, n);
  }
}
