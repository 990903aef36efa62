/**
 The kernel services the controller uses while ShellUI is stopped. Every primitive is
 nondeterministic: it may fail, and a failing write or protection change may or may not have
 taken effect within its own range. A read that reports success is truthful, and so is a
 write that reports success; a protection change is never believed without a query.
 Nothing else writes to the stopped process. Every failure is counted.
 */
module Kernel {
  import opened Common

  const PROT_READ: nat := 1
  const PROT_WRITE: nat := 2
  const PROT_EXEC: nat := 4

  predicate Executable(protection: nat)
  {
    protection / PROT_EXEC % 2 == 1
  }

  /** `protection | PROT_READ | PROT_WRITE`; the other flags are kept. */
  function WithReadWrite(protection: nat): (w: nat)
    ensures w / 4 == protection / 4 && w % 4 == 3
  {
    protection - protection % 4 + 3
  }

  /** Every byte of the range is the old one or the one written; every other byte is unchanged. */
  ghost predicate WroteWithin(before: Memory, after: Memory, address: int, bytes: seq<Byte>)
  {
    && SameOutside(before, after, address, |bytes|)
    && forall i :: 0 <= i < |bytes| ==>
         after(address + i) == before(address + i) || after(address + i) == bytes[i]
  }

  /** Which facility a whole-buffer transfer goes through. */
  datatype Path = Ptrace | Debugger

  /**
    How often primitives have failed, or reported success without effect. Apart from the rest stand
    the failures that some requests have a second way around: ptrace reads and writes refused with
    EFAULT (writes also with EPERM), and whole-buffer debugger writes.
    */
  datatype Faults = Faults(hard: nat, readRefused: nat, writeRefused: nat, debuggerWrite: nat)

  /** No count ever falls. */
  predicate Grew(f: Faults, f': Faults)
  {
    && f.hard <= f'.hard && f.readRefused <= f'.readRefused
    && f.writeRefused <= f'.writeRefused && f.debuggerWrite <= f'.debuggerWrite
  }

  /** At most hard failures were added. */
  predicate GrewHard(f: Faults, f': Faults)
  {
    f.hard <= f'.hard && f' == f.(hard := f'.hard)
  }

  /** The error that a return code and `errno` stand for. */
  function ErrorOf(rc: int, errno: int): int
  {
    if rc == -1 then (if errno != 0 then errno else EIO) else rc
  }

  function AfterRead(f: Faults, path: Path, rc: int): Faults
  {
    if rc == 0 then f
    else if path == Ptrace && rc == EFAULT then f.(readRefused := f.readRefused + 1)
    else f.(hard := f.hard + 1)
  }

  function AfterWrite(f: Faults, path: Path, error: int): Faults
  {
    if error == 0 then f
    else if path == Debugger then f.(debuggerWrite := f.debuggerWrite + 1)
    else if error == EFAULT || error == EPERM then f.(writeRefused := f.writeRefused + 1)
    else f.(hard := f.hard + 1)
  }

  class Kernel {
    ghost var faults: Faults
    var memory: Memory       // the stopped process
    var protection: nat      // of the mapping that holds the patched method
    var attached: bool       // ptrace attachment to the stopped process
    var auth: Word64         // the caller's credentials
    var caps: seq<Byte>

    constructor (memory: Memory, protection: nat, auth: Word64, caps: seq<Byte>)
      ensures this.memory == memory && this.protection == protection
      ensures !attached && this.auth == auth && this.caps == caps && faults == Faults(0, 0, 0, 0)
    {
      faults := Faults(0, 0, 0, 0);
      this.memory, this.protection, this.attached := memory, protection, false;
      this.auth, this.caps := auth, caps;
    }

    ghost method Fail()
      modifies this`faults
      ensures faults == old(faults).(hard := old(faults).hard + 1)
    {
      faults := faults.(hard := faults.hard + 1);
    }

    method Attach() returns (rc: int)
      modifies this`attached, this`faults
      ensures rc == 0 ==> attached
      ensures GrewHard(old(faults), faults) && (rc != 0 ==> faults.hard > old(faults).hard)
    {
      rc, attached := *, *;
      if rc == 0 {
        attached := true;
      } else {
        Fail();
      }
    }

    method Detach() returns (rc: int)
      modifies this`attached, this`faults
      ensures rc == 0 ==> !attached
      ensures GrewHard(old(faults), faults) && (rc != 0 ==> faults.hard > old(faults).hard)
    {
      rc, attached := *, *;
      if rc == 0 {
        attached := false;
      } else {
        Fail();
      }
    }

    // ---------- Credentials ----------

    /** Zero reports a failure. */
    method GetAuth() returns (id: Word64)
      modifies this`faults
      ensures id == 0 || id == auth
      ensures GrewHard(old(faults), faults) && (id != auth ==> faults.hard > old(faults).hard)
    {
      var failed: bool := *;
      id := if failed then 0 else auth;
      if failed {
        Fail();
      }
    }

    method SetAuth(id: Word64) returns (rc: int)
      modifies this`auth, this`faults
      ensures auth == old(auth) || auth == id
      ensures GrewHard(old(faults), faults) && (rc != 0 || auth != id ==> faults.hard > old(faults).hard)
    {
      var effective: bool := *;
      rc := *;
      auth := if effective then id else auth;
      if rc != 0 || auth != id {
        Fail();
      }
    }

    method GetCaps() returns (rc: int, c: seq<Byte>)
      modifies this`faults
      ensures rc == 0 ==> c == caps
      ensures GrewHard(old(faults), faults) && (rc != 0 ==> faults.hard > old(faults).hard)
    {
      rc, c := *, *;
      if rc == 0 {
        c := caps;
      } else {
        Fail();
      }
    }

    method SetCaps(c: seq<Byte>) returns (rc: int)
      modifies this`caps, this`faults
      ensures caps == old(caps) || caps == c
      ensures GrewHard(old(faults), faults) && (rc != 0 || caps != c ==> faults.hard > old(faults).hard)
    {
      var effective: bool := *;
      rc := *;
      caps := if effective then c else caps;
      if rc != 0 || caps != c {
        Fail();
      }
    }

    // ---------- Memory protection ----------

    /** A negative result reports a failure. */
    method QueryProtection() returns (flags: int)
      modifies this`faults
      ensures flags < 0 || flags == protection
      ensures GrewHard(old(faults), faults) && (flags < 0 ==> faults.hard > old(faults).hard)
    {
      flags := *;
      if flags >= 0 {
        flags := protection;
      } else {
        Fail();
      }
    }

    method Protect(flags: nat) returns (rc: int)
      modifies this`protection, this`faults
      ensures protection == old(protection) || protection == flags
      ensures GrewHard(old(faults), faults) && (rc != 0 || protection != flags ==> faults.hard > old(faults).hard)
    {
      var effective: bool := *;
      rc := *;
      protection := if effective then flags else protection;
      if rc != 0 || protection != flags {
        Fail();
      }
    }

    // ---------- Whole-buffer transfers: PT_IO and the plain debugger calls ----------

    method CopyIn(path: Path, address: int, bytes: seq<Byte>) returns (rc: int, errno: int)
      modifies this`memory, this`faults
      ensures WroteWithin(old(memory), memory, address, bytes)
      ensures rc == 0 ==> Window(memory, address, |bytes|) == bytes
      ensures faults == AfterWrite(old(faults), path, ErrorOf(rc, errno))
    {
      var took: int -> bool := *;
      rc, errno := *, *;
      memory := Store(memory, address, bytes, i => rc == 0 || took(i));
      faults := AfterWrite(faults, path, ErrorOf(rc, errno));
    }

    method CopyOut(path: Path, address: int, out: array<Byte>) returns (rc: int)
      modifies out, this`faults
      ensures rc == 0 ==> out[..] == Window(memory, address, out.Length)
      ensures faults == AfterRead(old(faults), path, rc)
    {
      var noise: int -> Byte := *;
      rc := *;
      var good := rc == 0;
      forall i | 0 <= i < out.Length {
        out[i] := if good then memory(address + i) else noise(i);
      }
      faults := AfterRead(faults, path, rc);
    }

    // ---------- One debugger system call: status, and the count it moved ----------

    /** A call fails unless both codes are zero and it moved something, in range. */
    static predicate Moved(rc: int, status: int, count: nat, length: nat)
    {
      rc == 0 && status == 0 && 0 < count <= length
    }

    method DebuggerRead(address: int, out: array<Byte>, offset: nat, length: nat)
      returns (rc: int, status: int, count: nat)
      requires offset + length <= out.Length
      modifies out, this`faults
      ensures out[..offset] == old(out[..offset])
      ensures out[offset + length..] == old(out[offset + length..])
      ensures rc == 0 && status == 0 && count <= length ==>
                out[offset..offset + count] == Window(memory, address, count)
      ensures GrewHard(old(faults), faults) && (!Moved(rc, status, count, length) ==> faults.hard > old(faults).hard)
    {
      var noise: int -> Byte := *;
      rc, status, count := *, *, *;
      var good := rc == 0 && status == 0;
      forall i | offset <= i < offset + length {
        out[i] := if good && i < offset + count then memory(address + (i - offset)) else noise(i);
      }
      if !Moved(rc, status, count, length) {
        Fail();
      }
    }

    method DebuggerWrite(address: int, bytes: seq<Byte>) returns (rc: int, status: int, count: nat)
      modifies this`memory, this`faults
      ensures WroteWithin(old(memory), memory, address, bytes)
      ensures rc == 0 && status == 0 && count <= |bytes| ==>
                Window(memory, address, count) == bytes[..count]
      ensures GrewHard(old(faults), faults) && (!Moved(rc, status, count, |bytes|) ==> faults.hard > old(faults).hard)
    {
      var took: int -> bool := *;
      rc, status, count := *, *, *;
      var good := rc == 0 && status == 0;
      memory := Store(memory, address, bytes, i => took(i) || (good && i < count));
      if !Moved(rc, status, count, |bytes|) {
        Fail();
      }
    }
  }

  /** `m` with those bytes written at `address` whose index `took` selects. */
  function Store(m: Memory, address: int, bytes: seq<Byte>, took: int -> bool): (m': Memory)
    ensures WroteWithin(m, m', address, bytes)
    ensures forall i :: 0 <= i < |bytes| && took(i) ==> m'(address + i) == bytes[i]
  {
    a => if address <= a < address + |bytes| && took(a - address) then bytes[a - address] else m(a)
  }
}
