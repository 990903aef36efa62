/** Checked debugger transfers: the exact-transfer loop and the credential window around it. */
module MdbgIo {
  import opened Common
  import opened Kernel

  const COREDUMP_AUTH: Word64 := 0x4800000000000006
  const PATCH_SIZE: nat := 16

  predicate UserAddress(address: int)
  {
    0x10000 <= address < 0x0000_8000_0000_0000
  }

  function Total(chunks: seq<nat>): nat
  {
    if chunks == [] then 0 else chunks[0] + Total(chunks[1..])
  }

  lemma {:induction false} TotalAppend(chunks: seq<nat>, n: nat)
    ensures Total(chunks + [n]) == Total(chunks) + n
  {
    if chunks == [] {
      assert [n][1..] == [];
    } else {
      TotalAppend(chunks[1..], n);
      assert (chunks + [n])[1..] == chunks[1..] + [n];
    }
  }

  /** An all-or-nothing account of a finished transfer: every chunk moved something, in range. */
  ghost predicate Complete(chunks: seq<nat>, size: nat)
  {
    Total(chunks) == size && forall i :: 0 <= i < |chunks| ==> 0 < chunks[i] <= size
  }

  lemma WriteNextChunk(before: Memory, mid: Memory, after: Memory, address: int, data: seq<Byte>, offset: nat)
    requires offset <= |data|
    requires WroteWithin(before, mid, address, data)
    requires WroteWithin(mid, after, address + offset, data[offset..])
    ensures WroteWithin(before, after, address, data)
    ensures forall a :: address <= a < address + offset ==> after(a) == mid(a)
  {
    forall i | 0 <= i < |data|
      ensures after(address + i) == before(address + i) || after(address + i) == data[i]
    {
      if i >= offset {
        assert after(address + offset + (i - offset)) == after(address + i);
      }
    }
  }

  /** One round of the loop: a chunk is believed only if it moved something, in range. */
  method TransferChunk(k: Kernel, read: bool, address: int, buffer: array<Byte>, offset: nat)
    returns (error: int, count: nat)
    requires offset < buffer.Length
    modifies k`memory, k`faults, buffer
    ensures error == 0 ==> 0 < count <= buffer.Length - offset
    ensures GrewHard(old(k.faults), k.faults) && (error != 0 ==> k.faults.hard > old(k.faults).hard)
    ensures buffer[..offset] == old(buffer[..offset])
    ensures read ==> k.memory == old(k.memory)
    ensures !read ==> buffer[..] == old(buffer[..])
    ensures !read ==> WroteWithin(old(k.memory), k.memory, address + offset, old(buffer[offset..]))
    ensures error == 0 ==>
              Window(k.memory, address + offset, count) == buffer[offset..offset + count]
  {
    var syscallRc, status, bytes;
    var remaining := buffer.Length - offset;
    if read {
      syscallRc, status, bytes := k.DebuggerRead(address + offset, buffer, offset, remaining);
    } else {
      syscallRc, status, bytes := k.DebuggerWrite(address + offset, buffer[offset..]);
    }
    error, count := if syscallRc != 0 then syscallRc else status, bytes;
    if error == 0 && (bytes == 0 || bytes > remaining) {
      error := EIO;
    }
    assert !read && error == 0 ==> buffer[offset..][..count] == buffer[offset..offset + count];
  }

  /** What has been moved when `offset` bytes are through. */
  ghost predicate Moved(memory: Memory, address: int, data: seq<Byte>, offset: nat)
    requires offset <= |data|
  {
    forall i :: 0 <= i < offset ==> memory(address + i) == data[i]
  }

  lemma MovedExtends(memory: Memory, address: int, data: seq<Byte>, offset: nat, count: nat)
    requires offset + count <= |data| && Moved(memory, address, data, offset)
    requires Window(memory, address + offset, count) == data[offset..offset + count]
    ensures Moved(memory, address, data, offset + count)
  {
    forall i | offset <= i < offset + count ensures memory(address + i) == data[i] {
      assert Window(memory, address + offset, count)[i - offset] == memory(address + offset + (i - offset));
      assert data[offset..offset + count][i - offset] == data[i];
    }
  }

  /** The loop of `debugger_transfer_exact`: chunk after chunk until an error or the last byte. */
  method TransferLoop(k: Kernel, read: bool, address: int, buffer: array<Byte>)
    returns (rc: int, ghost chunks: seq<nat>)
    modifies k`memory, k`faults, buffer
    ensures buffer.Length == 0 ==> rc == EINVAL
    ensures GrewHard(old(k.faults), k.faults)
    ensures rc != 0 && buffer.Length > 0 ==> k.faults.hard > old(k.faults).hard
    ensures rc == 0 ==> Complete(chunks, buffer.Length)
    ensures rc != 0 ==> Total(chunks) < buffer.Length || buffer.Length == 0
    ensures read ==> k.memory == old(k.memory)
    ensures !read ==> buffer[..] == old(buffer[..])
    ensures WroteWithin(old(k.memory), k.memory, address, old(buffer[..]))
    ensures rc == 0 ==> Window(k.memory, address, buffer.Length) == buffer[..]
  {
    chunks := [];
    var size := buffer.Length;
    if size == 0 {
      return EINVAL, [];
    }
    var offset := 0;
    while offset < size
      invariant 0 <= offset <= size
      invariant offset == Total(chunks)
      invariant GrewHard(old(k.faults), k.faults)
      invariant forall i :: 0 <= i < |chunks| ==> 0 < chunks[i] <= size
      invariant read ==> k.memory == old(k.memory)
      invariant !read ==> buffer[..] == old(buffer[..])
      invariant Moved(k.memory, address, buffer[..], offset)
      invariant WroteWithin(old(k.memory), k.memory, address, old(buffer[..]))
      decreases size - offset
    {
      ghost var was, data := k.memory, buffer[..];
      var error, bytes := TransferChunk(k, read, address, buffer, offset);
      if !read {
        WriteNextChunk(old(k.memory), was, k.memory, address, buffer[..], offset);
      }
      if error != 0 {
        return error, chunks;
      }
      assert buffer[..][..offset] == data[..offset];
      assert forall i :: 0 <= i < offset ==> buffer[..][i] == buffer[..][..offset][i] == data[i];
      MovedExtends(k.memory, address, buffer[..], offset, bytes);
      TotalAppend(chunks, bytes);
      chunks := chunks + [bytes];
      offset := offset + bytes;
    }
    rc := 0;
  }

  predicate TransferArgumentsValid(read: bool, pid: int, address: int, size: nat)
  {
    && pid > 0 && 0 < size <= PATCH_SIZE && (read || size == 1)
    && UserAddress(address) && UserAddress(address + size - 1)
  }

  const ALL_CAPS: seq<Byte> := seq(16, _ => 0xff)

  method Clear(buffer: array<Byte>)
    modifies buffer
    ensures buffer[..] == Zeros(buffer.Length)
  {
    forall i | 0 <= i < buffer.Length {
      buffer[i] := 0;
    }
  }

  /** `transfer_exact`: the loop run with raised credentials, which are always put back. */
  method TransferExact(k: Kernel, read: bool, pid: int, address: int, buffer: array<Byte>)
    returns (result: int)
    modifies k`memory, k`auth, k`caps, k`faults, buffer
    ensures !TransferArgumentsValid(read, pid, address, buffer.Length) ==>
              && result == EINVAL && buffer[..] == old(buffer[..]) && k.memory == old(k.memory)
              && k.auth == old(k.auth) && k.caps == old(k.caps)
    ensures result == 0 ==> k.auth == old(k.auth) && k.caps == old(k.caps)
    ensures k.auth == old(k.auth) || k.auth == COREDUMP_AUTH
    ensures k.caps == old(k.caps) || k.caps == ALL_CAPS
    ensures GrewHard(old(k.faults), k.faults)
    ensures result != 0 && TransferArgumentsValid(read, pid, address, buffer.Length) && old(k.auth) != 0 ==>
              k.faults.hard > old(k.faults).hard
    ensures read ==> k.memory == old(k.memory)
    ensures read && result == 0 ==> buffer[..] == Window(k.memory, address, buffer.Length)
    ensures read && result != 0 && TransferArgumentsValid(read, pid, address, buffer.Length) ==>
              buffer[..] == Zeros(buffer.Length)
    ensures WroteWithin(old(k.memory), k.memory, address, old(buffer[..]))
    ensures !read && result == 0 ==> Window(k.memory, address, buffer.Length) == old(buffer[..])
  {
    if !TransferArgumentsValid(read, pid, address, buffer.Length) {
      return EINVAL;
    }
    if read {
      Clear(buffer);
    }
    var originalAuth := k.GetAuth();
    if originalAuth == 0 {
      return EIO;
    }
    var capsRc, originalCaps := k.GetCaps();
    if capsRc != 0 {
      return EIO;
    }
    result := EIO;
    var authRc := k.SetAuth(COREDUMP_AUTH);
    if authRc == 0 {
      capsRc := k.SetCaps(ALL_CAPS);
      if capsRc == 0 {
        ghost var chunks;
        result, chunks := TransferLoop(k, read, address, buffer);
      }
    }
    // Both restores are attempted, whatever the setup reached.
    var authSet := k.SetAuth(originalAuth);
    var capsSet := k.SetCaps(originalCaps);
    var nowAuth := k.GetAuth();
    var nowRc, nowCaps := k.GetCaps();
    var authRestored := authSet == 0 && nowAuth == originalAuth;
    var capsRestored := capsSet == 0 && nowRc == 0 && nowCaps == originalCaps;
    if !authRestored || !capsRestored {
      result := EIO;
    }
    if read && result != 0 {
      Clear(buffer);
    }
  }

  /** `shellui_mdbg_write_byte`. */
  method WriteByte(k: Kernel, pid: int, address: int, byte: Byte) returns (result: int)
    modifies k`memory, k`auth, k`caps, k`faults
    ensures WroteWithin(old(k.memory), k.memory, address, [byte])
    ensures result == 0 ==>
              k.memory(address) == byte && k.auth == old(k.auth) && k.caps == old(k.caps)
    ensures GrewHard(old(k.faults), k.faults)
    ensures result != 0 && pid > 0 && UserAddress(address) && old(k.auth) != 0 ==>
              k.faults.hard > old(k.faults).hard
    ensures k.auth == old(k.auth) || k.auth == COREDUMP_AUTH
    ensures k.caps == old(k.caps) || k.caps == ALL_CAPS
  {
    var buffer := new Byte[1][byte];
    assert buffer[..] == [byte];
    result := TransferExact(k, false, pid, address, buffer);
    if result == 0 {
      assert Window(k.memory, address, 1)[0] == k.memory(address + 0);
    }
  }
}
