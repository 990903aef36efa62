/** The settings file: written beside, synced, renamed into place; and what a crash leaves of it. */
module SettingsStore {
  import opened Common
  import opened ConfigText
  import opened SettingsForm

  const MAX_SETTINGS_BYTES: nat := 4096

  /** The contents of a file, or none when there is no such file. */
  type Content = Option<string>

  /** What loading a settings file gives: the defaults unless it can be read and is not too long. */
  function Load(strtof: Strtof, content: Content): OverlayConfig
  {
    if content.None? || |content.value| > MAX_SETTINGS_BYTES then DEFAULT else Parse(strtof, content.value)
  }

  /**
    * The settings file and the pending one beside it. A write may do less than it is asked, every
    * operation may fail, and a crash keeps of unsynced data whatever it likes.
    */
  class Disk {
    var main: Content
    var pending: Content
    ghost var synced: bool
    /** What the settings file may hold after a crash at any moment up to now. */
    ghost var afterCrash: iset<Content>
    /** How often the system will still interrupt a write. */
    var interruptions: nat
    /** How many operations have failed. */
    ghost var faults: nat

    constructor (main: Content, interruptions: nat)
      ensures this.main == main && this.interruptions == interruptions && afterCrash == iset{main} && faults == 0
    {
      this.main, this.interruptions, pending, synced, afterCrash, faults := main, interruptions, None, false, iset{main}, 0;
    }

    /** What an operation that may fail answers. */
    method Outcome() returns (ok: bool)
      modifies this`faults
      ensures faults == old(faults) + if ok then 0 else 1
    {
      ok := *;
      faults := faults + if ok then 0 else 1;
    }

    method OpenPending() returns (ok: bool)
      modifies this`pending, this`synced, this`faults
      ensures ok ==> pending == Some("") && !synced
      ensures faults == old(faults) + if ok then 0 else 1
    {
      ok := Outcome();
      var created: bool := *;
      if ok || created {
        pending, synced := Some(""), false;
      }
    }

    /** `write`: negative when it fails, or when it is only `interrupted`; some of the data otherwise. */
    method Write(data: string) returns (n: int, interrupted: bool)
      requires pending.Some? && data != ""
      modifies this`pending, this`synced, this`interruptions, this`faults
      ensures n <= |data|
      ensures interrupted ==> n < 0 && interruptions == old(interruptions) - 1
      ensures !interrupted ==> interruptions == old(interruptions)
      ensures faults == old(faults) + if n > 0 || interrupted then 0 else 1
      ensures pending == Some(old(pending).value + if n > 0 then data[..n] else "")
    {
      n, interrupted := *, *;
      if n > |data| {
        n := |data|;
      }
      if n > 0 {
        pending, synced := Some(pending.value + data[..n]), false;
      } else {
        assert pending.value + "" == pending.value;
      }
      interrupted := interrupted && n < 0 && interruptions > 0;
      if interrupted {
        interruptions := interruptions - 1;
      } else if n <= 0 {
        faults := faults + 1;
      }
    }

    method Sync() returns (ok: bool)
      modifies this`synced, this`faults
      ensures ok ==> synced
      ensures faults == old(faults) + if ok then 0 else 1
    {
      ok := Outcome();
      if ok {
        synced := true;
      }
    }

    method Close() returns (ok: bool)
      modifies this`faults
      ensures faults == old(faults) + if ok then 0 else 1
    {
      ok := Outcome();
    }

    /** `rename`: atomic, so a crash keeps the old file or the new one; unsynced data it may lose. */
    method Rename() returns (ok: bool)
      requires pending.Some?
      modifies this`main, this`pending, this`afterCrash, this`faults
      ensures faults == old(faults) + if ok then 0 else 1
      ensures !ok ==> main == old(main) && afterCrash == old(afterCrash)
      ensures ok ==> main == old(pending)
      ensures ok && synced ==> afterCrash == old(afterCrash) + iset{old(pending)}
    {
      ok := Outcome();
      if ok {
        ghost var anything: iset<Content> := *;
        afterCrash := afterCrash + if synced then iset{pending} else anything;
        main, pending := pending, None;
      }
    }

    method Unlink()
      modifies this`pending
    {
      var ok: bool := *;
      if ok {
        pending := None;
      }
    }

    /** The write loop of `atomic_write`: it stops short only when a write fails. */
    method WriteAll(data: string) returns (offset: nat)
      requires pending == Some("")
      modifies this`pending, this`synced, this`interruptions, this`faults
      ensures offset <= |data| && pending == Some(data[..offset])
      ensures faults == old(faults) + if offset == |data| then 0 else 1
    {
      offset := 0;
      while offset < |data|
        invariant offset <= |data| && pending == Some(data[..offset]) && faults == old(faults)
        decreases |data| - offset, interruptions
      {
        var n, interrupted := Write(data[offset..]);
        assert data[..offset] + "" == data[..offset];
        if interrupted {
          continue;
        }
        if n <= 0 {
          break;
        }
        assert data[..offset] + data[offset..][..n] == data[..offset + n];
        offset := offset + n;
      }
    }

    /**
      * `atomic_write`: all or nothing, and all unless an operation failed; a crash at any moment leaves
      * the old contents or the new.
      */
    method AtomicWrite(data: string) returns (ok: bool)
      modifies this
      ensures ok <==> faults == old(faults)
      ensures main == if ok then Some(data) else old(main)
      ensures afterCrash <= old(afterCrash) + iset{Some(data)}
    {
      ok := OpenPending();
      if !ok {
        return;
      }
      var offset := WriteAll(data);
      ok := offset == |data|;
      if ok {
        ok := Sync();
        assert data[..offset] == data;
      }
      var closed := Close();
      ok := ok && closed;
      if ok {
        ok := Rename();
      }
      if !ok {
        Unlink();
      }
    }
  }

  class Store {
    const disk: Disk
    const strtof: Strtof
    var config: OverlayConfig

    /** A new process: what it has is what it loads; `readable` is whether reading succeeded. */
    constructor (disk: Disk, strtof: Strtof, readable: bool)
      ensures this.disk == disk && this.strtof == strtof
      ensures config == if readable then Load(strtof, disk.main) else DEFAULT
    {
      this.disk, this.strtof := disk, strtof;
      config := if readable then Load(strtof, disk.main) else DEFAULT;
    }

    /**
      * `save`: on success the file loads back as what is now in memory, on failure neither has changed;
      * a crash at any moment loads back as before the call or as after it.
      */
    method Save(c: OverlayConfig) returns (ok: bool)
      requires ReadsNumerals(strtof)
      modifies this, disk
      ensures ok <==> disk.faults == old(disk.faults)
      ensures config == if ok then Sanitize(c) else old(config)
      ensures if ok then Load(strtof, disk.main) == Sanitize(c) else disk.main == old(disk.main)
      ensures forall left :: left in disk.afterCrash ==>
                left in old(disk.afterCrash) || Load(strtof, left) == Sanitize(c)
      ensures old(disk.afterCrash) == iset{old(disk.main)} ==> forall left :: left in disk.afterCrash ==>
                Load(strtof, left) == Load(strtof, old(disk.main)) || Load(strtof, left) == Sanitize(c)
    {
      var next := Sanitize(c);
      SavedLoadsBack(strtof, next);
      ok := disk.AtomicWrite(Serialize(next));
      if ok {
        config := next;
      }
    }
  }

  /** The text of a sane configuration loads back as that configuration. */
  lemma SavedLoadsBack(strtof: Strtof, c: OverlayConfig)
    requires ReadsNumerals(strtof) && IsSane(c)
    ensures Load(strtof, Some(Serialize(c))) == c
  {
    SerializeIsShort(c);
    ParseAfterSerialize(strtof, c);
  }

  /** End to end: an accepted form is saved and loaded back exactly as it was read. */
  lemma FormSurvivesSaving(strtof: Strtof, body: string, c: OverlayConfig)
    requires ReadsNumerals(strtof) && ParseForm(body) == Some(c)
    ensures Sanitize(c) == c && Load(strtof, Some(Serialize(Sanitize(c)))) == c
  {
    AcceptedIsSane(body);
    SavedLoadsBack(strtof, c);
  }

  /** A whole posting: the accepted form is in memory and on disk, or it was refused, or an operation failed. */
  method Post(store: Store, body: string) returns (ok: bool)
    requires ReadsNumerals(store.strtof)
    modifies store, store.disk
    ensures ok <==> ParseForm(body).Some? && store.disk.faults == old(store.disk.faults)
    ensures ok ==> ParseForm(body) == Some(store.config) && Load(store.strtof, store.disk.main) == store.config
    ensures !ok ==> store.config == old(store.config) && store.disk.main == old(store.disk.main)
    ensures forall left :: left in store.disk.afterCrash ==>
              left in old(store.disk.afterCrash) || ParseForm(body) == Some(Load(store.strtof, left))
  {
    var parsed := ParseSettingsForm(body);
    if parsed.None? {
      return false;
    }
    AcceptedIsSane(body);
    ok := store.Save(parsed.value);
  }
}
