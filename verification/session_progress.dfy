/**
 What a session achieves when nothing fails: the renderer accepts what an undisturbed controller
 acknowledges, and from a fresh start it reaches the guard or the hook it is after.
 */
module SessionProgress {
  import opened Common
  import opened MdbgIo
  import opened HookProtocol
  import opened HookController
  import opened LengthDecoder
  import opened StraightLine
  import opened HookSession

  // ---------- Reaching one world from another ----------

  ghost predicate Leads(s: Session, run: seq<World>, w: World, w': World)
  {
    && run != [] && run[0] == w && run[|run| - 1] == w'
    && forall i :: 0 <= i < |run| - 1 ==> Step(s, run[i], run[i + 1])
  }

  ghost predicate Reachable(s: Session, w: World, w': World)
  {
    exists run :: Leads(s, run, w, w')
  }

  lemma Stays(s: Session, w: World)
    ensures Reachable(s, w, w)
  {
    assert Leads(s, [w], w, w);
  }

  lemma OneStepFurther(s: Session, a: World, b: World, c: World)
    requires Reachable(s, a, b) && Step(s, b, c)
    ensures Reachable(s, a, c)
  {
    var run :| Leads(s, run, a, b);
    var longer := run + [c];
    forall i | 0 <= i < |longer| - 1 ensures Step(s, longer[i], longer[i + 1]) {
      if i < |run| - 1 {
        assert Step(s, run[i], run[i + 1]);
      }
    }
    assert Leads(s, longer, a, c);
  }

  // ---------- One request and its acknowledgement ----------

  /** The transaction as its acknowledgement tells it. */
  function Told(t: Transaction): Ack
  {
    AckFor(t.request, t.outcome, 0, 0)
  }

  ghost predicate MayTransact(s: Session, w: World, t: Transaction)
  {
    t.before == w.machine && TransactionEffect(t.request, s.pid, s.sdk, t.before, t.after, t.outcome)
  }

  /** Request written, read, unlinked, transacted and acknowledged, and the acknowledgement received. */
  lemma Exchange(s: Session, start: World, w: World, i: nat, t: Transaction) returns (w': World)
    requires Reachable(s, start, w) && w.controller == Idle
    requires NextRequest(s, w.renderer, i, t.request) && MayTransact(s, w, t)
    ensures Reachable(s, start, w') && w'.controller == Idle && w'.machine == t.after
    ensures w'.renderer == Conclude(i, t.request, Told(t)) && w'.original == w.original
  {
    var r := t.request;
    NextRequestFacts(s, w.renderer, i, r);
    var w1 := w.(file := Torn, renderer := Writing(i, r), sent := w.sent + [r]);
    assert BeginWrite(s, w, w1);
    OneStepFurther(s, start, w, w1);
    var w2 := w1.(file := Stored(r), renderer := Waiting(i, r));
    assert EndWrite(w1, w2);
    OneStepFurther(s, start, w1, w2);
    var w3 := w2.(controller := Read(r));
    assert ReadRequest(w2, w3);
    OneStepFurther(s, start, w2, w3);
    var w4 := w3.(file := NoFile, controller := Consumed(r));
    assert UnlinkRequest(w3, w4);
    OneStepFurther(s, start, w3, w4);
    var w5 := w4.(machine := t.after, log := w4.log + [t], controller := Acknowledging(Told(t)));
    assert w5.log[|w4.log|] == t && Transacts(s, w4, w5);
    OneStepFurther(s, start, w4, w5);
    var w6 := w5.(ack := Some(Told(t)), controller := Idle);
    assert Acknowledge(w5, w6);
    OneStepFurther(s, start, w5, w6);
    w' := w6.(renderer := Conclude(i, r, Told(t)));
    assert ReceiveAck(s, w6, w');
    OneStepFurther(s, start, w6, w');
  }

  // ---------- What an undisturbed transaction makes the renderer do ----------

  /** A transaction in which nothing that matters failed: the count of serious failures stays `n`. */
  ghost predicate Undisturbed(s: Session, w: World, t: Transaction, n: nat)
  {
    MayTransact(s, w, t) && ClosesForCause(t.request, t.before, t.outcome, n, n)
  }

  /** The renderer goes on with the true bytes, unless the diagnostics method turns out disabled. */
  lemma UndisturbedProbeGoesOn(s: Session, w: World, i: nat, t: Transaction, n: nat)
    requires RequestFacts(s, i, t.request) && IsProbe(t.request) && Undisturbed(s, w, t, n)
    ensures var code := CodeAt(w.machine.memory, t.request);
            Conclude(i, t.request, Told(t)) ==
            if i == 0 && code[0] == 0xc3 then AlreadyDisabled else Ready(i + 1, code)
    ensures t.after.memory == w.machine.memory
  {
    UndisturbedProbe(t.request, s.pid, s.sdk, t.before, t.after, t.outcome, n);
  }

  /** The renderer concludes that its guard or patch is in place, and it is. */
  lemma UndisturbedWriteIsConcluded(s: Session, w: World, i: nat, t: Transaction, n: nat)
    requires RequestFacts(s, i, t.request) && !IsProbe(t.request) && Undisturbed(s, w, t, n)
    requires CodeAt(w.machine.memory, t.request) == t.request.expected
    ensures Conclude(i, t.request, Told(t)) == Installed(i, t.request)
    ensures HasCodeInstalled(w.machine.memory, t.after.memory, t.request.methodAddress, t.request.desired)
  {
    UndisturbedSucceeds(t.request, s.pid, s.sdk, t.before, t.after, t.outcome, n);
  }

  /** Only a refusal for the firmware makes the renderer turn to the update method. */
  lemma TurnsToUpdate(s: Session, t: Transaction)
    requires RequestFacts(s, 1, t.request)
    ensures Conclude(1, t.request, Told(t)).Ready? <==> t.outcome.status == UnsupportedFirmware
  {
  }

  // ---------- Such transactions exist ----------

  lemma ProbeExists(s: Session, w: World, r: Request) returns (t: Transaction)
    requires RequestValid(r, s.pid) && IsProbe(r) && RequestBackend(r, s.sdk) != Unsupported
    ensures t.request == r && Undisturbed(s, w, t, 0)
  {
    var m := w.machine;
    t := Transaction(r, m, m.(attached := false),
                     Outcome(Success, true, true, false, true, true, CodeAt(m.memory, r)));
  }

  /** `m` with `code` at `address`. */
  function Put(m: Memory, address: int, code: Code): (m': Memory)
    ensures Window(m', address, PATCH_SIZE) == code
  {
    a => if address <= a < address + PATCH_SIZE then code[a - address] else m(a)
  }

  lemma PutIsNarrowed(m: Memory, r: Request)
    requires GuardShape(r) || PatchShape(r)
    requires CodeAt(m, r) == r.expected
    ensures OnlyNarrowedChanged(r, m, Put(m, r.methodAddress, r.desired))
  {
    var after := Put(m, r.methodAddress, r.desired);
    AgreeOutsideNarrowed(r);
    forall a | a < WriteAddress(r) || WriteAddress(r) + WriteSize(r) <= a ensures after(a) == m(a) {
      if r.methodAddress <= a < r.methodAddress + PATCH_SIZE {
        assert CodeAt(m, r)[a - r.methodAddress] == m(r.methodAddress + (a - r.methodAddress));
      }
    }
  }

  lemma WriteExists(s: Session, w: World, r: Request) returns (t: Transaction)
    requires RequestValid(r, s.pid) && !IsProbe(r) && RequestBackend(r, s.sdk) != Unsupported
    requires CodeAt(w.machine.memory, r) == r.expected
    ensures t.request == r && Undisturbed(s, w, t, 0)
  {
    var m := w.machine;
    ValidIsReadable(r, s.pid);
    PutIsNarrowed(m.memory, r);
    var after := Put(m.memory, r.methodAddress, r.desired);
    assert CodeAt(after, r) == r.desired;
    t := Transaction(r, m, m.(memory := after, attached := false),
                     Outcome(Success, true, true, false, true, true, Zeros(PATCH_SIZE)));
    assert StoppedEffect(r, s.sdk, m, t.after, t.outcome);
  }

  lemma RefusalExists(s: Session, w: World, r: Request) returns (t: Transaction)
    requires RequestValid(r, s.pid) && RequestBackend(r, s.sdk) == Unsupported
    ensures t.request == r && MayTransact(s, w, t) && t.after == w.machine && t.outcome.status == UnsupportedFirmware
  {
    t := Transaction(r, w.machine, w.machine,
                     Outcome(UnsupportedFirmware, false, false, false, false, false, Zeros(PATCH_SIZE)));
  }

  // ---------- From a fresh start ----------

  /** A platform on which the session can do anything at all. */
  ghost predicate Prepared(s: Session, w: World)
  {
    && Init(s, w) && MethodsApart(s) && s.pid > 0 && UserAddress(s.hook)
    && MethodInUserRange(s.guardMethod) && MethodInUserRange(s.updateMethod)
    && w.machine.memory(s.guardMethod) != 0xc3
  }

  /** The `i`-th request, a probe, gives the renderer the bytes that stand there. */
  lemma ProbeStep(s: Session, start: World, w: World, i: nat) returns (w': World)
    requires Reachable(s, start, w) && w.controller == Idle && w.renderer.Ready? && w.renderer.next == i
    requires s.pid > 0 && UserAddress(s.hook) && ProbeBackend(s.sdk) != Unsupported
    requires (i == 0 && w.machine.memory(s.guardMethod) != 0xc3) || i == 2
    requires MethodInUserRange(TargetAt(s, i))
    ensures Reachable(s, start, w') && w'.controller == Idle && w'.machine.memory == w.machine.memory
    ensures w'.renderer == Ready(i + 1, Window(w.machine.memory, TargetAt(s, i), PATCH_SIZE))
    ensures w'.original == w.original
  {
    var r := ProbeRequest(s.pid, TargetAt(s, i), s.hook);
    ProbeAccepted(s.pid, TargetAt(s, i), s.hook);
    NextRequestFacts(s, w.renderer, i, r);
    var t := ProbeExists(s, w, r);
    UndisturbedProbeGoesOn(s, w, i, t, 0);
    w' := Exchange(s, start, w, i, t);
  }

  /** Where guards are supported, a fresh session can end with the diagnostics method disabled. */
  lemma GuardIsReachable(s: Session, w: World) returns (w': World)
    requires Prepared(s, w) && GuardBackend(s.sdk) != Unsupported
    ensures Reachable(s, w, w') && w'.renderer.Installed?
    ensures var code := Window(w.machine.memory, s.guardMethod, PATCH_SIZE);
            HasCodeInstalled(w.machine.memory, w'.machine.memory, s.guardMethod, code[0 := 0xc3])
  {
    Stays(s, w);
    RoutedAlike(s.sdk, true);
    var probed := ProbeStep(s, w, w, 0);
    var code := probed.renderer.expected;
    assert code[0] == w.machine.memory(s.guardMethod + 0);
    var r := GuardRequest(s.pid, s.guardMethod, code);
    GuardAccepted(s.pid, s.guardMethod, code);
    NextRequestFacts(s, probed.renderer, 1, r);
    var t := WriteExists(s, probed, r);
    UndisturbedWriteIsConcluded(s, probed, 1, t, 0);
    w' := Exchange(s, w, probed, 1, t);
  }

  /** Where guards are not supported, a fresh session turns to the update method. */
  lemma UpdateIsProbed(s: Session, w: World) returns (w': World)
    requires Prepared(s, w) && GuardBackend(s.sdk) == Unsupported && ProbeBackend(s.sdk) != Unsupported
    ensures Reachable(s, w, w') && w'.controller == Idle && w'.machine.memory == w.machine.memory
    ensures w'.renderer == Ready(3, Window(w.machine.memory, s.updateMethod, PATCH_SIZE))
  {
    Stays(s, w);
    var probed := ProbeStep(s, w, w, 0);
    var code := probed.renderer.expected;
    assert code[0] == w.machine.memory(s.guardMethod + 0);
    var r := GuardRequest(s.pid, s.guardMethod, code);
    GuardAccepted(s.pid, s.guardMethod, code);
    NextRequestFacts(s, probed.renderer, 1, r);
    var t := RefusalExists(s, probed, r);
    var refused := Exchange(s, w, probed, 1, t);
    w' := ProbeStep(s, w, refused, 2);
  }

  lemma JumpIsChained(code: Code, original: Word64)
    requires code[..JUMP_SIZE] == JumpBytes(original)
    ensures JUMP_PREFIX <= code && FromBytes(code[6..14]) == original
  {
    assert JUMP_PREFIX == code[..JUMP_SIZE][..6] == code[..6];
    assert code[6..14] == code[..JUMP_SIZE][6..] == ToBytes(8, original);
    Word64RoundTrip(original);
  }

  lemma HookStands(s: Session, m: Memory, m': Memory, desired: Code)
    requires HasCodeInstalled(m, m', s.updateMethod, desired) && desired[..JUMP_SIZE] == JumpBytes(s.hook)
    ensures JumpsToHook(s, m')
  {
    var now := Window(m', s.updateMethod, JUMP_SIZE);
    forall i | 0 <= i < JUMP_SIZE ensures now[i] == desired[..JUMP_SIZE][i] {
      assert m'(s.updateMethod + i) == desired[i];
    }
  }

  /** The planned patch of a jump, published and carried out. */
  lemma PatchStep(s: Session, start: World, w: World, code: Code, original: Word64) returns (w': World)
    requires Reachable(s, start, w) && w.controller == Idle && w.renderer == Planned(Plan(code, JUMP_SIZE, original))
    requires s.pid > 0 && Family(s.sdk) == 0x09600000
    requires JUMP_PREFIX <= code && FromBytes(code[6..14]) == original
    requires code == Window(w.machine.memory, s.updateMethod, PATCH_SIZE)
    requires HookAddressesApart(s.updateMethod, s.hook, original)
    ensures Reachable(s, start, w') && w'.renderer.Installed? && w'.original == w.original
    ensures JumpsToHook(s, w'.machine.memory)
  {
    var r := PatchRequest(s.pid, s.updateMethod, s.hook, code, JUMP_SIZE, original);
    ChainedPatchAccepted(s.pid, s.updateMethod, s.hook, code);
    NextRequestFacts(s, w.renderer, 3, r);
    var t := WriteExists(s, w, r);
    UndisturbedWriteIsConcluded(s, w, 3, t, 0);
    w' := Exchange(s, start, w, 3, t);
    HookStands(s, w.machine.memory, w'.machine.memory, r.desired);
  }

  /**
   On FW 9.60, where the update method is a jump already, a fresh session can end with the jump going to
   the hook and the old target saved.
   */
  lemma HookIsReachable(s: Session, w: World, original: Word64) returns (w': World)
    requires Prepared(s, w) && Family(s.sdk) == 0x09600000
    requires Window(w.machine.memory, s.updateMethod, JUMP_SIZE) == JumpBytes(original)
    requires HookAddressesApart(s.updateMethod, s.hook, original)
    ensures Reachable(s, w, w') && w'.renderer.Installed?
    ensures JumpsToHook(s, w'.machine.memory) && w'.original == Some(original)
  {
    RoutedAlike(s.sdk, true);
    var probed := UpdateIsProbed(s, w);
    var code := probed.renderer.expected;
    assert code[..JUMP_SIZE] == Window(w.machine.memory, s.updateMethod, JUMP_SIZE);
    JumpIsChained(code, original);
    var planned := probed.(renderer := Planned(Plan(code, JUMP_SIZE, original)), original := Some(original));
    assert SaveOriginal(s, probed, planned);
    OneStepFurther(s, w, probed, planned);
    w' := PatchStep(s, w, planned, code, original);
  }
}
