/**
 Renderer and controller over the request and acknowledgement files, in every interleaving.

 One renderer lives in ShellUI and publishes at most four requests: probe and guard of the
 diagnostics method, then, if the firmware does not support the guard, probe and patch of the
 update method. The controller polls. Files can be torn while they are written, an `unlink` can
 fail or hit a newer request, an acknowledgement can fail to be replaced, and either side can
 give up at any time.
 */
module HookSession {
  import opened Common
  import opened MdbgIo
  import opened HookProtocol
  import opened HookController
  import opened StraightLine
  import opened LengthDecoder

  /** The addresses of one session. */
  datatype Session = Session(pid: Pid, sdk: Word32, guardMethod: Word64, updateMethod: Word64,
                             hook: Word64, trampoline: Word64)

  ghost predicate MethodsApart(s: Session)
  {
    s.guardMethod + PATCH_SIZE <= s.updateMethod || s.updateMethod + PATCH_SIZE <= s.guardMethod
  }

  /** How the update method is to be patched. */
  datatype Plan = Plan(expected: Code, displaced: nat, original: Word64)

  /** `install_update_hook` up to the request: chain an existing jump, or displace a prologue. */
  ghost predicate PlanAllowed(s: Session, p: Plan)
  {
    && JUMP_SIZE <= p.displaced <= PATCH_SIZE
    && if JUMP_PREFIX <= p.expected
       then && p.displaced == JUMP_SIZE && p.original == FromBytes(p.expected[6..14])
            && p.original != s.hook && UserAddress(p.original) && p.original != s.updateMethod
       else && Boundary(InstructionLength, p.expected, p.displaced) && p.original == s.trampoline
  }

  // ---------- The two sides ----------

  /** `next` counts the four requests; an `expected` is what the accepted probe observed. */
  datatype Renderer =
    | Ready(next: nat, expected: Code)
    | Planned(plan: Plan)
    | Writing(next: nat, request: Request)
    | Waiting(next: nat, request: Request)
    | Installed(next: nat, request: Request)
    | AlreadyDisabled
    | GaveUp

  datatype Controller =
    | Idle
    | Read(request: Request)
    | Consumed(request: Request)
    | Acknowledging(ack: Ack)

  datatype Transaction = Transaction(request: Request, before: Machine, after: Machine, outcome: Outcome)

  datatype World = World(
    file: RequestFile, ack: Option<Ack>, machine: Machine,
    renderer: Renderer, controller: Controller,
    original: Option<Word64>,     // the renderer's saved original target
    sent: seq<Request>,           // history: every request whose publication began
    log: seq<Transaction>)        // history: every transaction of the controller

  ghost predicate JumpsToHook(s: Session, m: Memory)
  {
    Window(m, s.updateMethod, JUMP_SIZE) == JumpBytes(s.hook)
  }

  /** Protocol files are cleared before a renderer starts, and its hook is new to the target. */
  ghost predicate Init(s: Session, w: World)
  {
    && w.file == NoFile && w.ack == None && w.renderer == Ready(0, Zeros(PATCH_SIZE))
    && w.controller == Idle && w.original == None && w.sent == [] && w.log == []
    && !JumpsToHook(s, w.machine.memory)
  }

  /** The request the renderer publishes next. */
  ghost predicate NextRequest(s: Session, renderer: Renderer, i: nat, r: Request)
  {
    match renderer
    case Ready(n, expected) =>
      && i == n
      && ((n == 0 && r == ProbeRequest(s.pid, s.guardMethod, s.hook)) ||
          (n == 1 && r == GuardRequest(s.pid, s.guardMethod, expected)) ||
          (n == 2 && r == ProbeRequest(s.pid, s.updateMethod, s.hook)))
    case Planned(p) =>
      && i == 3 && JUMP_SIZE <= p.displaced <= PATCH_SIZE
      && r == PatchRequest(s.pid, s.updateMethod, s.hook, p.expected, p.displaced, p.original)
    case _ => false
  }

  function Accepted(a: Ack, phase: Phase): bool
  {
    a.phase == phase && a.status == Success && a.verified && a.detached && a.authRestored
  }

  /** What the renderer makes of an acknowledgement that carries its pid and nonce. */
  function Conclude(i: nat, r: Request, a: Ack): Renderer
  {
    if i == 0 then
      if !Accepted(a, Probe) then GaveUp
      else if a.observed[0] == RET then AlreadyDisabled
      else Ready(1, a.observed)
    else if i == 1 then
      if a.status == UnsupportedFirmware then Ready(2, Zeros(PATCH_SIZE))
      else if Accepted(a, MainThreadGuard) then Installed(i, r)
      else GaveUp
    else if i == 2 then
      if Accepted(a, Probe) then Ready(3, a.observed) else GaveUp
    else
      if Accepted(a, Patch) then Installed(i, r) else GaveUp
  }

  // ---------- Steps ----------

  /** The original target is saved before the patch request exists. */
  ghost predicate SaveOriginal(s: Session, w: World, w': World)
  {
    && w.renderer.Ready? && w.renderer.next == 3
    && w'.renderer.Planned? && w'.renderer.plan.expected == w.renderer.expected
    && PlanAllowed(s, w'.renderer.plan)
    && w' == w.(renderer := w'.renderer, original := Some(w'.renderer.plan.original))
  }

  /** Opening the request file truncates it. */
  ghost predicate BeginWrite(s: Session, w: World, w': World)
  {
    && w'.renderer.Writing?
    && NextRequest(s, w.renderer, w'.renderer.next, w'.renderer.request)
    && w' == w.(file := Torn, renderer := w'.renderer, sent := w.sent + [w'.renderer.request])
  }

  /** The request is stored, torn, or lost with a file the controller has unlinked meanwhile. */
  ghost predicate EndWrite(w: World, w': World)
  {
    && w.renderer.Writing?
    && w'.file in {Stored(w.renderer.request), Torn, NoFile}
    && w'.renderer in {Waiting(w.renderer.next, w.renderer.request), GaveUp}
    && w' == w.(file := w'.file, renderer := w'.renderer)
  }

  ghost predicate ReceiveAck(s: Session, w: World, w': World)
  {
    && w.renderer.Waiting? && w.ack.Some?
    && w.ack.value.pid == s.pid && w.ack.value.nonce == w.renderer.request.nonce
    && w' == w.(renderer := Conclude(w.renderer.next, w.renderer.request, w.ack.value))
  }

  ghost predicate RendererGivesUp(w: World, w': World)
  {
    && (w.renderer.Ready? || w.renderer.Planned? || w.renderer.Waiting?)
    && w' == w.(renderer := GaveUp)
  }

  ghost predicate ReadRequest(w: World, w': World)
  {
    && w.controller == Idle && w.file.Stored?
    && w' == w.(controller := Read(w.file.request))
  }

  /** Removes whatever is there now, or fails. */
  ghost predicate UnlinkRequest(w: World, w': World)
  {
    && w.controller.Read?
    && w'.file in {w.file, NoFile}
    && w' == w.(file := w'.file, controller := Consumed(w.controller.request))
  }

  /** ShellUI, and the renderer in it, is stopped throughout: one atomic step. */
  ghost predicate Transacts(s: Session, w: World, w': World)
  {
    && w.controller.Consumed?
    && |w'.log| == |w.log| + 1
    && var t := w'.log[|w.log|];
    && t.request == w.controller.request && t.before == w.machine && t.after == w'.machine
    && TransactionEffect(t.request, s.pid, s.sdk, t.before, t.after, t.outcome)
    && w'.controller.Acknowledging? && AckOf(t, w'.controller.ack)
    && w' == w.(machine := t.after, log := w.log + [t], controller := w'.controller)
  }

  ghost predicate AckOf(t: Transaction, a: Ack)
  {
    a == AckFor(t.request, t.outcome, a.readRc, a.writeRc)
  }

  ghost predicate Acknowledge(w: World, w': World)
  {
    && w.controller.Acknowledging?
    && w'.ack in {w.ack, Some(w.controller.ack)}
    && w' == w.(ack := w'.ack, controller := Idle)
  }

  /** ShellUI runs between transactions; it leaves the two methods alone. */
  ghost predicate TargetRuns(s: Session, w: World, w': World)
  {
    && (forall a :: InMethod(s.guardMethod, a) || InMethod(s.updateMethod, a) ==>
          w'.machine.memory(a) == w.machine.memory(a))
    && w' == w.(machine := w.machine.(memory := w'.machine.memory, protection := w'.machine.protection))
  }

  predicate InMethod(methodAddress: int, a: int)
  {
    methodAddress <= a < methodAddress + PATCH_SIZE
  }

  ghost predicate Step(s: Session, w: World, w': World)
  {
    || SaveOriginal(s, w, w') || BeginWrite(s, w, w') || EndWrite(w, w')
    || ReceiveAck(s, w, w') || RendererGivesUp(w, w')
    || ReadRequest(w, w') || UnlinkRequest(w, w') || Transacts(s, w, w') || Acknowledge(w, w')
    || TargetRuns(s, w, w')
  }

  /** Every interleaving: any step of any side, in any order. */
  ghost predicate Execution(s: Session, run: seq<World>)
  {
    && run != [] && Init(s, run[0]) && MethodsApart(s)
    && forall i :: 0 <= i < |run| - 1 ==> Step(s, run[i], run[i + 1])
  }

  // ---------- What is known about requests and transactions ----------

  ghost function TargetAt(s: Session, i: nat): Word64
  {
    if i < 2 then s.guardMethod else s.updateMethod
  }

  ghost function PhaseAt(i: nat): Phase
  {
    if i == 1 then MainThreadGuard else if i == 3 then Patch else Probe
  }

  /** All the rest of the proof needs to know about the `i`-th request. */
  ghost predicate RequestFacts(s: Session, i: nat, r: Request)
  {
    && i < 4 && RequestPhase(r) == PhaseAt(i) && (IsProbe(r) <==> PhaseAt(i) == Probe)
    && r.methodAddress == TargetAt(s, i) && r.pid == s.pid
    && (PhaseAt(i) == Probe ==> r.nonce == HookNonce(s.pid, TargetAt(s, i), s.hook, 0))
  }

  lemma NextRequestFacts(s: Session, renderer: Renderer, i: nat, r: Request)
    requires NextRequest(s, renderer, i, r)
    ensures RequestFacts(s, i, r)
    ensures i == 1 ==> renderer.Ready? && r.expected == renderer.expected
    ensures i == 3 ==> renderer.Planned? && r.expected == renderer.plan.expected
                       && r.originalCall == renderer.plan.original
  {
  }

  ghost predicate TransactionFacts(t: Transaction)
  {
    var r := t.request;
    && (IsProbe(r) ==> t.after.memory == t.before.memory)
    && SameOutside(t.before.memory, t.after.memory, r.methodAddress, PATCH_SIZE)
    && (IsProbe(r) && t.outcome.status == Success ==> t.outcome.observed == CodeAt(t.before.memory, r))
    && (!IsProbe(r) && t.outcome.status == Success ==> InstalledBy(t))
    && (!IsProbe(r) && CodeAt(t.before.memory, r) == r.desired ==> t.after.memory == t.before.memory)
    && (t.outcome.detached ==> !t.after.attached) && (t.outcome.authRestored ==> t.after.auth == t.before.auth)
  }

  /** The expected bytes were replaced by the desired ones; detached, credentials restored. */
  ghost predicate InstalledBy(t: Transaction)
  {
    && CodeAt(t.before.memory, t.request) == t.request.expected
    && CodeAt(t.after.memory, t.request) == t.request.desired
    && !t.after.attached && t.after.auth == t.before.auth
  }

  lemma EffectGivesFacts(s: Session, t: Transaction)
    requires TransactionEffect(t.request, s.pid, s.sdk, t.before, t.after, t.outcome)
    ensures TransactionFacts(t)
  {
    var r := t.request;
    if !IsProbe(r) && CodeAt(t.before.memory, r) == r.desired {
      InstalledIsStable(r, s.pid, s.sdk, t.before, t.after, t.outcome);
    }
  }

  /** Probes of different methods never share a nonce, even if a zero was folded to one. */
  lemma ProbeNoncesDiffer(s: Session)
    requires MethodsApart(s)
    ensures HookNonce(s.pid, s.guardMethod, s.hook, 0) != HookNonce(s.pid, s.updateMethod, s.hook, 0)
  {
    var words := [s.guardMethod, s.hook, 0, ShiftedPid(s.pid), REQUEST_NONCE_SALT];
    var other := words[0 := s.updateMethod];
    assert other == [s.updateMethod, s.hook, 0, ShiftedPid(s.pid), REQUEST_NONCE_SALT];
    if XorAll(words) / 2 == XorAll(other) / 2 {
      XorAllHalfInjective(words, 0, s.updateMethod);
    }
  }

  // ---------- The invariant ----------

  /** The `i`-th request was transacted as a probe that observed `code`. */
  ghost predicate Probed(w: World, i: nat, code: Code)
    requires i < |w.sent|
  {
    exists j :: 0 <= j < |w.log| && ProbeSaw(w.log[j], w.sent[i], code)
  }

  ghost predicate ProbeSaw(t: Transaction, r: Request, code: Code)
  {
    && t.request == r && t.outcome.status == Success
    && t.outcome.observed == code == CodeAt(t.before.memory, r)
    && !t.after.attached && t.after.auth == t.before.auth
  }

  /** Some transaction of a sent request is what this acknowledgement reports. */
  ghost predicate Reported(w: World, a: Ack)
  {
    exists j :: 0 <= j < |w.log| && AckOf(w.log[j], a)
  }

  ghost predicate RendererInvariant(s: Session, w: World)
  {
    match w.renderer
    case Ready(n, expected) =>
      && n == |w.sent| < 4 && (n == 1 || n == 3 ==> Probed(w, n - 1, expected))
    case Planned(p) =>
      |w.sent| == 3 && Probed(w, 2, p.expected) && w.original == Some(p.original)
    case Writing(n, r) => |w.sent| == n + 1 && r == w.sent[n]
    case Waiting(n, r) => |w.sent| == n + 1 && r == w.sent[n]
    case Installed(n, r) =>
      && |w.sent| == n + 1 && r == w.sent[n] && !IsProbe(r)
      && exists j :: 0 <= j < |w.log| && w.log[j].request == r && w.log[j].outcome.status == Success
    case _ => true
  }

  ghost predicate SentInvariant(s: Session, w: World)
  {
    && |w.sent| <= 4
    && (forall i :: 0 <= i < |w.sent| ==> RequestFacts(s, i, w.sent[i]))
    && (|w.sent| >= 2 ==> Probed(w, 0, w.sent[1].expected))
    && (|w.sent| == 4 ==> Probed(w, 2, w.sent[3].expected) && w.original == Some(w.sent[3].originalCall))
  }

  ghost predicate FilesInvariant(w: World)
  {
    && (w.file.Stored? ==> w.file.request in w.sent)
    && (w.controller.Read? ==> w.controller.request in w.sent)
    && (w.controller.Consumed? ==> w.controller.request in w.sent)
    && (w.controller.Acknowledging? ==> Reported(w, w.controller.ack))
    && (w.ack.Some? ==> Reported(w, w.ack.value))
  }

  ghost predicate LogInvariant(w: World)
  {
    forall j :: 0 <= j < |w.log| ==>
      && w.log[j].request in w.sent && TransactionFacts(w.log[j])
      && StillInstalled(w.log[j], w.machine.memory)
  }

  /** What was installed successfully stays installed. */
  ghost predicate StillInstalled(t: Transaction, m: Memory)
  {
    !IsProbe(t.request) && t.outcome.status == Success ==> CodeAt(m, t.request) == t.request.desired
  }

  ghost predicate Invariant(s: Session, w: World)
  {
    && SentInvariant(s, w) && RendererInvariant(s, w) && FilesInvariant(w) && LogInvariant(w)
    && (JumpsToHook(s, w.machine.memory) ==> w.original.Some?)
  }

  lemma InitEstablishes(s: Session, w: World)
    requires Init(s, w)
    ensures Invariant(s, w)
  {
  }

  /** An accepted acknowledgement answers the very request the renderer waits for. */
  lemma AckAnswersRequest(s: Session, w: World, i: nat, r: Request, a: Ack, j: nat)
    requires MethodsApart(s) && SentInvariant(s, w) && LogInvariant(w)
    requires |w.sent| == i + 1 && r == w.sent[i]
    requires j < |w.log| && AckOf(w.log[j], a) && a.nonce == r.nonce && a.phase == PhaseAt(i)
    ensures w.log[j].request == r
  {
    var k :| 0 <= k < |w.sent| && w.sent[k] == w.log[j].request;
    assert RequestFacts(s, k, w.sent[k]) && RequestFacts(s, i, w.sent[i]);
    if k != i {
      ProbeNoncesDiffer(s);
    }
  }

  /** What the renderer concludes from an acknowledgement of its own request. */
  lemma ConclusionHolds(s: Session, w: World, w': World, i: nat, r: Request, a: Ack, j: nat)
    requires |w.sent| == i + 1 && r == w.sent[i] && RequestFacts(s, i, r)
    requires j < |w.log| && AckOf(w.log[j], a)
    requires Accepted(a, PhaseAt(i)) ==> w.log[j].request == r && TransactionFacts(w.log[j])
    requires w' == w.(renderer := Conclude(i, r, a))
    ensures RendererInvariant(s, w')
  {
    if Accepted(a, PhaseAt(i)) {
      assert w'.log[j] == w.log[j];
      if IsProbe(r) {
        assert ProbeSaw(w'.log[j], w'.sent[i], a.observed);
      }
    }
  }

  lemma ReceivingKeeps(s: Session, w: World, w': World)
    requires MethodsApart(s) && Invariant(s, w) && ReceiveAck(s, w, w')
    ensures Invariant(s, w')
  {
    var i, r, a := w.renderer.next, w.renderer.request, w.ack.value;
    var j :| 0 <= j < |w.log| && AckOf(w.log[j], a);
    assert RequestFacts(s, i, w.sent[i]);
    if Accepted(a, PhaseAt(i)) {
      AckAnswersRequest(s, w, i, r, a, j);
      assert TransactionFacts(w.log[j]);
    }
    ConclusionHolds(s, w, w', i, r, a, j);
    OthersKeep(s, w, w');
  }

  /** A step of the renderer alone leaves the rest of the invariant. */
  lemma OthersKeep(s: Session, w: World, w': World)
    requires Invariant(s, w) && w' == w.(renderer := w'.renderer)
    ensures SentInvariant(s, w') && FilesInvariant(w') && LogInvariant(w')
    ensures JumpsToHook(s, w'.machine.memory) ==> w'.original.Some?
  {
    assert w'.sent == w.sent && w'.log == w.log;
  }

  lemma SavingKeeps(s: Session, w: World, w': World)
    requires Invariant(s, w) && SaveOriginal(s, w, w')
    ensures Invariant(s, w')
  {
  }

  /** Publishing needs nothing of the request but its facts. */
  lemma SendingKeeps(s: Session, w: World, w': World, i: nat, r: Request)
    requires Invariant(s, w) && RequestFacts(s, i, r) && i == |w.sent|
    requires i == 1 ==> Probed(w, 0, r.expected)
    requires i == 3 ==> Probed(w, 2, r.expected) && w.original == Some(r.originalCall)
    requires w' == w.(file := Torn, renderer := Writing(i, r), sent := w.sent + [r])
    ensures Invariant(s, w')
  {
    assert forall k :: 0 <= k < |w.sent| ==> w'.sent[k] == w.sent[k];
    forall k, code | 0 <= k < |w.sent| && Probed(w, k, code) ensures Probed(w', k, code) {
      var j :| 0 <= j < |w.log| && ProbeSaw(w.log[j], w.sent[k], code);
      assert ProbeSaw(w'.log[j], w'.sent[k], code);
    }
    assert forall q :: q in w.sent ==> q in w'.sent;
    forall k | 0 <= k < |w'.sent| ensures RequestFacts(s, k, w'.sent[k]) {
      if k < |w.sent| {
        assert RequestFacts(s, k, w.sent[k]);
      }
    }
    assert LogInvariant(w') by {
      assert LogInvariant(w);
    }
    assert FilesInvariant(w');
  }

  lemma PublishingKeeps(s: Session, w: World, w': World)
    requires Invariant(s, w) && BeginWrite(s, w, w')
    ensures Invariant(s, w')
  {
    var i, r := w'.renderer.next, w'.renderer.request;
    NextRequestFacts(s, w.renderer, i, r);
    SendingKeeps(s, w, w', i, r);
  }

  lemma QuietStepsKeep(s: Session, w: World, w': World)
    requires MethodsApart(s) && Invariant(s, w)
    requires EndWrite(w, w') || RendererGivesUp(w, w') || ReadRequest(w, w') || UnlinkRequest(w, w')
             || Acknowledge(w, w')
    ensures Invariant(s, w')
  {
    assert w'.sent == w.sent && w'.log == w.log && w'.machine == w.machine;
    assert LogInvariant(w') by {
      assert LogInvariant(w);
    }
  }

  /** A window is untouched if memory changed only in a method apart from it. */
  lemma WindowKept(m: Memory, m': Memory, address: int, n: nat)
    requires forall a :: address <= a < address + n ==> m'(a) == m(a)
    ensures Window(m', address, n) == Window(m, address, n)
  {
  }

  lemma RunningKeeps(s: Session, w: World, w': World)
    requires MethodsApart(s) && Invariant(s, w) && TargetRuns(s, w, w')
    ensures Invariant(s, w')
  {
    var m, m' := w.machine.memory, w'.machine.memory;
    forall j | 0 <= j < |w'.log| ensures StillInstalled(w'.log[j], m') {
      assert StillInstalled(w.log[j], m);
      var k :| 0 <= k < |w.sent| && w.sent[k] == w.log[j].request;
      assert RequestFacts(s, k, w.sent[k]);
      WindowKept(m, m', TargetAt(s, k), PATCH_SIZE);
    }
    WindowKept(m, m', s.updateMethod, JUMP_SIZE);
    assert LogInvariant(w') by {
      assert LogInvariant(w);
    }
    assert w'.sent == w.sent && w'.log == w.log;
  }

  /** A transaction leaves what earlier ones installed: another method, or nothing left to do. */
  lemma TransactionLeaves(s: Session, w: World, was: Transaction, t: Transaction)
    requires MethodsApart(s) && SentInvariant(s, w)
    requires was.request in w.sent && t.request in w.sent
    requires TransactionFacts(t) && t.before.memory == w.machine.memory
    requires StillInstalled(was, t.before.memory)
    ensures StillInstalled(was, t.after.memory)
  {
    if !IsProbe(was.request) && !IsProbe(t.request) && was.request != t.request {
      var k :| 0 <= k < |w.sent| && w.sent[k] == was.request;
      var l :| 0 <= l < |w.sent| && w.sent[l] == t.request;
      assert RequestFacts(s, k, w.sent[k]) && RequestFacts(s, l, w.sent[l]);
      WindowKept(t.before.memory, t.after.memory, TargetAt(s, k), PATCH_SIZE);
    }
  }

  lemma JumpNeedsOriginal(s: Session, w: World, t: Transaction)
    requires MethodsApart(s) && SentInvariant(s, w) && t.request in w.sent
    requires TransactionFacts(t) && t.before.memory == w.machine.memory
    requires JumpsToHook(s, t.before.memory) ==> w.original.Some?
    ensures JumpsToHook(s, t.after.memory) ==> w.original.Some?
  {
    var l :| 0 <= l < |w.sent| && w.sent[l] == t.request;
    assert RequestFacts(s, l, w.sent[l]);
    if l < 3 {
      if !IsProbe(t.request) {
        WindowKept(t.before.memory, t.after.memory, s.updateMethod, JUMP_SIZE);
      }
    }
  }

  /** What probes saw and what was acknowledged stays on record. */
  lemma RecordsStay(w: World, w': World, t: Transaction)
    requires w'.sent == w.sent && w'.log == w.log + [t]
    ensures forall k, code :: 0 <= k < |w.sent| && Probed(w, k, code) ==> Probed(w', k, code)
    ensures forall a :: Reported(w, a) ==> Reported(w', a)
  {
    assert forall j :: 0 <= j < |w.log| ==> w'.log[j] == w.log[j];
    forall k, code | 0 <= k < |w.sent| && Probed(w, k, code) ensures Probed(w', k, code) {
      var j :| 0 <= j < |w.log| && ProbeSaw(w.log[j], w.sent[k], code);
      assert ProbeSaw(w'.log[j], w'.sent[k], code);
    }
    forall a | Reported(w, a) ensures Reported(w', a) {
      var j :| 0 <= j < |w.log| && AckOf(w.log[j], a);
      assert AckOf(w'.log[j], a);
    }
  }

  lemma LogGrows(s: Session, w: World, w': World, t: Transaction)
    requires MethodsApart(s) && SentInvariant(s, w) && LogInvariant(w)
    requires w'.sent == w.sent && w'.log == w.log + [t] && w'.machine == t.after
    requires t.request in w.sent && TransactionFacts(t) && t.before == w.machine
    ensures LogInvariant(w')
  {
    forall j | 0 <= j < |w'.log|
      ensures w'.log[j].request in w'.sent && TransactionFacts(w'.log[j])
              && StillInstalled(w'.log[j], w'.machine.memory)
    {
      if j < |w.log| {
        assert w.log[j].request in w.sent && TransactionFacts(w.log[j]) && StillInstalled(w.log[j], w.machine.memory);
        TransactionLeaves(s, w, w.log[j], t);
      }
    }
  }

  lemma RendererStays(s: Session, w: World, w': World, t: Transaction)
    requires SentInvariant(s, w) && RendererInvariant(s, w)
    requires w'.sent == w.sent && w'.log == w.log + [t] && w'.renderer == w.renderer && w'.original == w.original
    ensures SentInvariant(s, w') && RendererInvariant(s, w')
  {
    RecordsStay(w, w', t);
    if w.renderer.Installed? {
      var j :| 0 <= j < |w.log| && w.log[j].request == w.renderer.request && w.log[j].outcome.status == Success;
      assert w'.log[j].request == w'.renderer.request && w'.log[j].outcome.status == Success;
    }
  }

  lemma TransactingKeeps(s: Session, w: World, w': World)
    requires MethodsApart(s) && Invariant(s, w) && Transacts(s, w, w')
    ensures Invariant(s, w')
  {
    var t := w'.log[|w.log|];
    EffectGivesFacts(s, t);
    RendererStays(s, w, w', t);
    RecordsStay(w, w', t);
    assert AckOf(w'.log[|w.log|], w'.controller.ack);
    LogGrows(s, w, w', t);
    JumpNeedsOriginal(s, w, t);
  }

  lemma StepKeeps(s: Session, w: World, w': World)
    requires MethodsApart(s) && Invariant(s, w) && Step(s, w, w')
    ensures Invariant(s, w')
  {
    if SaveOriginal(s, w, w') {
      SavingKeeps(s, w, w');
    } else if BeginWrite(s, w, w') {
      PublishingKeeps(s, w, w');
    } else if ReceiveAck(s, w, w') {
      ReceivingKeeps(s, w, w');
    } else if Transacts(s, w, w') {
      TransactingKeeps(s, w, w');
    } else if TargetRuns(s, w, w') {
      RunningKeeps(s, w, w');
    } else {
      QuietStepsKeep(s, w, w');
    }
  }

  lemma {:induction false} ExecutionKeeps(s: Session, run: seq<World>, n: nat)
    requires Execution(s, run) && n < |run|
    ensures Invariant(s, run[n])
  {
    if n == 0 {
      InitEstablishes(s, run[0]);
    } else {
      ExecutionKeeps(s, run, n - 1);
      assert Step(s, run[n - 1], run[n - 1 + 1]);
      StepKeeps(s, run[n - 1], run[n]);
    }
  }

  // ---------- The two safety theorems ----------

  /**
   If the renderer concludes success for a request it published, one transaction of exactly that
   request found the bytes its probe had returned, replaced them by the desired ones, detached
   and restored its auth id; and the method still holds the desired bytes.
   */
  lemma ConcludedSuccessIsReal(s: Session, run: seq<World>, n: nat) returns (t: Transaction, probe: Transaction)
    requires Execution(s, run) && n < |run| && run[n].renderer.Installed?
    ensures t in run[n].log && t.request == run[n].renderer.request && InstalledBy(t)
    ensures probe in run[n].log && IsProbe(probe.request)
    ensures !probe.after.attached && probe.after.auth == probe.before.auth
    ensures probe.request.methodAddress == t.request.methodAddress
    ensures CodeAt(probe.before.memory, probe.request) == CodeAt(t.before.memory, t.request)
    ensures CodeAt(run[n].machine.memory, t.request) == t.request.desired
  {
    ExecutionKeeps(s, run, n);
    var w := run[n];
    var i := w.renderer.next;
    var j :| 0 <= j < |w.log| && w.log[j].request == w.renderer.request && w.log[j].outcome.status == Success;
    t := w.log[j];
    assert TransactionFacts(t) && StillInstalled(t, w.machine.memory);
    assert RequestFacts(s, i, w.sent[i]);
    assert i == 1 || i == 3;
    assert RequestFacts(s, i - 1, w.sent[i - 1]);
    var k :| 0 <= k < |w.log| && ProbeSaw(w.log[k], w.sent[i - 1], w.sent[i].expected);
    probe := w.log[k];
  }

  /** Whenever the update method jumps to the hook, the target the hook forwards to is saved. */
  lemma HookAlwaysHasOriginal(s: Session, run: seq<World>, n: nat)
    requires Execution(s, run) && n < |run| && JumpsToHook(s, run[n].machine.memory)
    ensures run[n].original.Some?
    ensures |run[n].sent| == 4 ==> run[n].original.value == run[n].sent[3].originalCall
  {
    ExecutionKeeps(s, run, n);
  }
}
