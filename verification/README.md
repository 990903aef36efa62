# Verified model of Common FPS for PS5

Common FPS shows a frame rate on the PS5 by three cooperating parts: a controller that measures a game from
outside it, a renderer inside ShellUI that draws two text widgets, and a small protocol by which the
controller patches sixteen bytes of ShellUI code while that process is stopped. This project models the parts
where mistakes would be expensive or hard to see, as imperative Dafny where the program works step by step,
and proves what they are for.

Files follow the program's structure:

- `common.dfy`: machine words, little-endian encoding, target memory.
- `kernel.dfy`, `mdbg_io.dfy`, `guard_write.dfy`, `hook_protocol.dfy`, `hook_controller.dfy`: the
  stopped-process transaction, from the failing kernel up to one poll of the controller.
- `straight_line.dfy`, `length_decoder.dfy`, `instruction_grammar.dfy`: instruction boundaries, patch length,
  trampoline, and the instructions the decoder measures, put together from their parts.
- `hook_session.dfy`, `session_progress.dfy`: renderer and controller over their two files, in every
  interleaving; and what they reach when nothing fails.
- `video_out.dfy`, `counter_discovery.dfy`, `dce_sampler.dfy`, `display_filter.dfy`, `worker.dfy`: finding a
  frame counter, turning it into numbers, choosing a source, and deciding what is shown.
- `dmap_reader.dfy`: reading another process through the kernel's direct map.
- `overlay_widgets.dfy`: selective updating of the two widgets and their garbage-collector handles.
- `numerals.dfy`, `config_text.dfy`, `settings_form.dfy`, `settings_store.dfy`: the settings, from posted form to disk and back.

## Assumptions

- Kernel primitives may fail at any time. A read or a write that reports success is truthful. A failing write
  may have changed any of the bytes it was given, and nothing else. The result of a protection change is never
  believed: only a query is. Nobody else writes to a stopped process.
- Every primitive of the kernel, the disk, the protocol files and the managed runtime counts its own failures
  in a ghost counter, so that contracts can say when an operation must succeed. An operation that reports
  success without having taken effect counts as a failure.
- A failing `unlink` or acknowledgement write may have had no effect; a request file can be torn while it is
  written.
- In a session the protocol files start out cleared, the hook's address is new to the target, the two patched
  methods do not overlap, and ShellUI does not modify the two methods while it runs.
- A scan of the game's memory sees one snapshot, and so does each of the two later rounds of reads; page tables
  do not change during one read through the direct map. Addresses are read modulo 2^64.
- A setter called directly reports failure only when it was not called; a setter invoked through the managed
  runtime may throw after taking effect. Nobody else restyles or moves the two widgets.
- A write is interrupted finitely often.
- `rename` is atomic, and data that was synced before the rename survives a crash; unsynced data may not. An
  earlier rename has settled before the next save.
- `strtof` reads a plain decimal numeral as its value. Process ids found by the platform are positive.

## Model

| member | source | states |
|---|---|---|
| Common.Word64RoundTrip | include/common_fps/shellui_hook_protocol.hpp:245-246 | a 64-bit address survives being stored in, and loaded from, eight code bytes |
| Common.LowestFirst | include/common_fps/shellui_hook_protocol.hpp:245-246 | the k-th stored byte is the k-th lowest of the value |
| Common.XorAllHalfInjective | src/ps5/shellui_payload/commonfps_shellui.cpp:431-436 | nonces built by exclusive or differ when one address differs beyond its lowest bit, which covers the zero nonce folded to one |
| MdbgIo.TransferChunk | include/common_fps/shellui_code_read.hpp:26-31 | a chunk is believed only when both status codes are zero and it moved at least one and at most the remaining bytes |
| MdbgIo.TransferLoop | include/common_fps/shellui_code_read.hpp:20-35 | zero exactly accounts for the whole size in positive in-range chunks, terminates, and leaves buffer and target equal byte for byte; a read never writes and a write touches only its range |
| MdbgIo.TransferExact | src/ps5/shellui_mdbg_io.cpp:32-77 | a zero result also means auth id and capabilities are as before; a failed read past the checks leaves zeros; invalid arguments change nothing; credentials are never anything but the old or the raised ones; with valid arguments only a failed primitive makes it fail |
| MdbgIo.WriteByte | src/ps5/shellui_mdbg_io.cpp:85-88 | zero means the byte is there and the credentials are back; at most that byte changed in any case |
| GuardWrite.TryWriters | src/ps5/shellui_guard_write.cpp:56-63 | the second writer is used only after EFAULT or EPERM, zero means the byte is written, nothing but that byte changes |
| GuardWrite.Restore | src/ps5/shellui_guard_write.cpp:68-71 | restored is reported only when a query confirmed the original protection |
| GuardWrite.WriteThroughWindow | src/ps5/shellui_guard_write.cpp:48-76 | protection is always the found one, the original, or the original with READ and WRITE; zero needs the restored original |
| GuardWrite.WriteGuardByte | src/ps5/shellui_guard_write.cpp:13-77 | every call, under any failures, is one of the effects `GuardCall` allows: saved protection fixed once, unknown mappings untouched, zero means byte written and protection exactly original; on an executable mapping only a failure that the second writer cannot make up for makes it fail |
| GuardWrite.RunKeepsInvariant | src/ps5/shellui_guard_write.hpp:8-20 | over any sequence of calls sharing one state the saved protection is that of the untouched mapping, protection is it or it with READ and WRITE, and only the one byte can differ |
| GuardWrite.ZeroReturnIsExact | src/ps5/shellui_guard_write.cpp:66-76 | after any history of failures a zero return means the byte is written, all other bytes and the protection are the originals |
| HookProtocol.Checksum | include/common_fps/shellui_hook_protocol.hpp:136-147 | the loop is the 32-bit FNV-1a fold |
| HookProtocol.OneByteIsCaught | include/common_fps/shellui_hook_protocol.hpp:136-147 | changing any one byte changes the checksum, whatever the rest is |
| HookProtocol.CorruptCodeIsCaught | include/common_fps/shellui_hook_protocol.hpp:149-156 | no single byte of the expected or the desired code can change without the request's checksum changing |
| HookProtocol.RoutedAlike | include/common_fps/shellui_hook_protocol.hpp:43-82 | whatever firmware may be hooked or guarded is probed the same way; FW 9.60 alone is probed and never guarded; an unchained prologue is patched only through the debugger |
| HookProtocol.ValidatorsAreDisjoint | include/common_fps/shellui_hook_protocol.hpp:190-268 | a request passes at most one of the three validators, and exactly when it passes the one its kind selects |
| HookProtocol.NarrowedWriteIsWhole | src/ps5/shellui_hook_controller.cpp:223-229 | whenever a request has the shape its patch or guard validator asks for, writing only the narrowed range of the desired bytes over the expected ones yields all of them, and the reverse write undoes it |
| HookProtocol.ProbeAccepted | src/ps5/shellui_payload/commonfps_shellui.cpp:454-468 | a built probe is classified as a probe and accepted if and only if its addresses are in user range |
| HookProtocol.GuardAccepted | src/ps5/shellui_payload/commonfps_shellui.cpp:531-553 | a built guard request is classified as a guard and accepted if and only if the method is in user range and not already disabled |
| HookProtocol.ChainedPatchAccepted | src/ps5/shellui_payload/commonfps_shellui.cpp:1159-1258 | a request that chains an existing jump is accepted if and only if its addresses are in range and distinct |
| HookProtocol.NativePatchAccepted | src/ps5/shellui_payload/commonfps_shellui.cpp:1196-1258 | a request that displaces a native prologue is accepted if and only if its addresses are in range and distinct |
| HookProtocol.HookedCodeTarget | src/ps5/shellui_payload/commonfps_shellui.cpp:1228-1236 | the desired bytes start with an absolute jump whose target is the hook |
| HookController.ReadTarget | include/common_fps/shellui_code_read.hpp:61-89 | zero means the sixteen bytes returned are the target's; any failure yields zeros; reading never writes |
| HookController.WriteTarget | src/ps5/shellui_hook_controller.cpp:196-262 | only the narrowed range can change, whatever fails; on FW 11.60 the write is a guarded call |
| HookController.Install | src/ps5/shellui_hook_controller.cpp:304-317 | a zero write leaves all sixteen desired bytes, a zero read-back shows the true ones, and both are zero unless a primitive failed seriously |
| HookController.InstallOrRollBack | src/ps5/shellui_hook_controller.cpp:304-341 | success means all sixteen bytes are the desired ones, restored means the memory is exactly as it was; on the FW 11.60 guard both also mean the original protection; a failure costs one serious failure of a primitive, an unrestored one at least two |
| HookController.RollBack | src/ps5/shellui_hook_controller.cpp:331-339 | restored is reported only when a read-back shows all sixteen expected bytes; on the FW 11.60 guard the protection is then the saved one |
| HookController.TransactStopped | src/ps5/shellui_hook_controller.cpp:281-343 | a mismatch wrote nothing; a probe changes nothing and reports the true bytes; nothing outside the narrowed range changes |
| HookController.TransactPrivileged | src/ps5/shellui_hook_controller.cpp:273-357 | success of a patch or guard also means detached and auth id restored; the downgraded statuses mean the patch is in place; without a serious failure the target is detached, the auth id is back and what can succeed does |
| HookController.Transact | src/ps5/shellui_hook_controller.cpp:127-357 | every accepted or refused request ends in an effect that `TransactionEffect` allows, under arbitrary failures; a valid request on a supported firmware succeeds unless a primitive failed seriously, and stays unrestored only after two such failures |
| HookController.Poll | src/ps5/shellui_hook_controller.cpp:111-363 | a torn or missing request changes nothing; otherwise one transaction of exactly the consumed request is run, with success under the same condition, and acknowledged, or the old acknowledgement stays because a file operation failed |
| HookController.ReportedStateIsReal | src/ps5/shellui_hook_controller.cpp:314-341 | a report of success, of a restored failure, or of a refusal determines the whole target memory |
| HookController.InstalledIsStable | src/ps5/shellui_hook_controller.cpp:298-303 | repeating a request that is already installed changes nothing and does not succeed |
| HookController.UndisturbedSucceeds | src/ps5/shellui_hook_controller.cpp:281-357 | without a serious failure a patch or guard whose expected bytes stand in the target succeeds: all sixteen bytes are the desired ones, nothing else changed, detached, auth id back |
| HookController.UndisturbedProbe | src/ps5/shellui_hook_controller.cpp:281-297 | without a serious failure a probe reports the true bytes, changes nothing, and leaves the target detached |
| StraightLine.NextBoundary | src/ps5/shellui_payload/commonfps_shellui.cpp:369-383 | under any self-delimiting decoder, decoding at one boundary gives the next one or shows there is none |
| StraightLine.RunsStraight | src/ps5/shellui_payload/commonfps_shellui.cpp:213-220 | whole position-independent instructions run to the same state wherever their copy stands |
| StraightLine.HookIsReached | src/ps5/shellui_payload/commonfps_shellui.cpp:1228-1236 | the patched method reaches the hook before any of its own instructions |
| StraightLine.TrampolineStandsIn | src/ps5/shellui_payload/commonfps_shellui.cpp:202-226 | running the trampoline reaches the state and next address that the unpatched method reaches after the displaced instructions |
| LengthDecoder.DecodeRelocatable | src/ps5/shellui_payload/commonfps_shellui.cpp:228-367 | the cursor loop computes the length that the grammar of prefixes, opcode forms and ModRM operands gives |
| LengthDecoder.DecodeOperands | src/ps5/shellui_payload/commonfps_shellui.cpp:325-367 | the cursor steps over ModRM, SIB, displacement and immediate exactly as far as the grammar says and never past the available bytes |
| InstructionGrammar.DecodesEveryInstruction | src/ps5/shellui_payload/commonfps_shellui.cpp:228-367 | every well-formed instruction, encoded from prefixes, opcode, ModRM, SIB byte, displacement and immediate, has exactly its own number of bytes as its length, whatever follows it |
| InstructionGrammar.LengthIsOfInstruction | src/ps5/shellui_payload/commonfps_shellui.cpp:228-367 | whatever has a length starts with the encoding of a well-formed instruction of that length |
| InstructionGrammar.LengthIff | src/ps5/shellui_payload/commonfps_shellui.cpp:228-367 | code has the length n if and only if a well-formed instruction of n bytes starts it |
| LengthDecoder.SelfDelimiting | src/ps5/shellui_payload/commonfps_shellui.cpp:228-367 | a positive length depends only on the bytes it counts and is the same for every larger available size |
| LengthDecoder.DecoderRefusesJumps | src/ps5/shellui_payload/commonfps_shellui.cpp:189-200 | an absolute jump is never taken for a relocatable instruction |
| LengthDecoder.NativePatchLength | src/ps5/shellui_payload/commonfps_shellui.cpp:369-383 | the result is the least whole-instruction boundary in 14..16, and zero exactly when there is none |
| LengthDecoder.PrepareTrampoline | src/ps5/shellui_payload/commonfps_shellui.cpp:202-226 | fails without a change exactly when the code and the jump do not fit; else the buffer holds the instructions, then the jump, then what it held |
| LengthDecoder.NativeDetour | src/ps5/shellui_payload/commonfps_shellui.cpp:1196-1236 | for any instruction semantics the detour through hook and trampoline is transparent |
| HookSession.StepKeeps | src/ps5/shellui_payload/commonfps_shellui.cpp:412-649 | every step of renderer, controller and running target keeps the protocol invariant |
| HookSession.ExecutionKeeps | src/ps5/shellui_hook_controller.cpp:111-363 | the invariant holds after every finite run, in every interleaving |
| HookSession.ProbeNoncesDiffer | src/ps5/shellui_payload/commonfps_shellui.cpp:431-436 | the two probes of a session never share a nonce |
| HookSession.AckAnswersRequest | src/ps5/shellui_payload/commonfps_shellui.cpp:504-523 | an acknowledgement with the awaited nonce and phase answers the awaited request and no stale one |
| HookSession.ConcludedSuccessIsReal | src/ps5/shellui_payload/commonfps_shellui.cpp:624-649 | when the renderer concludes success, one transaction of exactly its request replaced the bytes its probe had returned by the desired ones, had detached and restored the auth id, as its probe had, and the method still holds them |
| HookSession.HookAlwaysHasOriginal | src/ps5/shellui_payload/commonfps_shellui.cpp:1238-1258 | whenever the method jumps to the hook, the original target is already saved, and it is the one of the request |
| SessionProgress.UndisturbedProbeGoesOn | src/ps5/shellui_payload/commonfps_shellui.cpp:470-502 | after a probe without a serious failure the renderer goes on with the true bytes, or stops because the diagnostics method is disabled already |
| SessionProgress.UndisturbedWriteIsConcluded | src/ps5/shellui_payload/commonfps_shellui.cpp:624-649 | after a guard or patch without a serious failure the renderer concludes success, and the bytes are there |
| SessionProgress.GuardIsReachable | src/ps5/shellui_payload/commonfps_shellui.cpp:531-622 | where guards are supported a fresh session can end with the diagnostics method disabled and nothing else changed |
| SessionProgress.HookIsReachable | src/ps5/shellui_payload/commonfps_shellui.cpp:1159-1258 | on FW 9.60 a fresh session can end with the jump of the update method going to the hook and its old target saved |
| VideoOutSampler.TenthsRoundExactly | src/core/fps_sampler.cpp:489-531 | truncating to tenths and rounding once is rounding the exact rate half up; the tenths limit is a rate of 130.1 |
| VideoOutSampler.MeasureWindow | src/core/fps_sampler.cpp:499-533 | the 64-bit computation does not overflow and gives the exact rounded rate capped at 120, from at most 390 frames |
| VideoOutSampler.MeasuredMeans | src/core/fps_sampler.cpp:507-533 | in whole numbers: frames over time rounded half up, capped at 120, below 130.1 frames per second |
| VideoOutSampler.DeltasTelescope | src/core/fps_sampler.cpp:485-505 | the deltas of consecutive windows sum to the difference of the end readings, modulo 2^32, across any number of wraps |
| VideoOutSampler.TotalIsFrameCount | src/core/fps_sampler.cpp:485-487 | where each window counts fewer than 2^32 frames, the deltas sum to the true number of frames |
| VideoOutSampler.FpsSampler.Attach | src/core/fps_sampler.cpp:50-83 | after a failed discovery the same process is refused for ten seconds without a change; success binds the process asked for |
| VideoOutSampler.FpsSampler.Reset | src/core/fps_sampler.cpp:85-93 | detaches, and forgets the baseline and every window |
| VideoOutSampler.FpsSampler.Sample | src/core/fps_sampler.cpp:447-534 | a number appears if and only if a complete window below the limit closes after an earlier window of the same unbroken run; it is that window's exact rate; a clock jump starts a new run |
| CounterDiscovery.EveryOffsetIsExamined | src/core/fps_sampler.cpp:260-277 | every aligned offset from 0x10000 to 0x200000, both ends included, is looked at in every window that holds it |
| CounterDiscovery.LooksStayInside | src/core/fps_sampler.cpp:272-287 | no field is read past the window buffer |
| CounterDiscovery.CountersAreDistinct | src/core/fps_sampler.cpp:231-234 | no two candidates share a counter |
| CounterDiscovery.ScanIsAccurate | src/core/fps_sampler.cpp:217-314 | the candidates are, in scan order, the first chain to each of the first 256 counters; a counter is missing exactly when the truncated flag is set |
| CounterDiscovery.AddCandidate | src/core/fps_sampler.cpp:219-258 | a plausible root joins the candidates once, when its counter is new, readable and there is room |
| CounterDiscovery.Look | src/core/fps_sampler.cpp:277-312 | one look applies exactly the chain that memory holds at that record under that layout |
| CounterDiscovery.ChainsAtOffset | src/core/fps_sampler.cpp:279-312 | the four layouts: flag at +0 or +4, pointer at +8 or +16, a root and a readable counter 0x768 past it, all pointers plausible |
| CounterDiscovery.Scan | src/core/fps_sampler.cpp:260-314 | the nested loops fold the looks in order, skipping unreadable windows whole |
| CounterDiscovery.Remeasure | src/core/fps_sampler.cpp:332-350 | after both waits each candidate carries the score of its own three readings |
| CounterDiscovery.ScoreMeans | src/core/fps_sampler.cpp:352-400 | a score exists exactly when both advances are 1 to 45 and differ by at most 4; it ranks by their difference first and by the distance to 30, 60 or 120 frames per second next |
| CounterDiscovery.Select | src/core/fps_sampler.cpp:352-417 | the first candidate of least score among those that pass both delta windows, or none when none passes |
| CounterDiscovery.BestOfModule | src/core/fps_sampler.cpp:357-417 | when nothing was truncated, no chain of the whole module scores less than the selected one, nor as little and earlier |
| CounterDiscovery.NoneOfModule | src/core/fps_sampler.cpp:419-425 | when nothing was truncated and none is selected, no chain of the module qualifies |
| CounterDiscovery.ConclusionIsRight | src/core/fps_sampler.cpp:352-425 | from the three readings alone: a found counter advanced by 1 to 45 over each wait, by nearly the same; untruncated, no other chain that did beats it, and none is missed |
| CounterDiscovery.ReadFixedTable | src/core/fps_sampler.cpp:117-164 | on FW 9.60 alone, the first of seven entries whose flag, pointer and root are usable |
| CounterDiscovery.FixedEntryMeans | src/core/fps_sampler.cpp:131-160 | an entry is 24 bytes from 0x34980 on: a flag, a pointer at +8 to a root, the counter 0x768 past it |
| CounterDiscovery.ScanAndSelect | src/core/fps_sampler.cpp:177-444 | a found counter belongs to a real chain and moved like frames over both waits; untruncated, no qualifying chain has less jitter, nor as much and a rate nearer to a display rate |
| CounterDiscovery.Resolve | src/core/fps_sampler.cpp:107-445 | the fixed table decides when it has an entry, the scan with the same guarantee otherwise |
| DceSampler.StreakIsSteadyRun | src/core/dce_counter_sampler.cpp:90-98 | a word's streak is at least n exactly when its last n discovery passes were valid and each within 12 of the one before |
| DceSampler.DceCounterSampler.ObserveAll | src/core/dce_counter_sampler.cpp:77-106 | one pass advances all twelve streaks and finds the longest of two or more, lowest index on ties |
| DceSampler.DceCounterSampler.Measure | src/core/dce_counter_sampler.cpp:38-112 | the fixed word wins, then the selected word until its third invalid window, then a discovery pass decides |
| DceSampler.DceCounterSampler.Sample | src/core/dce_counter_sampler.cpp:7-121 | in every run the selection stays in -1..11, the invalid count below 3 and numbers in 1..120; the streak arrays are those of all passes since the last reset; every window starts from the words of the one before |
| DceSampler.RateOfMeans | src/core/dce_counter_sampler.cpp:39-47 | in whole numbers: a word has a rate exactly when it grew by 1 to 130 per second, and it is that rate rounded half up, 120 at most |
| DceSampler.PickedWordIsSteady | src/core/dce_counter_sampler.cpp:100-112 | a word picked by discovery was valid and steady in its last two passes, no word was steady longer, and no earlier word as long |
| DceSampler.NothingPicked | src/core/dce_counter_sampler.cpp:109-112 | no word is picked only when none was steady over the last two passes |
| DisplayFilter.FpsDisplayFilter.TakeSample | include/common_fps/fps_display_filter.hpp:16-70 | the three ring buffers and their counters show exactly what the whole sample history of the epoch determines |
| DisplayFilter.FpsDisplayFilter.Advance | include/common_fps/fps_display_filter.hpp:35-69 | one sample takes the rings from representing a history to representing its extension |
| DisplayFilter.ShownIsOwnMeasurement | include/common_fps/fps_display_filter.hpp:18-45 | every number shown is a raw measurement of the current process and source, taken since an epoch began at least five seconds ago |
| DisplayFilter.RiseIsSustained | include/common_fps/fps_display_filter.hpp:46-62 | a shown rise beyond the threshold needs at least three consecutive samples at distinct times over two seconds, all above it, and shows the median of the last three |
| DisplayFilter.BelowThresholdIsImmediate | include/common_fps/fps_display_filter.hpp:63-67 | a value at or below the threshold is shown at once |
| DisplayFilter.SmallRiseIsImmediate | include/common_fps/fps_display_filter.hpp:46-67 | a value no more than 8, or no more than a fifth, above one of the last three accepted values is shown at once |
| DisplayFilter.LeapWaits | include/common_fps/fps_display_filter.hpp:46-62 | a value beyond both bounds of all three, which does not complete three such samples over two seconds, leaves what is shown |
| DisplayFilter.LeapConfirms | include/common_fps/fps_display_filter.hpp:52-61 | one that completes them shows the middle of the last three |
| DisplayFilter.StartupEnds | include/common_fps/fps_display_filter.hpp:37-45 | the first number appears exactly when three samples and five seconds are over, and is the middle of the last three |
| DisplayFilter.ConvergesToConstant | include/common_fps/fps_display_filter.hpp:46-69 | from any showing state a constant rate is shown once four samples of it have come and the last is two seconds past the second, and it stays |
| DisplayFilter.SteadyRateIsShown | include/common_fps/fps_display_filter.hpp:16-69 | the same from the filter's own inputs: whatever came before, a steady rate is on display after at least four samples and two seconds |
| Worker.GatesCount | src/ps5/commonfps_ps5_main.cpp:369-428 | counting observations decides both gates: ten rounds of one ShellUI process and three of one game |
| Worker.Loop.ObserveShellUi | src/ps5/commonfps_ps5_main.cpp:368-383 | a new ShellUI process restarts the gate and clears what is shown |
| Worker.Loop.ObserveGame | src/ps5/commonfps_ps5_main.cpp:394-428 | a change of game detaches the sampler and ends standby |
| Worker.Loop.SampleVideoOut | src/ps5/commonfps_ps5_main.cpp:430-444 | an attached sampler gives exactly the rate of the window that closes after an earlier one; discovery is tried only where standby allows it, succeeds when the counter is found and no retry is pending, and a failure puts it off |
| Worker.Loop.MeasureRound | src/ps5/commonfps_ps5_main.cpp:430-461 | the round's number is VideoOut's when it gives one, else the display engine's once the game gate is open, else none |
| Worker.Loop.Arbitrate | src/ps5/commonfps_ps5_main.cpp:457-539 | VideoOut wins over the display engine; standby is entered, kept and left as its rule says |
| Worker.Loop.Round | src/ps5/commonfps_ps5_main.cpp:367-560 | in every run: the renderer is tried only after ten consecutive ShellUI and three game observations; in standby no discovery for 60 s after the last failed one or the entry; the number recorded is exactly VideoOut's for the current game, else the display engine's; the filter is fed that number and nothing else; every number sent was measured in a round of the current game, from the current source, with no other observed since |
| Worker.StandbyNeedsNumbers | src/ps5/commonfps_ps5_main.cpp:521-539 | active standby has had a number in the last three rounds |
| Worker.Loop.ShownIsOwn | src/ps5/commonfps_ps5_main.cpp:547-549 | the filter's number goes back to a round of the game now observed |
| DmapReader.FindProc | src/ps5/stable_sampler/proc_rw_v960.cpp:58-85 | the first entry on the process list with the pid, within 1024 links, or none |
| DmapReader.FoundIff | src/ps5/stable_sampler/proc_rw_v960.cpp:58-85 | an entry is found if and only if links from the head lead to it, within the limit, past none of the same process |
| DmapReader.TranslationIsAffine | src/ps5/stable_sampler/proc_rw_v960.cpp:167-216 | within a page of any size translation moves all addresses together |
| DmapReader.TranslationIsMapping | src/ps5/stable_sampler/proc_rw_v960.cpp:167-216 | an address is translated to a page if and only if the tables map it there: entries made of frame, flags and attributes, indexed by the four parts of the address, bit 7 marking pages of 1 GB and 2 MB |
| DmapReader.TranslationWraps | src/ps5/stable_sampler/proc_rw_v960.cpp:167-170 | addresses that differ by 2^64 are translated alike |
| DmapReader.DmapReader.ChooseDmap | src/ps5/stable_sampler/proc_rw_v960.cpp:87-105 | the base is chosen once, is never zero afterwards and never changes |
| DmapReader.DmapReader.Translate | src/ps5/stable_sampler/proc_rw_v960.cpp:135-217 | the walk through pmap and tables gives the page that four-level translation names, or zeros |
| DmapReader.ChunkIsBytewise | src/ps5/stable_sampler/proc_rw_v960.cpp:239-246 | a chunk copied from one page holds, byte for byte, what translating each address alone reads |
| DmapReader.DmapReader.ReadChunk | src/ps5/stable_sampler/proc_rw_v960.cpp:233-246 | each round copies up to the end of the page and leaves earlier output alone, or names why it could not |
| DmapReader.DmapReader.ProcRead | src/ps5/stable_sampler/proc_rw_v960.cpp:219-254 | on every mix of page sizes success means each output byte is the byte at the direct map plus the translation of its own address; failure says where it stopped; the loop terminates |
| OverlayWidgets.Overlay.ReplaceHandle | src/ps5/shellui_payload/commonfps_shellui.cpp:706-726 | a failed replacement keeps the old handle and leaks none; with an object it fails only when the runtime does |
| OverlayWidgets.Overlay.RefreshScene | src/ps5/shellui_payload/commonfps_shellui.cpp:758-786 | a new scene keeps neither widgets nor root nor applied style of the old one |
| OverlayWidgets.Overlay.RefreshRoot | src/ps5/shellui_payload/commonfps_shellui.cpp:995-1003 | widgets never outlive the root they belong to |
| OverlayWidgets.Overlay.EnsureWidget | src/ps5/shellui_payload/commonfps_shellui.cpp:1035-1055 | a missing widget is built whole and held, an existing one is held unchanged, a failure changes no widget and no handle |
| OverlayWidgets.Overlay.UpdateWidget | src/ps5/shellui_payload/commonfps_shellui.cpp:1057-1078 | success sets exactly the chosen properties; failure touches nothing but that widget's style |
| OverlayWidgets.Overlay.SelectiveIsEnough | src/ps5/shellui_payload/commonfps_shellui.cpp:1014-1020 | on widgets that carry the applied style, setting what changed is setting everything |
| OverlayWidgets.Overlay.UpdateHeld | src/ps5/shellui_payload/commonfps_shellui.cpp:1057-1087 | the applied style is remembered only after both widgets carry it, and forgotten on any failure |
| OverlayWidgets.Overlay.Apply | src/ps5/shellui_payload/commonfps_shellui.cpp:986-1092 | over any history of failures and replaced scenes, success leaves both widgets, under the current scene and root, with the font, colour, text and position of a build from scratch; it fails only when the packet, the scene, the root or the runtime does; on every return the live handles are exactly those of the four globals |
| OverlayWidgets.Overlay.ShownIsReadable | src/ps5/shellui_payload/commonfps_shellui.cpp:1020-1056 | what is shown reads as the number of the packet, one label advance right of the label and level with it, each in its colour |
| Numerals.SignedSays | src/ps5/shellui_payload/commonfps_shellui.cpp:1034-1036 | a printed number reads back as itself, sign included, without leading zeros |
| ConfigText.HexRoundTrip | src/core/config.cpp:113-115 | a colour printed in six upper-case digits reads back as itself |
| ConfigText.HexCaseReadsAlike | src/core/config.cpp:58-63 | digits in lower and upper case are accepted alike and give the same value |
| ConfigText.ParseConfigText | src/core/config.cpp:65-103 | the loops compute the line-by-line meaning of the text, sanitized |
| ConfigText.TrimText | src/core/config.cpp:20-26 | both loops cut exactly the white space at the ends |
| ConfigText.EntryIsRead | src/core/config.cpp:70-82 | a printed entry is read as one assignment, whatever follows it |
| ConfigText.PaddedEntryIsRead | src/core/config.cpp:70-82 | white space around key, equals sign and value, a carriage return included, does not matter |
| ConfigText.ShownIsApplied | src/core/config.cpp:92-94 | 1 and true show the label, 0 and false hide it, anything else leaves it |
| ConfigText.Sanitize | src/core/overlay_config.cpp:8-19 | every configuration becomes a sane one, a sane one stays, and a number out of range becomes the nearest in range |
| ConfigText.ParseAfterSerialize | src/core/config.cpp:105-117 | printing any sane configuration and parsing it gives it back |
| ConfigText.SerializeIsShort | include/common_fps/settings.hpp:13 | a printed configuration is far below the size limit of the loader |
| SettingsForm.UnescapeText | src/core/settings.cpp:47-61 | the loop decodes escapes and plus signs, and refuses truncated escapes and anything not printable |
| SettingsForm.UnescapeAfterEscape | src/core/settings.cpp:47-61 | every printable text, percent-encoded as section 2.1 of RFC 3986 says with plus for space, decodes to itself |
| SettingsForm.Integer | src/core/settings.cpp:63-73 | one to three digits give their value when it lies in range, anything else nothing |
| SettingsForm.CollectFields | src/core/settings.cpp:118-131 | the loop collects the parts between ampersands, and refuses a malformed part, a repeated key and an empty tail |
| SettingsForm.RepresentedIsCollected | src/core/settings.cpp:118-131 | parts whose fields are exactly those of a map, one each, are collected to that map |
| SettingsForm.CollectedRepresents | src/core/settings.cpp:118-131 | the collected map holds exactly the fields of the parts, one each |
| SettingsForm.FormIgnoresOrder | src/core/settings.cpp:116-159 | acceptance and result are the same for every permutation of the fields |
| SettingsForm.ParseSettingsForm | src/core/settings.cpp:116-159 | the early returns compute the meaning of the collected fields |
| SettingsForm.AcceptedIsSane | src/core/settings.cpp:132-158 | an accepted form needs no sanitizing |
| SettingsForm.FieldsAreRead | src/core/settings.cpp:132-158 | the seven fields of any sane configuration are accepted and give it back |
| SettingsForm.PostedIsRead | src/core/settings.cpp:116-131 | fields encoded and posted in any order are read as those fields |
| SettingsStore.Disk.WriteAll | src/core/settings.cpp:25-32 | the offset counts exactly what the pending file holds, through short and interrupted writes, and stops short only when a write fails |
| SettingsStore.Disk.AtomicWrite | src/core/settings.cpp:18-38 | all or nothing, and all exactly when no operation failed; a crash between any two steps leaves the old contents or the new |
| SettingsStore.Store.constructor | src/core/settings.cpp:88-96 | a file that is missing, unreadable or too long gives the defaults |
| SettingsStore.Store.Save | src/core/settings.cpp:107-114 | memory and file change together, exactly when no disk operation failed; a crash at any moment loads back as the old configuration or the new |
| SettingsStore.FormSurvivesSaving | src/core/settings.cpp:107-159 | every accepted form body gives a configuration that save then reload returns unchanged |
| SettingsStore.Post | src/core/settings.cpp:148-155 | a posted form is in memory and on disk as it was read exactly when it is accepted and no disk operation failed; else nothing has changed |

## Left out

- FW 9.00 guard writes: only their byte-level claims are kept; no claim is made about the protection the page ends with, because the code reports a restored patch even when resetting the protection failed.
- HookController.TransactPrivileged: claims nothing about detaching for a probe, because the controller does not downgrade one; the renderer checks those flags itself.
- HookSession.ConcludedSuccessIsReal: one direction only, because a request whose wait timed out may still be applied.
- HookProtocol.Checksum: collisions of texts that differ in several bytes are not excluded; a torn request is one the exact-size read refuses.
- LengthDecoder.DecodeRelocatable: claims are about the instructions the decoder admits, not the whole processor manual; odd prefix orders such as REX before an operand-size prefix are not decoded as hardware does.
- StraightLine.TrampolineStandsIn: instructions act on the machine state without reading their own address, which is what the decoder is there to ensure.
- SessionProgress.HookIsReachable: that a session can end well is stated for the guard and for the chained jump; a native prologue is covered by the safety results and by LengthDecoder.NativeDetour.
- HookSession.ExecutionKeeps: one renderer per session; a controller transaction is one step because ShellUI and the renderer in it are stopped throughout.
- Worker.Loop.Round: the display-engine sampler is an input of the loop, so its windows are not tied to the game switch; the first-number log records, the frame sequence and the overlay packet are not modelled.
- DceSampler.DceCounterSampler.Sample: rates are exact quotients of reals, not doubles, and a streak does not wrap at 2^32 passes.
- VideoOutSampler.FpsSampler.Sample: process liveness, memory reads and the clock are inputs of each call.
- CounterDiscovery.Scan: memory is one snapshot per round of reads; the match counters kept only for logging are left out.
- DmapReader.DmapReader.ProcRead: page tables and kernel memory are fixed during one read.
- OverlayWidgets.Overlay.Apply: layout is an unspecified function of configuration and loading flag, positions are reals without NaN, the order among independent setters is not kept, and the managed collector is present only as handles.
- ConfigText.ParseConfigText: margins are whole numbers, as the form admits; what `strtof` makes of other texts is a parameter.
- SettingsStore.Store.Save: the mutex is not modelled; calls are one at a time.
- Backend names, stages and other log output.
- Wire packing, sockets, the layout computation and the anchor.
- HTTP framing of the settings page, the media launcher, the build and verification tools.
- The ELF loader and the remote bootstrap: `elfldr.c` is not part of this model.
- `AutoloadGuard`, `SceneGuard` and `Lifecycle`: small machines that are not linked into the PS5 controller.
