# Macro keyboard verification model

A Dafny model of the ESP32 macro keyboard firmware's cores, with proofs of what each
of them promises. `dafny verify dfyconfig.toml` checks everything.

The firmware keeps its logic in cores that reach the outside world only through tables
of operations. Here such a table becomes an arbitrary environment: every operation may
give any result it could give, so each contract speaks about all of them.

## What is modelled

* **Macros.** `MacroKeymap`, `MacroCompiler` and `MacroParser` are the layout, the
  compiler as functions, and its loops and buffers proved against them.
  `MacroComposition` and `MacroPrinter` hold the laws of the language: concatenation,
  token spans, a printer that compiling undoes, and the exact image of the compiler.
* **Execution.** `ExecutorEngine` is the worker's run of one request as the class it is
  in the firmware, with cancellations and confirmations arriving at any point.
  `ExecutorProtocol` is the same engine shared by any number of callers, as a machine
  of locked sections and operation calls, and `ExecutorRefinement` says that the calls of
  other tasks are runs of that machine. `UsbKeyboard` is the layer below, and
  `EndToEnd` joins source text, plan, run and the reports a host sees.
* **Blobs.** `BlobNames`, `BlobFiles`, `BlobScan` and `BlobStore` are the staged upload,
  the counter, deletion, the startup recovery and the scan over a file system with power
  cuts; `BlobRuns` is what callers of the store can rely on. `StorageAtomic` is the atomic
  replacement of one file.
* **Factory reset.** `FactoryReset` is the live reset, the durable marker and the boot
  recovery together.
* **Authentication.** `RateLimit` and `Sessions` are the two tables, each refining a
  plain history.
* **Settings.** `Utf8`, `RecordLayout`, `SettingsCodec` and `SettingsBuffers` are the
  record, `SettingsCache` the cached value and its storage.
* **CRC-32.** `Crc32` is the table form against the bitwise form.
* **Creation journal.** `BlobJournal` is the hardware test collector's write-ahead journal.

## How failures and power cuts are modelled

Nondeterministic choice stands for every result of an operation. In the storage models
each operation may also lose the power; from then on no operation has an effect until the
restart. What a command leaves behind when it ends therefore covers every point at which
it could have been cut off. A cut brings back one of the directory states since the last
directory synchronisation, and arbitrary bytes for files that were not synchronised.
A constant `reliable` of the classes says that the environment is one in which operations do
not fail; what must then succeed is part of the contracts ("when nothing fails" below), and
nothing else depends on it.

Facts found on the way:

* The compiler is not compositional in one case: a group directly followed by a closing
  bracket (`MacroComposition.Compositional` gives the exact condition).
* A failed write that wrote a part leaves it in the file uncounted. Callers that abort then
  never see a partial or spoilt blob (`BlobRuns.RunFromStart`); a caller that writes on and
  commits gets a success and a blob that is too long (`BlobRuns.CommitSpoilt`).
* Replacing a file without required synchronisation may tear it, exactly if the file was not
  synchronised (`StorageAtomic.FileSystem.AtomicWrite`, `TornWrite`).
* A blob with the largest 64-bit id would stop every scan, and with it mounting, deleting
  all blobs and the reset recovery (`BlobStore.LastIdStopsScan`); the store never creates
  one (`BlobRuns.RunFromStart`).
* A settings record that cannot be decoded stops the reset recovery before it erases
  anything (`FactoryReset.Device.ReliableBoot`).
* A reset synchronises the directory only if it removes something. If an earlier deletion
  is not durable yet and the directory is empty, the reset completes and a power cut brings
  the deleted blob back (`FactoryReset.Device.ResetThenReturn`). On a file system where
  each deletion is durable at once this cannot happen (`FactoryReset.Device.Run`).
* A failed write of the reset marker may still lead to a reset at the next boot
  (`FactoryReset.Device.RefusedThenReset`).
* If the lock fails when the end of a request that awaited confirmation is published, a
  confirmation meant for it may open the gate of the next request
  (`ExecutorProtocol.ConfirmedForAnother`).
* In the last 300 s of the 64-bit clock a fifth failure sets no lockout
  (`RateLimit.Limiter.LoginRecordFailure`).
* The throttle table looks for the least recently used unlocked source to evict, but the
  pruning just before makes all of them equally recent, so the first unlocked slot is taken
  (`RateLimit.Limiter.AllocateEntry`).

## Model

| member | source | states |
|---|---|---|
| `ExecutorProtocol.StepKeepsInv` | firmware/components/macro_executor/macro_executor_engine.c:314-575 | every step of any caller, signal or worker keeps four things: who holds the claimed request, what has happened to each plan and terminal status, what each caller knows, and the confirmation gate |
| `ExecutorProtocol.RunKeepsInv` | firmware/components/macro_executor/macro_executor_engine.c:314-575 | so does every interleaving of any number of steps |
| `ExecutorProtocol.OneRequestAtATime` | firmware/components/macro_executor/macro_executor_engine.c:314-360 | in every reachable state at most one request is outstanding; while no lock has failed, busy is set exactly when one is; if busy is set with none outstanding, a lock has failed and the engine is latched or about to be |
| `ExecutorProtocol.ExactlyOnce` | firmware/components/macro_executor/macro_executor_engine.c:497-575 | no plan is freed twice and no request gets two terminal statuses; an accepted request that is no longer outstanding had its plan freed once and, unless a lock failed, exactly one terminal status; a refused one keeps its plan; the worker never meets a request that fails validation |
| `ExecutorProtocol.EndedAtMostOnce` | firmware/components/macro_executor/macro_executor_engine.c:268-297 | over every run a request is published as ended at most once, by the worker if it was accepted, by its caller if its claim was given up, never by both |
| `ExecutorProtocol.ReturnedMeansAccepted` | firmware/components/macro_executor/macro_executor_engine.c:314-360 | what a submission returned is whether its request ever reached the queue |
| `ExecutorProtocol.NothingPressedUnconfirmed` | firmware/components/macro_executor/macro_executor_engine.c:473-495 | no key of a request that needs confirmation is pressed unless one was recorded in its busy period, and none at all once the request was cancelled, expired or failed while waiting |
| `ExecutorProtocol.ConfirmedOnlyByCall` | firmware/components/macro_executor/macro_executor_engine.c:388-412 | in every run a confirmation is recorded only by a confirm call, while busy and while one is shown as awaited, for the request that last claimed the executor; unless a lock has failed, the request shown is that same one, it was accepted, it asks for confirmation and the worker has it in hand |
| `ExecutorProtocol.ConfirmedForAnother` | firmware/components/macro_executor/macro_executor_engine.c:221-243 | the failing case, from every state in which the end of an unconfirmed request is about to be published: if that publication does not get the lock and a waiting submission claims the executor next, a confirm call opens the gate of the new request while the old one is shown |
| `ExecutorProtocol.AnotherMayFollow` | firmware/components/macro_executor/macro_executor_engine.c:192-219 | such a state is reached from the initial one, for any two requests, without any failure |
| `ExecutorProtocol.LatchRefuses` | firmware/components/macro_executor/macro_executor_engine.c:314-324 | once latched, after any further steps, a submission that starts is refused and changes nothing of the executor |
| `ExecutorRefinement.Submit` | firmware/components/macro_executor/macro_executor_engine.c:314-360 | whatever its operations return and whatever other tasks do meanwhile, a submission of the engine leaves what some run of that caller's steps and of signals in the machine leaves, with the same result and the same queue |
| `ExecutorRefinement.GaveUp` | firmware/components/macro_executor/macro_executor_engine.c:268-297 | every outcome that giving up a claim may have, published or not, freed or latched, cancelled or confirmed meanwhile, is that of a run of the machine |
| `ExecutorRefinement.Confirm` | firmware/components/macro_executor/macro_executor_engine.c:388-412 | a confirm call of the engine is one confirm step of the machine |
| `ExecutorRefinement.Cancel` | firmware/components/macro_executor/macro_executor_engine.c:362-386 | a cancel call is one cancel step |
| `ExecutorEngine.DeadlineTestAgrees` | firmware/components/macro_executor/macro_executor_engine.c:135-137 | the sign test on the wrapping clock equals the comparison of true times whenever the distance fits in 31 bits |
| `ExecutorEngine.DeadlineTestWrong` | firmware/components/macro_executor/macro_executor_engine.c:135-137 | one tick further the test is wrong, for every deadline |
| `ExecutorEngine.Engine.Cancel` | firmware/components/macro_executor/macro_executor_engine.c:362-386 | a cancellation is recorded only while busy; already recorded is a conflict; idle is not found; only a new one notifies the worker |
| `ExecutorEngine.Engine.Confirm` | firmware/components/macro_executor/macro_executor_engine.c:388-412 | a confirmation is recorded only while busy and awaiting one; a second is a conflict; only this call counts as a confirmation of the run |
| `ExecutorEngine.Engine.RecordReleaseFailure` | firmware/components/macro_executor/macro_executor_engine.c:57-72 | the first release failure is kept, in the engine and in the status, and any failure latches the engine for good |
| `ExecutorEngine.Engine.CancellableDelay` | firmware/components/macro_executor/macro_executor_engine.c:157-180 | success means exactly the requested milliseconds were waited for, in slices, whatever interfered |
| `ExecutorEngine.Engine.AwaitConfirmation` | firmware/components/macro_executor/macro_executor_engine.c:192-219 | success means the confirmation flag was seen; the loop ends because each wait moves the clock or uses up a notification; in a quiet environment it succeeds if the confirmation is asked for within 60 s, and times out if not within a slice more |
| `ExecutorEngine.Engine.ExecuteAction` | firmware/components/macro_executor/macro_executor_engine.c:442-465 | any action but a delay is one press directly followed by one release; success means both succeeded and the right time was waited |
| `ExecutorEngine.Engine.FinishExecution` | firmware/components/macro_executor/macro_executor_engine.c:221-243 | the last call is a release; the terminal status carries the outcome and the first release failure; success means it is published and the flags are cleared |
| `ExecutorEngine.Engine.RunAction` | firmware/components/macro_executor/macro_executor_engine.c:536-562 | one turn of the action loop presses nothing or exactly the action, and reports why it stopped |
| `ExecutorEngine.Engine.RunActions` | firmware/components/macro_executor/macro_executor_engine.c:529-562 | what is pressed is a prefix of the plan's reports, all of it on success, in the plan's total time |
| `ExecutorEngine.Engine.PassGate` | firmware/components/macro_executor/macro_executor_engine.c:467-495 | a request that requires confirmation passes only after a confirm call was accepted since the claim; in a quiet environment it passes if that call comes within 60 s and otherwise times out |
| `ExecutorEngine.Engine.Execute` | firmware/components/macro_executor/macro_executor_engine.c:497-575 | for every result of every operation: an invalid request has no effect; otherwise the plan is freed once, every press is released before the next, the last call is a release, nothing is pressed after a failed release nor before a required confirmation, the reports are a prefix of the plan and all of it on success, the waits after the gate add up to the plan's duration, and the terminal status says so; in a quiet environment every plan within its limits completes before the absolute deadline, except that a required confirmation that is not asked for within 60 s ends the run with nothing pressed |
| `ExecutorEngine.Engine.Submit` | firmware/components/macro_executor/macro_executor_engine.c:314-360 | a request is queued exactly when the call reports success, then the caller's plan is gone; on any refusal the plan is intact; while busy or latched nothing of the running request changes; when nothing fails it is accepted exactly if valid, not busy and not latched |
| `ExecutorEngine.Engine.FinishSubmissionFailure` | firmware/components/macro_executor/macro_executor_engine.c:268-297 | a refused claim releases all keys once, publishes a failure and frees the claim, or latches the engine |
| `UsbKeyboard.BootReportReads` | firmware/components/usb_keyboard/usb_keyboard_state.c:90-97 | reading a boot report back gives the pressed modifiers and usages, and no press looks like a release (Device Class Definition for HID 1.11, appendix B.1) |
| `UsbKeyboard.Keyboard.WaitUntilReady` | firmware/components/usb_keyboard/usb_keyboard_state.c:18-32 | the readiness poll ends; it gives up only when 100 ms of true time have passed, although it compares wrapping readings |
| `UsbKeyboard.Keyboard.Press` | firmware/components/usb_keyboard/usb_keyboard_state.c:76-98 | exactly the keys with a modifier or one to six usages are accepted; success puts their padded report on the wire, anything else puts nothing; an attached host gets every acceptable press |
| `UsbKeyboard.Keyboard.ReleaseAll` | firmware/components/usb_keyboard/usb_keyboard_state.c:100-116 | success puts the all-zero report on the wire, failure nothing |
| `UsbKeyboard.Play` | firmware/components/usb_keyboard/usb_keyboard_state.c:76-116 | a keyboard on which any sequence of presses and releases is played, with any results, hands the host exactly the reports that the results imply |
| `UsbKeyboard.WireStrokes` | firmware/components/usb_keyboard/usb_keyboard_state.c:76-116 | if every press succeeds, what a host takes for key strokes on that wire is what was pressed |
| `UsbKeyboard.RunOnTheWire` | firmware/components/macro_executor/macro_executor_engine.c:442-465 | a run whose calls succeed reaches the host as separate strokes, each released before the next, with all keys up at the end |
| `EndToEnd.CompiledIsValid` | firmware/components/macro_executor/macro_executor_engine.c:139-155 | a compiled plan passes the executor's validation exactly when the source is not empty |
| `EndToEnd.SubmitAndExecute` | firmware/components/macro_executor/macro_executor_engine.c:497-575 | source to wire: only the plan's reports are pressed, in order, none skipped, each acceptable to the USB layer and none before a required confirmation; without error the host sees all of them separately and the requested waits equal the compiler's estimate; in a quiet environment every compiled plan completes, also after a confirmation that is asked for within 60 s, and times out with nothing pressed without one |
| `EndToEnd.TextArrives` | firmware/components/macro_parser/macro_parser_v2.c:544-612 | escaped text that is compiled and run without error arrives on a US-layout host character for character |
| `MacroKeymap.PrintableReads` | firmware/components/macro_parser/macro_keymap_us.c:52-179 | exactly the printable ASCII characters have a key, and reading the key back gives the character |
| `MacroKeymap.NameTypes` | firmware/components/macro_parser/macro_keymap_us_v2.c:28-40 | every key that types no character has a directive name that compiles to it |
| `MacroKeymap.ModifierTypes` | firmware/components/macro_parser/macro_keymap_us.c:221-237 | each modifier bit has a directive name that compiles to it |
| `MacroKeymap.DirectiveShape` | firmware/components/macro_parser/macro_keymap_us_v2.c:28-40 | a directive names a bare modifier or an unshifted key, never a bracket |
| `MacroCompiler.NextToken` | firmware/components/macro_parser/macro_parser_v2.c:529-542 | a token consumes at least one and at most all bytes; an error lies inside the source |
| `MacroCompiler.CompileFromMeaning` | firmware/components/macro_parser/macro_parser_v2.c:586-600 | from any position and any plan within limits, the running limit checks and overflow guards decide the same as the final totals |
| `MacroCompiler.CompileMeaning` | firmware/components/macro_parser/macro_parser_v2.c:544-612 | compilation succeeds exactly when timing and length are in range, every token is readable and the totals are within limits, and then yields the tokens in order with the sum of their durations |
| `MacroParser.Locate` | firmware/components/macro_parser/macro_parser_v2.c:35-49 | the loop finds the line and column of a byte offset |
| `MacroParser.ParseDelayLoop` | firmware/components/macro_parser/macro_parser_v2.c:133-164 | the digit loop with its 32-bit guard computes the delay or the error of the specification |
| `MacroParser.GroupAccumulator.Merge` | firmware/components/macro_parser/macro_parser_v2.c:208-233 | merging in place gives the specified accumulator or the specified error |
| `MacroParser.ScanGroupLoop` | firmware/components/macro_parser/macro_parser_v2.c:448-471 | the group loop finds the specified group or error |
| `MacroParser.WorkingPlan.Append` | firmware/components/macro_parser/macro_parser_v2.c:75-100 | appending in place adds the action and its duration, or refuses and leaves the plan alone |
| `MacroParser.Fail` | firmware/components/macro_parser/macro_parser_v2.c:51-65 | an error carries its code, offset and message and the line and column of that offset |
| `MacroParser.CompileV2` | firmware/components/macro_parser/macro_parser_v2.c:544-612 | the compiler as it runs: success is the specified plan, failure the specified code and message at the specified position |
| `MacroComposition.NextTokenLocal` | firmware/components/macro_parser/macro_parser_v2.c:529-542 | a token does not depend on what follows it, unless it is a group that ends where a closing bracket follows |
| `MacroComposition.LexJoin` | firmware/components/macro_parser/macro_parser_v2.c:586-600 | outside that exception the tokens of a concatenation are the concatenated tokens |
| `MacroComposition.LexDoesNotJoin` | firmware/components/macro_parser/macro_parser_v2.c:383-440 | in the exception they never are |
| `MacroComposition.Compositional` | firmware/components/macro_parser/macro_parser_v2.c:544-612 | for two sources that compile: the concatenation compiles to the concatenated plan with added duration if and only if the joint totals are within limits and it is not the exception |
| `MacroComposition.GroupThenBracketDiffers` | firmware/components/macro_parser/macro_parser_v2.c:383-440 | a concrete pair of sources in the exception |
| `MacroComposition.TextsPartition` | firmware/components/macro_parser/macro_parser_v2.c:586-600 | the token spans are non-empty, make up the source, and each alone reads as its token |
| `MacroPrinter.LexShape` | firmware/components/macro_parser/macro_parser_v2.c:119-131 | every compiled plan has the shape: single keys with at most shift, groups that do not start with a bare bracket, delays in range, no closing-bracket key after a group |
| `MacroPrinter.ReadableExactly` | firmware/components/macro_parser/macro_parser_v2.c:383-542 | a sequence of actions is read from some source if and only if it has that shape |
| `MacroPrinter.RoundTrip` | firmware/components/macro_parser/macro_parser_v2.c:383-542 | printing any plan of that shape within limits and compiling it gives back the same plan |
| `MacroPrinter.PrintNormalises` | firmware/components/macro_parser/macro_parser_v2.c:544-612 | so printing a compiled plan gives a source with the same meaning |
| `MacroPrinter.TextCompiles` | firmware/components/macro_parser/macro_parser_v2.c:293-358 | escaped printable text, newline and tab compile to one key for each character, and reading the keys back gives the text |
| `Crc32.TableStep` | firmware/components/support/app_crc32.c:26-38 | one table lookup is eight steps of the bitwise register |
| `Crc32.BitwiseConcat` | firmware/components/support/app_crc32.c:26-38 | updating with a concatenation is updating twice |
| `Crc32.BitwiseInjective` | firmware/components/support/app_crc32.c:26-38 | different registers stay different under the same message |
| `Crc32.BurstDetected` | firmware/components/support/app_crc32.c:44-49 | two messages that differ only within four consecutive bytes have different checksums (RFC 1952, section 8) |
| `Crc32.ByteChangeDetected` | firmware/components/support/app_crc32.c:44-49 | in particular one altered byte always changes the checksum |
| `Crc32.Table.Build` | firmware/components/support/app_crc32.c:15-24 | the built table is valid in every entry |
| `Crc32.Table.Update` | firmware/components/support/app_crc32.c:26-38 | the table form equals the bitwise form for every message and every starting value; a null buffer leaves the register alone |
| `Crc32.Table.Compute` | firmware/components/support/app_crc32.c:44-49 | the checksum of a buffer equals the bitwise checksum |
| `BlobNames.NameRoundTrip` | firmware/components/storage/storage_blob_core.c:35-73 | formatting and parsing are inverse on all 64-bit ids but zero, for both suffixes |
| `BlobNames.NamesApart` | firmware/components/storage/storage_blob_recovery.c:18-44 | canonical and temporary names never coincide, within or across ids |
| `BlobNames.Parse` | firmware/components/storage/storage_blob_core.c:35-61 | the digit loop with its 64-bit guard accepts exactly the names whose value is an id |
| `BlobNames.NextIdIsLeast` | firmware/components/storage/storage_blob_core.c:75-93 | the derived id is the least one that is positive, not below the counter and above every scanned id |
| `BlobNames.SortedIsNewestFirst` | firmware/components/storage/storage_blob_core.c:95-108 | insertion order is newest first and a permutation |
| `BlobNames.SortNewestFirst` | firmware/components/storage/storage_blob_core.c:95-108 | the sort in place leaves the array newest first with the same entries |
| `BlobScan.Scan` | firmware/components/storage/storage_blob_core.c:288-330 | success lists the directory's regular canonical files, each once with its size, strictly newest first, with matching counts, greatest id and next id; when nothing fails it succeeds unless a blob has the last id |
| `BlobStore.Store.Begin` | firmware/components/storage/storage_blob_upload_core.c:82-126 | success stages an empty temporary file under the next id and touches nothing else; failure leaves the directory alone and the upload empty; when nothing fails it succeeds exactly if size, next id and both names allow it |
| `BlobStore.Store.Write` | firmware/components/storage/storage_blob_upload_core.c:128-146 | data is accepted whole or not at all, never beyond the expected size; what a failed write leaves in the file is at most its data; only the temporary file changes; the only refusal without a failure is data that does not fit |
| `BlobStore.Store.WriteWithRoom` | firmware/components/storage/storage_blob_upload_core.c:128-146 | the same for a file system with room for so many bytes: when nothing else fails, the write succeeds exactly if the data fits, and otherwise leaves exactly those bytes uncounted in the file |
| `BlobStore.Store.PrepareCommit` | firmware/components/storage/storage_blob_upload_core.c:148-194 | before the rename the staged bytes are durable, the canonical name is free and the counter is past the id |
| `BlobStore.Store.Commit` | firmware/components/storage/storage_blob_upload_core.c:167-213 | committed or uncertain: the temporary file has become the blob, nothing else changed, the blob is the accepted bytes if and only if no failed write had left any, and exactly that upload is on record from then on; committed also means durable and listed; not committed: only the temporary file may be gone; when nothing fails a full upload commits exactly if its canonical name is free |
| `BlobStore.Store.Abort` | firmware/components/storage/storage_blob_upload_core.c:221-251 | an activated or committed blob stays; otherwise success removes the temporary file and nothing else |
| `BlobStore.Store.Acknowledge` | firmware/components/storage/storage_blob_upload.c:122-135 | an upload counts as committed, and the inventory advances, only after the directory is synchronised |
| `BlobStore.Store.Delete` | firmware/components/storage/storage_blob_access.c:26-44 | success removes exactly that blob, durably; the next id does not go back; when nothing fails it succeeds exactly if there is such a blob |
| `BlobStore.Store.DeleteEach` | firmware/components/storage/storage_blob_core.c:277-286 | a blob that resists deletion does not keep the others; the first error is kept |
| `BlobStore.Store.DeleteAll` | firmware/components/storage/storage_blob.c:146-188 | success leaves no blob; only blobs are removed and the count says how many; when nothing fails it succeeds exactly if no blob has the last id, and with one it has no effect |
| `BlobStore.Store.List` | firmware/components/storage/storage_blob.c:68-82 | success tells the directory's blobs and never lowers the next id; failure leaves the inventory alone |
| `BlobStore.Store.Recover` | firmware/components/storage/storage_blob_recovery.c:55-116 | success removes exactly the regular files with a valid temporary name, failure some of them, and nothing else is ever touched |
| `BlobStore.Store.Boot` | firmware/components/storage/storage_mount_topology.c:57-76 | after a successful start no upload debris is left, the next id is not below the counter and no regular file holds its canonical name; when nothing fails it succeeds exactly if no blob has the last id |
| `BlobStore.Store.PowerCut` | firmware/components/storage/storage_blob_upload_core.c:167-213 | a power cut brings back one directory state since the last synchronisation; kept blobs and the counter survive |
| `BlobStore.Store.Run` | firmware/components/storage/storage_blob_upload_core.c:82-213 | over any sequence of commands, failures and power cuts: ids reported as committed strictly increase, every committed blob that was not deleted is durably in place, every visible blob is one recorded file: found at the start, or an upload's accepted bytes, all that were announced, apart from what failed writes had left |
| `BlobRuns.RunFromStart` | firmware/components/storage/storage_blob_upload_core.c:82-251 | over any sequence of commands, failures and power cuts, against the log to which begin, write and commit add what they returned: every blob that is visible, now and after a cut at this moment, was there at the start or is the file of one upload of the log, with all bytes that were announced and delivered; if no upload was committed after one of its writes had failed, which callers that stop then never do, that file is exactly the bytes of that upload's successful writes; no blob gets the last id; committed ids increase |
| `BlobRuns.Serve` | firmware/components/storage/storage_blob_upload_core.c:82-251 | one command of any kind keeps the records and the upload in progress in step with the log; a caller that stops after a failed write keeps the log careful |
| `BlobRuns.CarefulIsWhole` | firmware/components/storage/storage_blob_upload_core.c:128-146 | a log without a commit after a failed write of two bytes or more leaves nothing but complete uploads |
| `BlobRuns.CutIsExplained` | firmware/components/storage/storage_blob_upload_core.c:195-213 | whatever state a power cut brings back, every canonical file in it is accounted for by the log in that way, and complete after a careful log |
| `BlobRuns.CommitSpoilt` | firmware/components/storage/storage_blob_upload_core.c:128-213 | for all other callers: from any upload, a failed write of two bytes or more that left k of them, then all missing bytes and a commit, which report success and are logged so, give a durable blob of k bytes too many |
| `BlobStore.LastIdStopsScan` | firmware/components/storage/storage_blob_core.c:83-84 | no scan succeeds while a blob has the largest id |
| `StorageAtomic.FileSystem.WriteAll` | firmware/components/storage/storage_atomic.c:37-57 | success means all the data, once and in order, however writes were split or interrupted |
| `StorageAtomic.FileSystem.VerifyFile` | firmware/components/storage/storage_atomic.c:59-110 | success means the file is exactly the data |
| `StorageAtomic.FileSystem.Stage` | firmware/components/storage/storage_atomic.c:150-185 | success leaves exactly the data staged, durable if synchronising is required; no other file changes in any state a cut may bring back |
| `StorageAtomic.FileSystem.AtomicWrite` | firmware/components/storage/storage_atomic.c:187-226 | not committed: the old file is visible; committed or uncertain: the new bytes are; every state a power cut may find shows, at the path, the new bytes or what was there before, if and only if nothing was renamed or the file had been synchronised, which required synchronising enforces; without failures and signals it commits exactly if the temporary path holds nothing but a file and synchronising is possible or not required |
| `StorageAtomic.FileSystem.TornWrite` | firmware/components/storage/storage_atomic.c:163-170 | where synchronising is impossible and not required, the write of any data reports success and every byte string may stand at the path after a power cut |
| `StorageAtomic.SafeIfSynced` | firmware/components/storage/storage_atomic.c:187-226 | after the rename a cut is sure to show old or new exactly if the renamed file was synchronised |
| `StorageAtomic.CutShowsOldOrNew` | firmware/components/storage/storage_atomic.c:129-142 | so a cut with durable predecessors finds the old node or the complete new bytes |
| `FactoryReset.Device.FactoryReset` | firmware/components/device_controls/device_controls_reset.c:69-113 | not accepted: nothing destructive happened; accepted: completed with the marker cleared, or still owed with the marker set; recovery is required exactly on error; what was completed survives a power cut if and only if the directory held something when it began or nothing of earlier could still come back, and the resets of which that is not so are counted; when nothing fails it is accepted, and complete exactly if the settings decode and no blob has the last id |
| `FactoryReset.Device.EraseEverything` | firmware/components/device_controls/device_controls_reset.c:90-96 | no error means settings, sessions, blobs and temporary files are all gone; earlier directory states can come back exactly as far as no sweep removed anything |
| `FactoryReset.Device.DeleteBlobs` | firmware/components/storage/storage_blob.c:146-188 | a scan that fails ends it without effect; the loop goes past a blob that resists; success leaves no blob and, if it removed one, no earlier state of the directory |
| `FactoryReset.Device.CleanupTemporaryFiles` | firmware/components/storage/storage_blob_recovery.c:55-116 | a directory that cannot be read ends it without effect; it stops at the first failure; success leaves no temporary file and, if it removed one, no earlier state of the directory |
| `FactoryReset.Device.Recover` | firmware/components/factory_reset_recovery/factory_reset_recovery_engine.c:22-70 | success means no marker; a recovery means erased, also after a power cut; without a marker nothing is touched; without failures it succeeds exactly when the settings decode and no blob has the last id |
| `FactoryReset.Device.StartUp` | firmware/components/app_core/app_core.c:58-71 | ordinary startup is reached only without a marker and, unless some reset cleared it with an earlier deletion not durable, with everything untouched or everything erased; without failures and without a marker it is reached exactly if the settings decode |
| `FactoryReset.Device.Run` | firmware/components/factory_reset_recovery/factory_reset_recovery_engine.c:22-70 | crash atomicity over any history of resets, starts, changes and power cuts that may bring back unsynchronised deletions: unless some reset has cleared its marker with such a deletion outstanding, without the marker there is no half-done reset; where directory changes are durable at once there is no such reset; an accepted reset keeps its marker until it has erased everything; what can be repaired stays so while ordinary operation writes nothing that cannot |
| `FactoryReset.Device.ReliableBoot` | firmware/components/factory_reset_recovery/factory_reset_recovery_engine.c:22-70 | a power cut in any state and then one boot without failures: with the marker pending it ends erased, cleared, not owed and running if the settings decode and no state that the cut may bring back has a blob with the last id, and fails if the settings do not decode or every such state has one; without a marker nothing is touched and it runs exactly if the settings decode |
| `FactoryReset.Device.RunThenReliableBoot` | firmware/components/factory_reset_recovery/factory_reset_recovery_engine.c:22-70 | so after any history in which ordinary operation writes only records that decode and never the last id, one boot without failures always ends running, with no marker, nothing owed, and untouched or erased |
| `FactoryReset.Device.ResetThenReturn` | firmware/components/storage/storage_blob.c:168-188 | the failing case: a reset begun on an empty directory with an earlier state outstanding reports completion, and a power cut then brings that state back with no marker left |
| `FactoryReset.Device.RefusedThenReset` | firmware/components/device_controls/device_controls_reset.c:69-80 | a marker write that took effect but reported failure: the reset is refused, and the next boot without failures erases everything |
| `RateLimit.AtMostFive` | firmware/components/auth/auth_core_rate_limit.c:124-165 | while every lockout fits the clock, waiting out the lockout after each fifth failure is enough for at most five in any minute |
| `RateLimit.FullOnlyAtTheEndOfTime` | firmware/components/auth/auth_core_rate_limit.c:145-156 | a source has five failures inside the minute and no lockout only if the last of them is within 300 s of the end of the 64-bit clock |
| `RateLimit.PrunedOk` | firmware/components/auth/auth_core_rate_limit.c:17-49 | pruning keeps what the slot says about the source's history, leaves a lockout set exactly while the history implies one, and the slot full without one exactly if the history is |
| `RateLimit.FailedOk` | firmware/components/auth/auth_core_rate_limit.c:147-158 | recording a failure appends it; the fifth held one sets a lockout of exactly 300 s unless that would not fit the clock |
| `RateLimit.Limiter.PruneFailures` | firmware/components/auth/auth_core_rate_limit.c:27-49 | the compaction in place equals the filter on times |
| `RateLimit.Limiter.AllocateEntry` | firmware/components/auth/auth_core_rate_limit.c:61-90 | a new source gets the first free slot, or if none is free the first whose source is not locked, and only that source is forgotten; none exactly when all eight are locked |
| `RateLimit.Limiter.LoginAttemptAllowed` | firmware/components/auth/auth_core_rate_limit.c:92-122 | limited exactly while the source's recorded failures imply a lockout, for the remaining seconds; a fault changes nothing |
| `RateLimit.Limiter.LoginRecordFailure` | firmware/components/auth/auth_core_rate_limit.c:124-165 | the failure is recorded unless the source is locked, or is new and all slots are locked, or holds five recent ones; no other source loses a live lockout; a fault changes nothing; any other internal error means exactly that a lockout does not fit the clock, which never happens before its last 300 s |
| `RateLimit.Limiter.LoginRecordSuccess` | firmware/components/auth/auth_core_rate_limit.c:167-186 | success forgets that source only; a failed unlock restores the state |
| `RateLimit.Limiter.Limits` | firmware/components/auth/auth_core_rate_limit.c:92-187 | at any moment, over the whole range of the clock, each tracked source has at most five recorded failures in any minute and waited out every lockout that fits the clock |
| `RateLimit.Limiter.ReadNow` | firmware/components/auth/auth_core_common.c:49-61 | the clock never goes back; if it does the call fails without effect |
| `Sessions.HexInjective` | firmware/components/auth/auth_core_common.c:63-83 | different random bytes give different tokens |
| `Sessions.PurgedTokens` | firmware/components/auth/auth_core_session.c:16-22 | after a purge the slots hold exactly the live tokens |
| `Sessions.LeastRecentSlot` | firmware/components/auth/auth_core_session.c:24-37 | the selected occupied slot is the least recently used of eight live tokens |
| `Sessions.Core.PurgeExpired` | firmware/components/auth/auth_core_session.c:16-22 | the loop clears every expired slot and no other |
| `Sessions.Core.SelectSlot` | firmware/components/auth/auth_core_session.c:24-37 | a free slot if there is one, else the least recently used |
| `Sessions.Core.GenerateToken` | firmware/components/auth/auth_core_common.c:96-110 | the token is well formed and not in use, or none after four attempts |
| `Sessions.Core.Create` | firmware/components/auth/auth_core_session.c:53-96 | success adds the last token drawn from the random source, which was not live, and evicts only the least recently used of eight live ones; any failure restores the exact state; at most four tokens are drawn; without faults it fails only if the clock reads within a week of its end or four tokens were drawn and each was recorded already |
| `Sessions.Core.FindAndRefresh` | firmware/components/auth/auth_core_session.c:126-142 | a token is found exactly when it is recorded and alive |
| `Sessions.Core.Validate` | firmware/components/auth/auth_core_session.c:144-170 | a token validates exactly when it was created, not logged out, not evicted, last validated under a day and created under a week ago, except that in the last day of the 64-bit clock such a token gets an internal error; validation counts as its last use; a fault changes nothing |
| `Sessions.Core.Remaining` | firmware/components/auth/auth_core_session.c:204-236 | the whole seconds left until idle and absolute expiry, for exactly the live tokens, without counting as a use |
| `Sessions.Core.Logout` | firmware/components/auth/auth_core_session.c:238-264 | afterwards the token is not alive; other sessions stay; a failed unlock restores the state |
| `Sessions.Core.LogoutAll` | firmware/components/auth/auth_core_session.c:266-276 | once locked, every session ends, even if the unlock fails |
| `Utf8.DecodedIsEncoded` | firmware/components/app_contracts_v2/device_settings_v2.c:86-128 | what one turn of the check reads is a scalar value and its encoding (RFC 3629, section 3) |
| `Utf8.EncodedIsDecoded` | firmware/components/app_contracts_v2/device_settings_v2.c:86-128 | every encoded scalar value is read back, whatever follows |
| `Utf8.DecodeIsInverse` | firmware/components/app_contracts_v2/device_settings_v2.c:84-130 | decoding yields a text exactly when the bytes are the encoding of that text |
| `Utf8.ValidExactlyEncodings` | firmware/components/app_contracts_v2/device_settings_v2.c:84-130 | the check accepts exactly the encodings of sequences of scalar values (RFC 3629, section 4) |
| `Utf8.IsValidUtf8` | firmware/components/app_contracts_v2/device_settings_v2.c:84-130 | the loops decide that without leaving the text |
| `RecordLayout.ReadsWhatWasWritten` | firmware/components/app_contracts_v2/device_settings_v2.c:25-60 | a little-endian number reads back |
| `RecordLayout.WritesWhatWasRead` | firmware/components/app_contracts_v2/device_settings_v2.c:25-60 | and writing what was read gives the same bytes |
| `RecordLayout.WriteNumber` | firmware/components/app_contracts_v2/device_settings_v2.c:30-40 | the byte loop writes the little-endian form and nothing else |
| `RecordLayout.ReadNumber` | firmware/components/app_contracts_v2/device_settings_v2.c:46-60 | the byte loop reads it |
| `RecordLayout.BytesAreZero` | firmware/components/app_contracts_v2/device_settings_v2.c:62-69 | the loop decides whether all bytes are zero |
| `SettingsCodec.CanonicalValid` | firmware/components/app_contracts_v2/device_settings_v2.c:255-289 | validity depends only on texts up to their ends |
| `SettingsCodec.RecordHolds` | firmware/components/app_contracts_v2/device_settings_v2.c:291-339 | the encoded record has 344 bytes with every field at its offset |
| `SettingsCodec.DecodeEncode` | firmware/components/app_contracts_v2/device_settings_v2.c:291-423 | decoding an encoded record gives the settings back, texts up to their ends, for all valid settings |
| `SettingsCodec.EncodeDecode` | firmware/components/app_contracts_v2/device_settings_v2.c:341-423 | encoding what was decoded gives the record back with only the two bytes of removed preferences set to zero, and the decoded settings are valid |
| `SettingsCodec.AcceptedExactly` | firmware/components/app_contracts_v2/device_settings_v2.c:366-379 | a record is accepted exactly when those two bytes are at most one and, with them zeroed, it is the encoding of some valid settings |
| `SettingsCodec.SameButReserved` | firmware/components/app_contracts_v2/device_settings_v2.c:366-379 | the two bytes do not influence what is decoded |
| `SettingsBuffers.BoundedLength` | firmware/components/app_contracts_v2/device_settings_v2.c:71-82 | the loop finds the end of the text |
| `SettingsBuffers.CheckRecordText` | firmware/components/app_contracts_v2/device_settings_v2.c:219-236 | the loop accepts exactly the terminated, valid, zero-padded texts |
| `SettingsBuffers.Encode` | firmware/components/app_contracts_v2/device_settings_v2.c:291-339 | the buffer becomes the specified record, or is left alone with the specified error |
| `SettingsBuffers.DecodeRecord` | firmware/components/app_contracts_v2/device_settings_v2.c:341-423 | the decoder on buffers gives the specified result in every case |
| `SettingsCache.DefaultIsValid` | firmware/components/app_contracts_v2/device_settings_v2.c:244-253 | the unprovisioned default is valid |
| `SettingsCache.EffectiveIsCanonical` | firmware/components/device_settings/device_settings_core.c:87-133 | the settings in force are valid, whatever the record |
| `SettingsCache.Cache.ReconcileFailedCommit` | firmware/components/device_settings/device_settings.c:101-124 | success means the candidate is in flash, a certain failure that it is not |
| `SettingsCache.Cache.ReplaceRecordAtomic` | firmware/components/device_settings/device_settings.c:126-152 | flash holds the old or the new record; success means the new one, a certain failure the old one |
| `SettingsCache.Cache.Load` | firmware/components/device_settings/device_settings_core.c:87-133 | a loaded value is the one in force: the decoded record, or the default when absent |
| `SettingsCache.Cache.Replace` | firmware/components/device_settings/device_settings_core.c:135-183 | success puts the candidate in force and writes exactly when the record differs; a certain failure changes neither flash nor cache; doubt drops the cache so that the next load reads again; when nothing fails it succeeds exactly for valid candidates |
| `SettingsCache.Cache.FactoryReset` | firmware/components/device_settings/device_settings_core.c:269-287 | success puts the default in force |
| `SettingsCache.Cache.Init` | firmware/components/device_settings/device_settings.c:192-225 | starting succeeds exactly when the record loads |
| `SettingsCache.Cache.Run` | firmware/components/device_settings/device_settings_core.c:87-183 | cache and flash agree over any sequence of replacements and restarts, with failures and uncertain commits |
| `BlobJournal.SafeFinish` | scripts/v2_035_support/blob_journal.py:84-102 | taking it into ownership accounts for every blob on the device |
| `BlobJournal.Collector.BeginPendingCreation` | scripts/v2_035_support/blob_journal.py:68-81 | the intent is on disk before the request is sent, and only from an accounted-for device |
| `BlobJournal.Collector.FinishPendingCreation` | scripts/v2_035_support/blob_journal.py:84-102 | success records a blob that is neither owned nor in the baseline yet |
| `BlobJournal.Collector.CreateJournaledBlob` | scripts/v2_035_support/blob_journal.py:115-128 | wherever it stops the journal stays safe; success adds exactly the new blob, or nothing; without failures it succeeds exactly from an accounted-for device |
| `BlobJournal.Collector.ReconcilePendingCreation` | scripts/v2_035_support/blob_journal.py:131-153 | whatever an interrupted creation left is owned afterwards; without failures it always succeeds |
| `BlobJournal.Collector.DeleteOwnedBlob` | scripts/v2_035_support/blob_journal.py:156-163 | removes exactly that owned blob from device and journal |
| `BlobJournal.Collector.VerifyRecoverable` | scripts/v2_035_support/blob_journal.py:166-182 | it never refuses a device that the journal describes |
| `BlobJournal.Collector.RecoverCleanup` | scripts/run-v2-035-hardware.py:170-186 | success restores exactly the baseline; without failures it always succeeds, wherever an earlier command had stopped |
| `BlobJournal.Collector.RunThenRecover` | scripts/v2_035_support/blob_journal.py:68-182 | after any commands stopping anywhere, with no baseline blob ever lost, a recovery without failures restores exactly the baseline |

## Left out

- Foreign calls (FreeRTOS, TinyUSB, NVS, LittleFS, mbedTLS, HTTP): only the results of their operations appear.
- Null pointers, missing operation tables and exhausted heap: every argument is there; the plan and the entry list always find memory.
- Request identifiers: their format check is one flag of the request.
- The 32-bit clock of the executor and the USB layer: one operation is assumed to stall for at most 2^29 ms; waiting takes at least a millisecond unless it consumes a notification; in a quiet environment only waiting takes time and nobody cancels.
- Unknown action types and tick rounding of waits: an action is a key, a chord or a delay; waits are counted in milliseconds as requested.
- `macro_executor_engine_init` and `macro_executor_engine_get_status`: they only copy fields.
- MacroKeymap.NameTypes: the named keys are stated by cases where the firmware walks a static table.
- Mount, suspend and init transitions of the USB layer: the state it reads may change at any time.
- Two uploads at once: the store has one upload, as the request handler has; an upload object kept from an earlier request and aborted later is not modelled.
- Service before a successful mount: commands that need the inventory are answered only after a successful start, as mounting rolls back otherwise.
- Reading blobs, diagnostics and the preparation of the repository directory.
- Directory entries are assumed to become durable in the order in which they were made.
- FactoryReset.Device.ChangeOrdinarily: ordinary changes are whole new states of settings and directory; what the uploads inside them do is in `BlobStore`.
- Writes by other tasks during the live factory reset, and the reset of settings alone.
- Password derivation, random quality, secure zeroing and timing: not modelled; tokens are arbitrary well-formed texts.
- Assembly of settings updates (`device_settings_core_set_station` and its neighbours): they build a candidate and call the replacement modelled here.
- The settings mutex: the cache is used by one caller at a time.
- BlobJournal.Collector.BeginPendingCreation: stage lists, phases and scenario evidence are left out; a request that outlives the command that sent it has taken effect, or never will, before the next command.
- BlobJournal.Collector.RecoverCleanup: the order in which owned blobs are deleted is arbitrary, where the script goes backwards through its list.
- BlobStore.Store.Commit: an upload whose commit is uncertain has no promise that its id is not used again, because the inventory does not advance.
- ExecutorRefinement.Submit: the calls of other tasks are related to the machine; of the worker's run in `ExecutorEngine` only the contracts and the machine's steps correspond, section by section.
- ExecutorProtocol.LatchRefuses: a submission that had passed its availability check before the latch closed may still go on.
