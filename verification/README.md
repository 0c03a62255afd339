# itofin: models and proofs

itofin binds a Rust pricing library to Go and to Python. This project models the parts of that
repository whose correctness is not visible from reading one function, and proves what they
promise for every input, every run or every interleaving.

* **The Go session** (`sdk/go/session.go`, `bootstrap_callbacks.go`, `options.go`). Any number of
  goroutines share one worker thread through a read/write gate, an unbuffered queue, a callback
  flag and a one-shot `Close`. `SessionProtocol` is a labelled transition system with a program
  counter per call; the worker may be inside a user callback that issues calls of its own. The
  steps the protocol is meant to exclude (a native call without context, a second free, a send on
  the closed queue) are in the model and set `fault`. `SessionMachine` is the same protocol as an
  object updated in place. `SessionSafety`, `SessionProgress`, `SessionLog` and `SessionTheorems`
  hold the invariant, deadlock freedom and termination, the refinement of a sequential log, and
  what follows; `SessionRefusals` says when a call is refused, `SessionTasks` what a task does and
  answers, `SessionCallbacks` which calls a user callback may wait for; `SessionRuns` builds example
  runs; `OptionCalls` and `OptionAnswers` instantiate all of it with the engine operations of an option.
* **Native and cgo handles** (`bootstrap.go`, `results.go`, `session.go` with the Rust side in
  `crates/libitofin-ffi/src`). `NativeHandles` follows both sides call by call, with every error
  path and contained panics; `HandleTheorems` proves conservation over all task sequences.
  `ErrorText` is the error buffer that callbacks fill.
* **The release publisher** (`scripts/publish_go_release.py`). `RemoteTags` resolves tag chains,
  `Publisher` holds the remote state and the specification, `PublisherRun` the script as methods
  that may be stopped before any remote write, `PublisherAssets` and `PublisherTheorems` the
  proofs about crashes and reruns, `PublisherSuccess` the exact conditions of success;
  `PublisherIdentity` says in terms of archives, texts and tags what is accepted and what is published.
* **The table generator** (`scripts/gen_sobol_tables.py`). `Decimal`, `TableText`, `TableSplit`,
  `TableRead` and `TableFiles`: printing, tokenizing, the greedy cut, file sizes, and the round trip
  through the written files.
* **The generated Python tree** (`gen_stubs.py`, `gen_submodule_shims.py`, `check_typing.py` under
  `crates/itofin-py/scripts`). `StubText` and `StubTextTheorems` rewrite one stub,
  `StubTextLines` says what becomes of a line, `StubTextPlaces` and `StubTextResult` where it comes out
  and with which text, `StubTextTwice` what a second pass changes, with inputs in `StubTextExamples`;
  `StubTree` and `StubTreeTheorems` are the tree, with `PathOrder` the order of its paths;
  `TypingGate` compares reviewed diagnostics, and `TypingReports` says which reports pass.
* **Sizes, grids, periods, Python callbacks** (`simulation.go`, `rng_sequence.go`, `volgrid.go`,
  `volcube.go`, `inflation_volgrid.go`, `time.go`, `crates/itofin-py/src/bootstrap.rs`):
  `Dimensions`, `Grids`, `Periods` and `BootstrapCallbacks`.

`Wrappers` and `Text` are shared. The native library is abstract throughout: a deterministic
state function in the session model, arbitrary outcomes (success, refusal, panic) in the handle
model. `dafny verify dfyconfig.toml` checks everything.

## What was found

Where a promise does not hold of the code, the code is modelled as it is and the exact condition
is proved.

* `readResults` releases its snapshot on every path except after a native panic: the panic poisons
  the context, the deferred release is then refused, and the snapshot stays until the context is
  freed (`ReadConsumes`, an if and only if).
* `post_process` is not idempotent, for three reasons: a trailing blank hides a constructor from
  the first pass (`HiddenConstructor`); deleting `import enum` glues a line that ends in those words
  to the next one, which can leave such a blank in a text that has none (`GluedConstructor`); and an
  `import enum` whose last use was in a discarded return annotation outlives it
  (`ImportOutlivesItsUse`). `PostProcessTwice` has the exact condition on the lines of any text. On
  texts without trailing blanks whose lines ending in `import enum` are just that, the last reason is
  the only one (`CleanTextTwice`).
* In check mode `gen_stubs.py` restores the tree unless post-processing raises; then nothing is
  restored. The tree is as before exactly if post-processing raises nowhere, or every generated stub
  was there, each one before the raising stub, in the order of paths, is processed to the text it
  had, and each other one had its raw text (`Check`). So a committed stub at which post-processing
  now raises is replaced by its raw text (`CheckThatChanges`: an enum without members).
* `write_file` can also reject the offsets file, which nothing splits: always from 316,000 entries
  on, never below 80,000 with fewer than 10^9 values (`OffsetsFileSmall` is exact). This concerns
  direct calls of `emit_initializer_table`: `main` admits only tables of the fixed lengths in
  `EXPECTED_TABLE_DIMS`, 21,200 entries at most.
* Published files that do not fit, be it a wrong archive, a checksum of other contents or a checksum
  without its archive, block a release for good: no run of the release publishes or repairs them
  (`MisfitBlocksForGood`). On a server that keeps what it accepts the publisher leaves no such files
  behind, and there a run publishes exactly if its first checks pass, its archives are valid and what
  is attached fits (`PublishesIffFits`; `PublishesExactly` is the condition for all servers).
* The checks of an archive depend on its file name: under one name it is accepted as one version,
  revision and platform at most (`OneIdentity`), but an archive that has the manifests of two releases
  is accepted as each under its own name (`TwoNamesTwoIdentities`).
* A user callback that waits for a call it has not issued waits for ever exactly if that call had
  passed the callback flag and had no answer yet when the callback began (`ReturnsDuringCallback`).
  Such a call is met in practice (`WaitingCallIsReachable`). A call that has yet to read the flag is
  refused and returns.
* Attaching an engine and valuing in two calls can return the value of another caller's engine
  (`SplitCallsMix`): the value call uses the last engine that anybody attached in between, and the
  caller's own exactly if that is the same one or there is none (`SplitCallsExactly`). The one-shot
  price cannot mix.

## Model

| member | source | states |
|---|---|---|
| SessionSafety.ActionKeeps | sdk/go/session.go:77-133 | Every step of every goroutine and of the worker keeps the invariant tying gate, queue, flag, context, worker and log to the callers' positions |
| SessionSafety.RunKeeps | sdk/go/session.go:77-133 | Every run keeps it, for any number of calls and any interleaving |
| SessionSafety.ServedHasContext | sdk/go/session.go:77-79 | No task executes and no free is pending without a native context |
| SessionTheorems.NeverFaults | sdk/go/session.go:97-132 | In no run is the freed context used, freed again, or the closed queue used or closed again |
| SessionTheorems.ExactlyOnce | sdk/go/session.go:100-103 | An admitted call's task is logged exactly once before the call returns, and the call returns that reply; a refused call's task never runs |
| SessionTheorems.FreedLastAndOnce | sdk/go/session.go:118-132 | The context is freed at most once, after all admitted tasks; after a Close that was not refused it is freed and the worker stopped |
| SessionTheorems.ClosesAgree | sdk/go/session.go:115-132 | All closes that are not refused return one error: what freeing the context answered after all logged tasks, and none for a zero session |
| SessionTheorems.AfterClose | sdk/go/session.go:97-116 | After such a Close later calls do nothing: invoke returns ErrClosed, Close the stored error |
| SessionTheorems.ReentryIsRefused | sdk/go/bootstrap_callbacks.go:36-39 | Calls that a callback issues are refused before they touch gate or queue |
| SessionRefusals.ReentryExactly | sdk/go/session.go:92-111 | In every run a call, invoke or Close, is refused for reentry exactly if it took its first step while the worker was inside a callback |
| SessionRefusals.ClosedExactly | sdk/go/session.go:95-99 | An invoke returns ErrClosed exactly if, when it held the gate and looked, some Close had returned or the session is a zero one |
| SessionRefusals.NothingToRefuse | sdk/go/session.go:88-104 | In a run without callbacks no call is refused for reentry; without Close as well every returned invoke of a live session has its task's reply |
| SessionTasks.LoggedTaskRuns | sdk/go/session.go:77-79 | Each logged task did and answered what its operations do one after the other, up to the first that fails, from the state the tasks before it left |
| SessionCallbacks.WaitingUntilExit | sdk/go/bootstrap_callbacks.go:36-39 | A call that had passed the flag unanswered when a callback began (at the gate, inside it, draining, sending or awaiting) stays so in every run until the callback returns |
| SessionCallbacks.ReturnsDuringCallback | sdk/go/bootstrap_callbacks.go:36-39 | In every reachable state inside a callback a call can return before the callback does exactly if it has not read the flag yet or is answered already |
| SessionCallbacks.WaitingCallIsReachable | sdk/go/session.go:92-102 | A run into a callback during which another goroutine's call, waiting to be sent, cannot return |
| SessionProgress.HolderMoves | sdk/go/session.go:95-103 | With the worker at rest whoever holds the gate can move |
| SessionProgress.NeverStuck | sdk/go/session.go:77-133 | In every reachable state with a call under way, some goroutine or the worker can step |
| SessionProgress.ActionCosts | sdk/go/session.go:77-133 | Each step uses up weight; only issuing a call adds any, and exactly its cost |
| SessionProgress.RunIsBounded | sdk/go/session.go:77-133 | A run of any schedule has no more steps than its calls pay for |
| SessionProgress.EveryScheduleReturns | sdk/go/session.go:105-106 | Without new calls every schedule ends, and it ends only when every call has returned |
| SessionLog.RunRefines | sdk/go/session.go:77-79 | The concurrent run refines the log run sequentially, with in-flight tasks as partial runs |
| SessionTheorems.RefinesSequential | sdk/go/session.go:45-46 | Replies are those of the tasks run whole, one after the other, in log order |
| SessionTheorems.RespectsRealTime | sdk/go/session.go:88-103 | A call that returned before another was issued comes first in the log |
| SessionTheorems.RunGrows | sdk/go/session.go:77-133 | Runs never take back a call or a log entry |
| SessionMachine.Machine.constructor | sdk/go/session.go:60-86 | A new session, live or zero, is in the initial state |
| SessionMachine.Machine.Act | sdk/go/session.go:77-133 | Any step of a goroutine or the worker, executed on the object, gives the state the transition system gives |
| SessionMachine.Machine.Follow | sdk/go/session.go:77-133 | Executing any run on the object ends in that run's state without fault |
| OptionCalls.PriceUsesItsEngine | sdk/go/options.go:144-163 | A one-shot price is the value under the engine it was given, whatever other callers attach |
| OptionCalls.EngineIsLatest | sdk/go/options.go:144-145 | The engine of an option at any place of the log is the last one successfully attached since an earlier place, by whichever caller, or the one it had there |
| OptionCalls.LoggedAttach | sdk/go/options.go:144-145 | A setEngine call counts as such an attach exactly if it returned without error |
| OptionCalls.SplitCallsExactly | sdk/go/options.go:144-145 | A separate value call answers with the last engine attached in between, and with the caller's own exactly if that is the same one or there is none |
| OptionCalls.SplitCallsMix | sdk/go/options.go:144-145 | A run in which a caller gets the value of another caller's engine |
| OptionAnswers.AttachExactly | crates/libitofin-ffi/src/options_api.rs:67-94 | Attaching succeeds exactly if the option exists, the kind is known, the source is of that kind and the order is one the library accepts; then the option has the engine, and nothing else changes either way |
| OptionAnswers.PriceAnswers | sdk/go/options.go:154-162 | What a price answers at its place in the log: the library's value under its own engine, or the error of attaching or of the value |
| OptionAnswers.ValueAnswers | crates/libitofin-ffi/src/options_api.rs:106-133 | What a separate value call answers at its place in the log, in every case |
| NativeHandles.Context.GlobalCurveNew | crates/libitofin-ffi/src/bootstrap_api.rs:24-159 | The record is adopted exactly when the context check passes; every failure after that deletes its handle, success stores it in the new object |
| NativeHandles.Context.GlobalCurve | sdk/go/bootstrap.go:60-84 | Success exactly for a usable context, a valid date, objects that exist and are of the session, and a library that builds; then one new object, which holds the callback handle and what its arguments hold. No handle for a foreign object; on other failures it is deleted again |
| HandleTheorems.CurveFails | crates/libitofin-ffi/src/bootstrap_api.rs:24-159 | Which of the causes decides the error code, and that a failure leaves the objects as they were and the new handle deleted |
| NativeHandles.Context.SameSession | sdk/go/session.go:140-153 | The answer for the first object that is uninitialized or of another session, nil exactly if there is none |
| NativeHandles.Context.HandleRelease | crates/libitofin-ffi/src/boundary.rs:256-270 | Drops the object and releases exactly the handles nobody else holds; error codes otherwise |
| NativeHandles.Context.Replace | crates/libitofin-ffi/src/bootstrap_callbacks.rs:92-102 | Dropping objects releases each callback record whose last owner goes, each once |
| NativeHandles.Context.Close | sdk/go/session.go:157-177 | Close of a wrapper: nil if closed, unknown or zero; a poisoned context is reported |
| NativeHandles.Context.ResultsFields | crates/libitofin-ffi/src/results_api.rs:49-72 | The scalar fields of a snapshot, or the error code |
| NativeHandles.Context.ResultsAdditional | crates/libitofin-ffi/src/results_api.rs:81-114 | Length, value and key of one addition by the capacity-zero protocol |
| NativeHandles.Context.ReadAddition | sdk/go/results.go:43-57 | The two calls for an addition yield it, unless one panics |
| NativeHandles.Context.ReadFields | sdk/go/results.go:22-59 | Which error readResults returns, and on success exactly the snapshot's fields and additions |
| NativeHandles.Context.ReadResults | sdk/go/results.go:20-60 | Success exactly if the context is usable, the handle a snapshot with a valid date and no call panics; the net effect on the object table on every path |
| NativeHandles.Context.ContextFree | crates/libitofin-ffi/src/boundary.rs:235-250 | Frees every object, poisoned or not |
| HandleTheorems.TaskBalanced | sdk/go/bootstrap.go:68-83 | Every task keeps the balance of created, held and deleted handles |
| HandleTheorems.EachHandleDeletedOnce | sdk/go/bootstrap_callbacks.go:75-76 | Over every run each cgo handle is deleted at most once, undeleted exactly while an object keeps it, and exactly once after the context is freed |
| HandleTheorems.NeverReborn | sdk/go/session.go:164-166 | Handle numbers never come back |
| HandleTheorems.LateCloseIsHarmless | sdk/go/session.go:164-170 | Closing a copy later, whatever the first close answered and whatever ran in between, changes nothing |
| HandleTheorems.ClosesInAnyOrder | sdk/go/session.go:155-177 | Any copies closed in any order, any number of times, drop exactly those objects, and none once the context is poisoned or freed |
| HandleTheorems.ReadConsumes | sdk/go/results.go:19-21 | The snapshot handle is released exactly if the context is usable and no call panics; otherwise the poisoned context keeps it until freed |
| HandleTheorems.ResultsLeaveNoHandle | sdk/go/options.go:126-142 | Results leaves the object table as it was |
| ErrorText.ErrorRecord.Fail | sdk/go/bootstrap_callbacks.go:14-28 | What a C string reader finds: the text cut to fit, NULs replaced; a text that fits and has no NUL comes back unchanged |
| ErrorText.ReadToTerminator | crates/libitofin-ffi/src/bootstrap_callbacks.rs:131-136 | Reading up to the first NUL returns the stored text |
| RemoteTags.RemoteCommit | scripts/publish_go_release.py:24-40 | The loop computes the resolution and ends on every object graph |
| RemoteTags.ResolvesWithinSeven | scripts/publish_go_release.py:33-40 | A tag resolves to a commit exactly if at most seven dereferences lead to it; missing tags are no error, all other chains, cyclic ones included, are |
| PublisherIdentity.IdentifiedExactly | scripts/publish_go_release.py:43-61 | archive_identity accepts exactly archives with one regular member of the release's name whose lines each have a "=", repeat no key, and include the version, the revision and the platform |
| PublisherIdentity.OneIdentity | scripts/publish_go_release.py:43-61 | Under one file name no archive is accepted for two versions, revisions or platforms |
| PublisherIdentity.TwoNamesTwoIdentities | scripts/publish_go_release.py:44-48 | Under two names it can be |
| PublisherIdentity.ClearedExactly | scripts/publish_go_release.py:71-89 | The first checks pass exactly for the checkout of a published core release, declared module, tag leading to its commit within seven dereferences, and no Go tag of another commit |
| PublisherIdentity.PublishesExactlySound | scripts/publish_go_release.py:70-140 | Publishing implies, and on a server that keeps uploads an uninterrupted run publishes exactly under, those checks and sound files of both platforms, local and attached: manifests as above, checksums whose words are digest and name |
| PublisherIdentity.PublishedRemote | scripts/publish_go_release.py:90-139 | The whole remote after a run that published: exactly the lacking files, tag and notes are added, with their names and texts |
| PublisherIdentity.PublishedReceipt | scripts/publish_go_release.py:102-140 | What it returns: version, revision, Go tag, and the digests of the attached archives under their names |
| PublisherIdentity.PublishedIsSound | scripts/publish_go_release.py:94-121 | All four attached files are sound afterwards |
| PublisherRun.GitHub.Examine | scripts/publish_go_release.py:95-112 | The checks for one platform, and which files it would upload |
| PublisherRun.GitHub.AttachPlatform | scripts/publish_go_release.py:94-118 | One platform's uploads, or where the run ends |
| PublisherRun.GitHub.Check | scripts/publish_go_release.py:71-89 | The checks before the first write |
| PublisherRun.GitHub.Tag | scripts/publish_go_release.py:122-126 | Creates the Go tag only if missing |
| PublisherRun.GitHub.Note | scripts/publish_go_release.py:127-139 | Adds the notes only if missing |
| PublisherRun.GitHub.Publish | scripts/publish_go_release.py:70-140 | publish, stopped anywhere, ends in the specified remote and verdict |
| PublisherTheorems.Phases | scripts/publish_go_release.py:90-139 | After any number of writes: a prefix of the uploads, or all of them with both platforms attached and then tag and notes |
| PublisherTheorems.OnlyAdds | scripts/publish_go_release.py:71-126 | No write when a check fails; no tag moved, no asset replaced, and the Go tag only with all four assets attached, on any server |
| PublisherTheorems.StaysCleared | scripts/publish_go_release.py:80-89 | A run never makes the checks fail for another checkout of the release |
| PublisherTheorems.OrphanChecksumBlocks | scripts/publish_go_release.py:100-101 | A checksum without archive blocks every later run, and no run removes it |
| PublisherSuccess.MisfitBlocks | scripts/publish_go_release.py:94-118 | Whatever the misfit among the attached files, no run on any server publishes, and the files still do not fit after it |
| PublisherSuccess.MisfitBlocksForGood | scripts/publish_go_release.py:94-118 | So over any history of the release's runs, each against a server that loses what it likes, nothing is ever published |
| PublisherTheorems.EveryStateFits | scripts/publish_go_release.py:94-118 | In every intermediate state each checksum fits its archive and none is without one |
| PublisherTheorems.Completes | scripts/publish_go_release.py:90-140 | From fitting assets a run with valid archives publishes, within six writes, with the digests of the published archives |
| PublisherSuccess.AttachedMeansKept | scripts/publish_go_release.py:94-121 | All four files are attached in the end only if the server kept every upload of the run |
| PublisherSuccess.PublishesExactly | scripts/publish_go_release.py:70-140 | On any server and stopped anywhere, a run publishes exactly if the first checks pass, the attached files fit, the local archives are valid, its uploads are kept and its last write is not cut off |
| PublisherSuccess.PublishesIffFits | scripts/publish_go_release.py:70-140 | On a server that keeps uploads a run that is not stopped publishes exactly if the first checks pass, the attached files fit and the local archives are valid |
| PublisherSuccess.PublishedMeansComplete | scripts/publish_go_release.py:119-140 | A run that published, on whatever server, left fitting files of both platforms, the tag on the commit and the notes, and returned the digests of the published archives |
| PublisherTheorems.CrashesDoNotMatter | scripts/publish_go_release.py:90-140 | After any number of crashed runs with differently built archives, a run with valid archives completes |
| PublisherTheorems.HistoryFits | scripts/publish_go_release.py:90-118 | Assets fit throughout any such history |
| PublisherSuccess.SecondRunIsQuiet | scripts/publish_go_release.py:102-140 | After a run that published, on whatever server, every further run on whatever server writes nothing, and returns the same result exactly if its local archives are valid |
| Decimal.StrReads | scripts/gen_sobol_tables.py:59 | A printed number is a token and reads back |
| Decimal.StrInjective | scripts/gen_sobol_tables.py:86 | Different numbers print differently |
| Decimal.ReadNumber | scripts/gen_sobol_tables.py:59 | The tokenizer takes a number whole, whatever follows |
| TableText.FormatValues | scripts/gen_sobol_tables.py:82-87 | The loop prints lines of sixteen |
| TableText.LineAt | scripts/gen_sobol_tables.py:82-87 | Line k prints the values from place 16 k on, sixteen of them but for the last line |
| TableText.ReadFormatted | scripts/gen_sobol_tables.py:55-87 | Tokenizing printed values gives exactly the values |
| TableText.FormattedLength | scripts/gen_sobol_tables.py:82-87 | The exact printed length in terms of the estimate and the line count |
| TableSplit.EntryBytes | scripts/gen_sobol_tables.py:106 | The loop computes the estimate |
| TableSplit.SplitEntries | scripts/gen_sobol_tables.py:103-113 | All entries in order, in parts that fit or are single, each part full before the next starts |
| TableSplit.GreedyIsShortest | scripts/gen_sobol_tables.py:103-113 | No cut of a nonempty table into fitting parts has fewer parts |
| TableSplit.PartIsSlice | scripts/gen_sobol_tables.py:103-113 | Parts are consecutive stretches of the entries |
| TableFiles.FileSize | scripts/gen_sobol_tables.py:93-97 | The exact size of a generated file |
| TableFiles.OnlyOversizedEntriesFail | scripts/gen_sobol_tables.py:93-132 | A data file is rejected only if it is one entry over the estimate's limit |
| TableFiles.OffsetsFileSmall | scripts/gen_sobol_tables.py:97-137 | The exact condition for the offsets file |
| TableFiles.OffsetsFileFits | scripts/gen_sobol_tables.py:133-137 | It fails for very many entries and never for few |
| TableFiles.OffsetsArePrefixSums | scripts/gen_sobol_tables.py:117-120 | Offset k is the number of values before entry k |
| TableFiles.EntriesReadBack | scripts/gen_sobol_tables.py:55-143 | Reading the parts back and slicing at two offsets gives the entry |
| TableFiles.NoEntryStraddles | scripts/gen_sobol_tables.py:116-132 | Every entry lies within one part |
| TableFiles.ModulesDiffer | scripts/gen_sobol_tables.py:125-137 | Files of one table have different names |
| TableFiles.NumbersOfFile | scripts/gen_sobol_tables.py:127-137 | The text between the brackets of a generated file, tokenized, is the array's values |
| TableFiles.FilesReadBack | scripts/gen_sobol_tables.py:116-137 | The entries are read back from the written files alone: the data files' numbers in order, cut at the numbers of the offsets file |
| TableFiles.SumLengths | scripts/gen_sobol_tables.py:117-120 | The loop computes the offsets |
| TableFiles.Output.WriteFile | scripts/gen_sobol_tables.py:93-100 | The file is written, then found too large or not |
| TableFiles.Output.EmitInitializerTable | scripts/gen_sobol_tables.py:116-143 | Which files are written, under which names, in which order and with which text: all of them, and then the entries can be read back from them, or those up to and with the first that is too large, where the run exits |
| StubText.SplitReadsJoined | crates/itofin-py/scripts/gen_stubs.py:65-106 | splitlines undoes joining |
| StubText.ReplaceClass | crates/itofin-py/scripts/gen_stubs.py:67-91 | The dictionary entries for one enum class, or the error |
| StubText.RewriteEnums | crates/itofin-py/scripts/gen_stubs.py:63-98 | The loops compute the rewritten lines |
| StubText.Process | crates/itofin-py/scripts/gen_stubs.py:101-106 | The loops of post_process compute its specification |
| StubTextLines.ConstructorRewritten | crates/itofin-py/scripts/gen_stubs.py:53-60 | A constructor line becomes an `__init__` line with its indent and its parameters, whatever they are, and no return type |
| StubTextLines.RewrittenIsConstructor | crates/itofin-py/scripts/gen_stubs.py:53-60 | Only lines of that shape are rewritten |
| StubTextLines.StripsBlanks | crates/itofin-py/scripts/gen_stubs.py:103 | Stripping takes off exactly the trailing white space |
| StubTextTheorems.RewrittenOnce | crates/itofin-py/scripts/gen_stubs.py:56-60 | A rewritten constructor is another line and no constructor any more |
| StubTextTheorems.TidyTwice | crates/itofin-py/scripts/gen_stubs.py:103 | A line is settled after one pass exactly if trailing blanks hid no constructor |
| StubTextTwice.PostProcessTwice | crates/itofin-py/scripts/gen_stubs.py:101-106 | post_process is idempotent on a text exactly if in its expanded lines, glued as dropping the import glues them, none hides a constructor behind trailing blanks, and either a mention of enum is left or no import of it stands before the last line that is not blank |
| StubTextTheorems.CleanLinesHideNothing | crates/itofin-py/scripts/gen_stubs.py:103 | Lines that have no trailing blanks when they are tidied, after classes and imports are rewritten, hide no constructor |
| StubTextTwice.CleanTextHidesNothing | crates/itofin-py/scripts/gen_stubs.py:92-103 | If no line of the text has trailing blanks and each that ends in the import is just that, no constructor is hidden, whatever is glued |
| StubTextTwice.CleanTextTwice | crates/itofin-py/scripts/gen_stubs.py:92-106 | On such a text post_process is idempotent exactly unless it mentions enum outside its enum classes, but only in annotations that the rewriting discards, and an import of enum precedes a line that is not blank |
| StubTextExamples.HiddenConstructor | crates/itofin-py/scripts/gen_stubs.py:53-60 | Texts with a trailing blank on which a second post_process changes the result |
| StubTextExamples.GluedConstructor | crates/itofin-py/scripts/gen_stubs.py:96-103 | Texts without trailing blanks on which it does, because gluing makes one |
| StubTextExamples.ImportOutlivesItsUse | crates/itofin-py/scripts/gen_stubs.py:96-97 | Clean texts on which it does, because the import outlives its last use |
| StubTextTheorems.MergeDropsImports | crates/itofin-py/scripts/gen_stubs.py:96-97 | Where lines ending in the import are just that, exactly those lines go |
| StubTextTheorems.ImportFromIsGlued | crates/itofin-py/scripts/gen_stubs.py:97 | Otherwise two lines are glued together |
| StubTextTheorems.KeptByMerge | crates/itofin-py/scripts/gen_stubs.py:96-97 | Lines that neither are nor follow an import come through |
| StubTextPlaces.OrdinaryLinesKept | crates/itofin-py/scripts/gen_stubs.py:92-106 | Lines that are no enum header, member or constructor, have no trailing blanks and are not at an import of enum are all in the result, unchanged, in order and as often, blank ones included up to its end |
| StubTextResult.LinesComeOut | crates/itofin-py/scripts/gen_stubs.py:92-106 | Every line away from imports of enum, or each part of what replaces it, is in the result at its place, tidied, unless it is blank and at the end |
| StubTextResult.PlacesInOrder | crates/itofin-py/scripts/gen_stubs.py:92-106 | These places are in the order of the lines, and parts of one line follow each other |
| StubTextResult.ConstructorComesOut | crates/itofin-py/scripts/gen_stubs.py:53-106 | A constructor of the text is in post_process's result as an `__init__` with its parameters |
| StubTextResult.HeaderComesOut | crates/itofin-py/scripts/gen_stubs.py:74-106 | An enum class's header is in the result as the class without base |
| StubTextResult.MemberComesOut | crates/itofin-py/scripts/gen_stubs.py:78-106 | A member is in the result as a class variable of the class |
| StubTextResult.InsertedComeOut | crates/itofin-py/scripts/gen_stubs.py:87-106 | Below the last member stand the three inserted lines, with the class's name |
| StubTextTheorems.EnumGetsLines | crates/itofin-py/scripts/gen_stubs.py:84-91 | Each enum's last member line gets the three inserted lines |
| StubTextTheorems.UnconstructibleSurvives | crates/itofin-py/scripts/gen_stubs.py:87-91 | The inserted constructor is in the final text |
| StubTree.Describe | crates/itofin-py/scripts/gen_stubs.py:140-150 | Each path is reported new, orphaned or stale exactly if it is |
| StubTree.NoChangeMeansEqual | crates/itofin-py/scripts/gen_stubs.py:140-150 | Nothing is reported exactly if the snapshots are equal |
| StubTree.Tree.PostProcessGenerated | crates/itofin-py/scripts/gen_stubs.py:121-128 | Exactly the marked stubs are processed; where post_process raises, exactly those before the first stub, in the order of paths, at which it does |
| StubTree.Tree.Restore | crates/itofin-py/scripts/gen_stubs.py:131-137 | All stubs are as in the snapshot, other files untouched |
| StubTree.Tree.RunShims | crates/itofin-py/scripts/gen_submodule_shims.py:71-95 | Exit code and new tree; check mode changes nothing |
| StubTree.Tree.RunScript | crates/itofin-py/scripts/gen_stubs.py:153-176 | Exit code and tree of both modes; check mode restores everything unless post_process raises |
| StubTreeTheorems.ShimRunExactly | crates/itofin-py/scripts/gen_submodule_shims.py:57-95 | After a writing shim run: a shim in each directory with a stub, marked sources without one gone, all else as it was |
| StubTreeTheorems.NeededExactly | crates/itofin-py/scripts/gen_submodule_shims.py:71-95 | It reports a change exactly if it makes one |
| StubTreeTheorems.WriteRunExactly | crates/itofin-py/scripts/gen_stubs.py:121-176 | The whole tree after a writing run, file by file: stubs generated over the old ones and post-processed if marked, shims as above, all else as it was |
| StubTreeTheorems.ExitMeansChanged | crates/itofin-py/scripts/gen_stubs.py:153-176 | The exit code is 1 exactly if a writing run changes the tree |
| StubTreeTheorems.RaisingKeepsExactly | crates/itofin-py/scripts/gen_stubs.py:121-166 | A raising run leaves the tree as it was exactly if all generated stubs were there, those before the raising one are processed to their old text and the others had their raw text |
| StubTreeTheorems.Check | crates/itofin-py/scripts/gen_stubs.py:153-166 | Check mode on any tree leaves it as it was exactly if post-processing raises nowhere or that condition holds |
| StubTreeTheorems.RaisingCheckLeavesStubs | crates/itofin-py/scripts/gen_stubs.py:153-166 | A check that raises leaves every generated stub; the tree has changed if one was not there before or the raising stub's raw text is new |
| StubTreeTheorems.CheckThatChanges | crates/itofin-py/scripts/gen_stubs.py:75-77 | Checking a package whose stub has an enum without members raises in post_process and replaces the committed stub by the raw one, whatever was committed |
| StubTreeTheorems.HandWrittenFilesKept | crates/itofin-py/scripts/gen_stubs.py:121-176 | A writing run keeps every file that carries no marker and is neither written by the generator nor the shim of a submodule |
| StubTreeTheorems.CheckAgreesWithWrite | crates/itofin-py/scripts/gen_stubs.py:153-176 | Check and write mode return the same code from any tree |
| StubTreeTheorems.ShimsConverge | crates/itofin-py/scripts/gen_submodule_shims.py:57-95 | A second shim run has nothing to do |
| StubTreeTheorems.StubsUntouched | crates/itofin-py/scripts/gen_submodule_shims.py:71-87 | Shim runs touch no stub |
| StubTreeTheorems.ShimFollowsStub | crates/itofin-py/scripts/gen_submodule_shims.py:57-68 | A written shim is an orphan once its stub is gone |
| StubTreeTheorems.SecondRunIsClean | crates/itofin-py/scripts/gen_stubs.py:153-176 | After a writing run a second one changes nothing exactly if leftover stubs are stable |
| StubTreeTheorems.LeftoversOfPostProcess | crates/itofin-py/scripts/gen_stubs.py:101-128 | With post_process as it is, leftovers are stable exactly if the lines of each that keeps its marker meet the condition of PostProcessTwice |
| TypingGate.Normalize | crates/itofin-py/scripts/check_typing.py:27-32 | The counter is the multiset of normal forms; an error exactly for a file outside the root |
| TypingGate.ExpectedDiagnostics | crates/itofin-py/scripts/check_typing.py:35-65 | Succeeds exactly for well-formed baselines, with baseline minus removals |
| TypingGate.ExpectedOccurrences | crates/itofin-py/scripts/check_typing.py:35-65 | With distinct ids, the expected count of each diagnostic |
| TypingGate.Compare | crates/itofin-py/scripts/check_typing.py:68-73 | actual plus missing equals expected plus added, with nothing in both |
| TypingGate.Gate | crates/itofin-py/scripts/check_typing.py:82-119 | Exit code 0 exactly if the report is the expected multiset, 2 exactly on errors |
| TypingGate.OrderDoesNotMatter | crates/itofin-py/scripts/check_typing.py:28-32 | Reordered reports normalize alike |
| TypingGate.MessageWordsKept | crates/itofin-py/scripts/check_typing.py:31 | White space normalization keeps the words and is idempotent |
| TypingReports.WellFormedExactly | crates/itofin-py/scripts/check_typing.py:35-65 | The accepted baselines: positive whole counts, no record or removal twice, every removal excused (a precision loss by a numbered issue), with a reason and evidence, and within what was reviewed |
| TypingReports.TidiedExactly | crates/itofin-py/scripts/check_typing.py:31 | Normalizing leaves a message alone exactly if its white space is single blanks between words |
| TypingReports.PassesExactly | crates/itofin-py/scripts/check_typing.py:27-73 | A report passes exactly if it shows every diagnostic, by path, severity, rule and words, as often as reviewed and not removed |
| TypingReports.ListedExactly | crates/itofin-py/scripts/check_typing.py:27-73 | Without removals: exactly the reports that list each record as often as it says, and nothing else |
| TypingReports.OneChange | crates/itofin-py/scripts/check_typing.py:27-32 | Changing one diagnostic of a passing report makes it fail, unless only white space in the message changes or a missing rule becomes an empty one |
| TypingReports.IssueNumber | crates/itofin-py/scripts/check_typing.py:53-56 | An accepted follow-up is the issue tracker's address and a positive number |
| TypingReports.NumberedIssue | crates/itofin-py/scripts/check_typing.py:53-56 | And each such address is accepted |
| Dimensions.ProductIsExact | sdk/go/simulation.go:64-69 | checkedProduct succeeds exactly for nonnegative factors whose product fits, and never wraps |
| Dimensions.DefaultCorrelation | sdk/go/simulation.go:109-114 | The default is the identity matrix |
| Dimensions.BadInputs | sdk/go/simulation.go:73-85 | The inputs that are refused before any size is computed |
| Dimensions.BadSizes | sdk/go/simulation.go:86-117 | The sizes and correlation shapes that are refused: more values than the limit, more bytes than an int counts, not n by n |
| Dimensions.OutputCount | sdk/go/simulation.go:86-107 | The count is computed exactly if it is within the limits |
| Dimensions.SimulateGBM | sdk/go/simulation.go:73-135 | A simulation has paths times times times assets cells within the limit; refused exactly for bad inputs, sizes, shapes, or by the library |
| Dimensions.Draw | sdk/go/rng_sequence.go:77-98 | A draw succeeds exactly if the true product is within the limit and the library accepts; it returns the library's values |
| Grids.Flatten | sdk/go/volgrid.go:83-97 | Success exactly for rectangular grids, in row-major order |
| Grids.InflationMatrix | sdk/go/inflation_volgrid.go:26-38 | The same, nonempty |
| Grids.FlattenQuotes | sdk/go/volgrid.go:101-116 | The same for quotes without nil, with the dependencies in order |
| Grids.CubeNodes | sdk/go/volcube.go:44-48 | The node count is exact or refused |
| Grids.VolCube | sdk/go/volcube.go:44-79 | Both quote buffers and the dependency list of a cube |
| Grids.ReshapeUndoes | sdk/go/volgrid.go:83-97 | A buffer is row-major for a grid exactly if reshaping it gives the grid |
| Grids.OneBuffer | sdk/go/volgrid.go:83-97 | A grid has one row-major buffer |
| Grids.VolGrid | sdk/go/volgrid.go:28-133 | Accepts exactly nonempty axes with grids of their shape and no nil quote, option dates only with fixed swaption numbers; quotes or numbers in row-major order, never both; the count passed on is the buffer's length |
| Periods.KeyIsCanonical | sdk/go/time.go:126-138 | The key keeps the span and is idempotent, for all int32 lengths |
| Periods.EqualMeansSameSpan | sdk/go/time.go:139 | Equal exactly if the spans are equal; an equivalence |
| BootstrapCallbacks.Thread.TryMutation | crates/itofin-py/src/bootstrap.rs:35-42 | A mutation is allowed exactly if no guard is alive |
| BootstrapCallbacks.Thread.RunDates | crates/itofin-py/src/bootstrap.rs:129-144 | The date closure resets the count and runs its callback under a guard |
| BootstrapCallbacks.Thread.RunPenalties | crates/itofin-py/src/bootstrap.rs:151-175 | The penalty closure accepts exactly finite residuals of the recorded length |
| BootstrapCallbacks.Thread.Judge | crates/itofin-py/src/bootstrap.rs:163-174 | A rejected result leaves the count unchanged |
| BootstrapCallbacks.Thread.Execute | crates/itofin-py/src/bootstrap.rs:16-42 | Depth and counts follow the history through all nestings |
| BootstrapCallbacks.GuardsBalance | crates/itofin-py/src/bootstrap.rs:22-33 | Guards are balanced after any events |
| BootstrapCallbacks.RejectedExactly | crates/itofin-py/src/bootstrap.rs:151-175 | Over every nesting: a result is rejected exactly if it raised, has a residual that is not finite, or has another number of them than one accepted since the last date reset |
| BootstrapCallbacks.CallbackRules | crates/itofin-py/src/bootstrap.rs:16-176 | Over every nesting: mutations exactly without guard, accepted residuals finite and of one length between date resets |
| BootstrapCallbacks.MutationsByPlace | crates/itofin-py/src/bootstrap.rs:35-42 | Code inside a callback never mutates, code outside always may |

## Left out

- Goroutines: the session's interleavings are a transition system over values, since Dafny has no concurrent methods; `SessionMachine` updates the same state in place one step at a time, so aliasing of one Session by many goroutines is expressed by the schedule.
- Gate fairness: RLock is blocked while a writer waits or holds, as the documentation of sync.RWMutex says; which waiting goroutine gets the gate next is left open.
- Session start: `NewSession` that fails, and calls on a nil Session, which return at once.
- SessionProgress.NeverStuck: there and in EveryScheduleReturns a callback waits only for calls issued while it runs, from whatever goroutine; SessionCallbacks.ReturnsDuringCallback says which other calls it could wait for and which it would wait for in vain.
- OptionCalls.SplitCallsExactly: other library operations that run in between may do anything but change or release this option's engine.
- cgo pinning, unsafe pointers, OS-thread locking, Python's GIL and Go finalizers: matters of the foreign runtimes.
- Native calls: allocation failure, misaligned pointers and wrong-thread errors of the FFI; handles of a wrong type, which the typed wrappers exclude.
- HandleTheorems.EachHandleDeletedOnce: reference counting among native nodes is the set of handles each object keeps alive; cycles of native nodes are not modelled.
- Publisher transport: a failing `gh` or HTTP call is a stop before the next write; downloads deliver what is attached; the notes' wording and the reading of tar, JSON and SHA-256 are parameters.
- PublisherTheorems.EveryStateFits: needs a server that keeps what it accepts; MisfitBlocksForGood shows why.
- `gen_sobol_tables.py`: reading the C++ sources, polynomials, lattices, `mod.rs`, the statics text and the final rustfmt; `\d` beyond ASCII digits.
- StubTextTwice.PostProcessTwice: assumes that the rewritten text, which has no enum header left, parses to no enum class, and that class and member names are identifiers; Python's parser itself is a parameter.
- White space and case beyond the ASCII white space that `split`, `strip` and `rstrip` treat alike.
- The stub generator: it writes a fixed set of stubs; its failure, which exits with 2 before any restore, and the order in which changes are reported, are not modelled. Neither is the wording of a shim.
- `check_typing.py`: records with missing fields, the subprocess that runs Pyright, and the printed reports.
- Dimensions.SimulateGBM: doubles are reals, NaN or infinite; rounding plays no part in the sizes.
- Grids: the session check of the collected dependencies is `NativeHandles.Context.SameSession`; scalar axis arrays are copied element by element and left out.
- BootstrapCallbacks: a missing callback is one that does nothing and gives no values; extraction of Python values is part of how a callback ends.
- All pricing, curve, volatility and calibration mathematics, the random generators, calendars, configuration constructors, enum mirrors and example programs: simple forwarding, or source that is not part of this model.
