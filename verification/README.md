# Verification of the pkg-config parser and of the SPDK callback protocol

A Dafny model of two parts of the repository, and proofs about them.

**The pkg-config parser** (`pkgconf/src/lib.rs`). `LinkSpec.dfy` says what a link line means by
looking at the whole token stream at once; `LinkParser.dfy` is the single pass of the source, which
keeps a set of seen names and a map of indices and reaches back to promote entries it has already
emitted; `LinkRefinement.dfy` proves that the pass computes the meaning, and `LinkTheorems.dfy`
proves what the meaning promises. `LinkText.dfy` describes every output from the text alone: the token
behind each entry, their order, and what decides each library's kind. `LinkRules.dfy` takes the rules the source documents and says when
exactly the code meets each. `Tokens.dfy` and `Paths.dfy` model `str::split_whitespace` (over any
whitespace predicate) and `Path::starts_with` (by component). `Cflags.dfy` and `Directives.dfy` hold the compiler-flag parser and the two printers, each against its inverse. Whether an archive
exists in a directory is a fixed function of directory and file name.

**The callback-to-future and closure-ownership protocol** (`spdk-io/src`). `Protocol.dfy` is a
transition system: boxed senders and closures, oneshot channels, operations of the device, message
queues of threads and reactors, undispatched events, and receivers that may be polled or dropped at
any time. One action is one source function (a callback that runs a closure is two: it starts, it
ends), and all actions interleave freely. `ProtocolInvariant.dfy` holds the invariant,
`ProtocolTheorems.dfy` the theorems over all runs. `Runtime.dfy` has the source functions as methods
that update shared state in place, each proved to have the effect of its action (`Perform` and
`PerformAll` put them together: the methods simulate every run), and `BlockOn.dfy` the `block_on`
loop, which terminates whenever every wait for progress is finite. `Poller.dfy` has the poller
coroutines and `ThreadLib.dfy` the thread library's initialisation flag.

## Rules the code does not always meet

Each has a lemma for the exact condition and one for an input on which the rule fails. The
documentation states these:

- "An archive mentioned inside a region is linked whole" (`pkgconf/src/lib.rs:34-38`) is not what the
  code does for a library that `-pthread` introduced first: that entry stays `Default`
  (`WholeArchiveRule`, `WholeArchiveRuleFails`).
- Library names are documented as having no `lib` prefix and no `.a`/`.so` suffix
  (`pkgconf/src/lib.rs:115`); the code takes off one `lib` and one `.a`, only after `-l:`, and only
  when the `.a` is there (`PlainNameRule`, `PlainNameRuleFails`).
- `force_whole_archive` is documented to override the normal detection
  (`pkgconf/src/lib.rs:327-333`); the code forces a library only if its archive was detected, and
  never one that `-pthread` introduced (`ForceRule`, `ForceRuleFails`).
- The markers are documented as opening and closing regions (`pkgconf/src/lib.rs:518-524`); a `-Wl,`
  token with both closes the region, whatever their order in the token (`RegionRule`,
  `RegionRuleFails`).
- A boxed sender is to be rebuilt exactly once to avoid leaks (`spdk-io/src/complete.rs:39-40`); the
  sender of a refused submission never is, and no other box leaks (`LeaksAreRefusals`,
  `AllFreedUnlessRefused`, `RefusalLeaks`).

These are not documented, but a reader might count on them:

- "Parsing twice is parsing once" needs the regions to be closed at the end, or no `Static` library
  to be met again before one closes (`TwiceIsOnce`, `TwiceIsOnceFails`).
- Flags of different meaning print alike when a library's name itself starts with modifiers
  (`DirectivesCollide`, `DirectivesClash`).
- "The thread library is up only while a thread is alive" fails after a creation that started the
  library and then failed, until a creation succeeds (`StrandedRuns`, `NulNameStrandsLibrary`).

## Model

| member | source | states |
|---|---|---|
| `Tokens.SplitWhitespace` | pkgconf/src/lib.rs:537 | Every token is non-empty and free of whitespace |
| `Tokens.SplitSpells` | pkgconf/src/lib.rs:544 | The tokens, with blanks around and at least one between them, spell the input |
| `Tokens.SpellsIsSplit` | pkgconf/src/lib.rs:544 | No other token sequence spells the input |
| `Tokens.SplitAppend` | pkgconf/src/lib.rs:661 | Splitting distributes over a whitespace character |
| `Tokens.SplitJoin` | pkgconf/src/lib.rs:661 | Splitting words joined by spaces gives the words back |
| `Paths.ComponentsOfJoin` | pkgconf/src/lib.rs:511 | Components of a joined path are those of its parts, whatever slashes and dots they hold |
| `Paths.ChildIsUnder` | pkgconf/src/lib.rs:511 | Everything written below a directory is under that system root |
| `Paths.SiblingIsNotUnder` | pkgconf/src/lib.rs:511 | A directory whose last name is longer is not: `/usr2` is not under `/usr` |
| `Paths.ComponentsOfNames` | pkgconf/src/lib.rs:511 | A path of names between slashes has those names as components, `..` included, after the root if it begins with a slash |
| `Paths.RedundantPiece` | pkgconf/src/lib.rs:511 | Repeated slashes and `.` between slashes are no components |
| `LinkParser.LinkBuilder.constructor` | pkgconf/src/lib.rs:526-530 | The empty flags with empty caches satisfy the cache invariant |
| `LinkParser.LinkBuilder.HandleLibrary` | pkgconf/src/lib.rs:602-646 | A new name is appended with its kind; a repeated one changes nothing outside a region and promotes its `Static` entry inside; the seen set stays the set of names, every index stays in range and at its own entry, only `pthread` may lack one |
| `LinkParser.LinkBuilder.PushPthread` | pkgconf/src/lib.rs:584-590 | `-pthread` adds a `Default` entry unless the name is present, and gets no index |
| `LinkParser.LinkBuilder.PromoteOne` | pkgconf/src/lib.rs:613-619 | Promoting at the recorded index is promoting every entry of the name, and nothing when the entry is not `Static` |
| `LinkParser.HandleToken` | pkgconf/src/lib.rs:544-591 | The effect of one token on flags and region state |
| `LinkParser.CollectDirs` | pkgconf/src/lib.rs:536-541 | The first pass collects the `-L` directories of the whole stream, in order |
| `LinkParser.SecondPass` | pkgconf/src/lib.rs:543-593 | The pass with back-patching equals the whole-stream meaning, and library names are distinct |
| `LinkParser.Parse` | pkgconf/src/lib.rs:525-594 | For every text, configuration and archive oracle the result is the whole-stream meaning of its tokens |
| `LinkParser.RepeatedOutput` | pkgconf/src/lib.rs:543-593 | Repeating an output whose regions are closed changes no library |
| `LinkRefinement.OpenStep` | pkgconf/src/lib.rs:549-553 | The region flag is "some marker opened a region and none since closed it" |
| `LinkRefinement.EntriesOfSnoc` | pkgconf/src/lib.rs:611-621 | One more token changes the meaning of earlier ones only by promoting the library it mentions in an open region |
| `LinkRefinement.LibrariesOfEntries` | pkgconf/src/lib.rs:611 | A name is in the output exactly when a token introduced it |
| `LinkRefinement.LinkFlagsStep` | pkgconf/src/lib.rs:544-591 | Appending a token changes the whole-stream meaning exactly as one step of the pass |
| `LinkRefinement.ReplayIsMeaning` | pkgconf/src/lib.rs:543-593 | The fold of the steps is the whole-stream meaning |
| `LinkTheorems.LibrariesAreDeclared` | pkgconf/src/lib.rs:518-524 | The output's libraries are the introduced names, once each; `Default` iff by `-pthread` or without non-system archive, else `WholeArchive` iff forced or ever mentioned in a region, else `Static` |
| `LinkText.IntroducesIsSpells` | pkgconf/src/lib.rs:558-590 | A token introduces a library exactly when it is written `-l<name>`, `-l:lib<name>.a`, `-l:<name>.a`, `-l:<name>` without `.a`, or `-pthread` |
| `LinkText.OutputOrder` | pkgconf/src/lib.rs:543-593 | One entry for each `-L`, each argument passed on and each first writing of a library, in token order, each being what its token writes |
| `LinkText.SearchPathRule` | pkgconf/src/lib.rs:545-546 | The search paths are the texts behind `-L` |
| `LinkText.LinkerArgRule` | pkgconf/src/lib.rs:554-557 | The arguments passed on are the `-Wl,` tokens with `export-dynamic` or `as-needed` |
| `LinkText.LibraryRule` | pkgconf/src/lib.rs:602-646 | The libraries are the names written, each once |
| `LinkText.KindRule` | pkgconf/src/lib.rs:623-637 | Each kind: `Default` iff `-pthread` came first or no `-L` directory outside the system roots holds the archive; else `WholeArchive` iff forced or written in an open region |
| `LinkText.SystemArchivesIgnored` | pkgconf/src/lib.rs:506-514 | A library whose archives all lie under system roots is `Default` |
| `LinkText.OneArchiveCounts` | pkgconf/src/lib.rs:506-514 | One archive outside the roots is enough, whichever directory holds it |
| `LinkText.ForcedIsWhole` | pkgconf/src/lib.rs:628-632 | A forced library with an archive is `WholeArchive` wherever it is written |
| `LinkText.BelowRootIsDefault` | pkgconf/src/lib.rs:511-512 | With all directories below a system root every library is `Default` |
| `LinkText.BesideRootCounts` | pkgconf/src/lib.rs:511-512 | An archive in `/usr2` counts when `/usr` is the root |
| `LinkRules.WholeArchiveRule` | pkgconf/src/lib.rs:34-38 | An available library mentioned in a region is linked whole if and only if `-pthread` did not introduce it |
| `LinkRules.WholeArchiveRuleFails` | pkgconf/src/lib.rs:584-590 | A parse, its archive found through the stream's own `-L`, on which the documented rule fails |
| `LinkRules.ForceRule` | pkgconf/src/lib.rs:327-333 | A library of the force set is linked whole iff its archive was detected and `-pthread` did not introduce it; outside the set only a mention in a region does it |
| `LinkRules.ForceRuleFails` | pkgconf/src/lib.rs:627-641 | A parse whose forced library is left to the linker |
| `LinkRules.ExplicitNameOfArchive` | pkgconf/src/lib.rs:559-565 | `-l:lib<name>.a` and `-l<name>` are the same library |
| `LinkRules.ExplicitNameKept` | pkgconf/src/lib.rs:561-565 | The text after `-l:` is kept whole, `lib` included, exactly when it lacks the `.a` suffix |
| `LinkRules.PlainMention` | pkgconf/src/lib.rs:559-576 | A token's library name is free of `lib`, `.a` and `.so` iff the token is written in one of the plain ways |
| `LinkRules.PlainNameRule` | pkgconf/src/lib.rs:115 | All names of an output are plain iff all library tokens are plainly written |
| `LinkRules.PlainNameRuleFails` | pkgconf/src/lib.rs:561-565 | A parse whose library is named `libfoo.so` |
| `LinkRules.LastMarkerRule` | pkgconf/src/lib.rs:549-553 | The region flag after a token is that of the token's last marker iff the token does not hold both with `--whole-archive` last |
| `LinkRules.RegionRule` | pkgconf/src/lib.rs:549-553 | Throughout a stream the region flag is that of the last marker iff no token is of that form |
| `LinkRules.RegionRuleFails` | pkgconf/src/lib.rs:549-553 | A parse whose library follows a last `--whole-archive` and comes out `Static` |
| `LinkTheorems.ForceIsMonotone` | pkgconf/src/lib.rs:628-632 | Forcing more libraries keeps names and order and only turns newly forced `Static` entries into `WholeArchive` |
| `LinkTheorems.RootsAreMonotone` | pkgconf/src/lib.rs:506-514 | More system roots keep names and order and only turn kinds into `Default` |
| `LinkTheorems.ReadingOnGrows` | pkgconf/src/lib.rs:544-593 | With fixed directories more tokens only append; an entry keeps position and name and can only go from `Static` to `WholeArchive` |
| `LinkTheorems.LibrariesOfStep` | pkgconf/src/lib.rs:602-646 | The library subsequence evolves independently of the other flags |
| `LinkTheorems.DirsMayMove` | pkgconf/src/lib.rs:536-541 | Streams with the same other tokens and the same set of `-L` directories give the same libraries, order and kinds |
| `LinkTheorems.TwiceIsOnce` | pkgconf/src/lib.rs:543-593 | The stream twice over gives the libraries of the stream once iff no `Static` one is met again in a region left open; in particular when all are closed |
| `LinkRules.TwiceIsOnceFails` | pkgconf/src/lib.rs:543-593 | A stream whose second copy changes a kind |
| `Cflags.ParseCflags` | pkgconf/src/lib.rs:657-685 | The flags of the first occurrences of the `-I`/`-D` tokens; printing them gives those tokens character for character |
| `Cflags.ArgOfFlag` | pkgconf/src/lib.rs:229-238 | Printing a parsed token gives its text back |
| `Cflags.FlagOfArg` | pkgconf/src/lib.rs:229-238 | Parsing a printed flag gives it back iff a macro name holds no `=` |
| `Cflags.FlagText` | pkgconf/src/lib.rs:661-681 | `-I<path>`, `-D<key>=<value>` and `-D<key>` are the include path, the macro with value and the macro without |
| `Cflags.ParsedText` | pkgconf/src/lib.rs:657-685 | A flag is parsed exactly when its text is among the tokens, and no macro name holds `=` |
| `Cflags.FirstFlagsMeaning` | pkgconf/src/lib.rs:655 | De-duplication keeps exactly the flag tokens, none twice, in order of first occurrence |
| `Cflags.ParsedFlagsDiffer` | pkgconf/src/lib.rs:655 | The parsed flags are pairwise different |
| `Cflags.NormalForm` | pkgconf/src/lib.rs:256-258 | Parsing the printed flags joined by spaces gives the same flags |
| `Directives.DirectiveText` | pkgconf/src/lib.rs:152-183 | The printed text of every directive, for both values of `no_bundle` |
| `Directives.DirectiveDecodes` | pkgconf/src/lib.rs:152-183 | A directive reads back as its flag iff the flag is no `Default` library named like modifiers and a name |
| `Directives.DirectivesCollide` | pkgconf/src/lib.rs:152-183 | Different flags print alike iff one is that spelling of the other |
| `Directives.DirectivesClash` | pkgconf/src/lib.rs:152-183 | Two flags that print alike |
| `Directives.DirectiveListDecodes` | pkgconf/src/lib.rs:264-269 | A list reads back iff it holds no such name |
| `Directives.ParsedDirectivesDecode` | pkgconf/src/lib.rs:264-269 | What the parser emits reads back when no `-l` token names a library with `=` |
| `ProtocolInvariant.SubmitInv` | spdk-io/src/bdev.rs:259-279 | A submission, accepted or refused, keeps the invariant and adds exactly one box, at the device or leaked, and one channel, its receiver dropped iff refused |
| `ProtocolInvariant.CompleteIoInv` | spdk-io/src/bdev.rs:348-363 | A completion keeps the invariant and ends exactly the box it was given |
| `ProtocolInvariant.PollRxInv` | spdk-io/src/complete.rs:83-90 | Polling a receiver keeps the invariant and every box, and touches no other receiver |
| `ProtocolInvariant.SendInv` | spdk-io/src/thread.rs:563-597 | Sending a closure keeps the invariant and appends it to the target's queue |
| `ProtocolInvariant.NewEventInv` | spdk-io/src/event.rs:166-193 | Creating an event, failure included, keeps the invariant |
| `ProtocolInvariant.CallEventInv` | spdk-io/src/event.rs:201-209 | Dispatching keeps the invariant, takes the event away and moves its closure to the end of the reactor's queue |
| `ProtocolInvariant.DropEventInv` | spdk-io/src/event.rs:272-294 | Dropping an undispatched event keeps the invariant, takes the event away and ends its closure unsent |
| `ProtocolInvariant.BeginInv` | spdk-io/src/thread.rs:611-616 | Starting a message keeps the invariant and takes the front of the queue |
| `ProtocolInvariant.FinishInv` | spdk-io/src/event.rs:299-304 | The end of a closure keeps the invariant and ends its box |
| `ProtocolInvariant.StepInv` | spdk-io/src/complete.rs:34-71 | Every action of every participant keeps the invariant, changes one box at most and no other receiver; only sends and dispatches post a message, only a callback takes one |
| `ProtocolInvariant.RunInv` | spdk-io/src/complete.rs:34-71 | Every interleaving keeps the invariant |
| `ProtocolTheorems.NoMisuse` | spdk-io/src/complete.rs:45-54 | In every run no pointer is rebuilt that is not a live box; each box and bdev_io is freed at most once, each closure runs at most once, only where addressed |
| `ProtocolTheorems.LinearOwnership` | spdk-io/src/complete.rs:34-54 | In every run no two foreign places hold the same box, and a box is held iff it is live, not executing and not leaked |
| `ProtocolTheorems.FirstPoll` | spdk-io/src/complete.rs:83-90 | A fresh receiver is pending iff its sender lives; then its first poll gives what was sent, and `Cancelled` iff the sender was dropped unsent |
| `ProtocolTheorems.SecondPoll` | spdk-io/src/complete.rs:83-90 | A receiver polled again after its first outcome is `Cancelled` |
| `ProtocolTheorems.ResultHasCause` | spdk-io/src/complete.rs:56-70 | Every result was produced earlier in the run by the callback of its own box |
| `ProtocolTheorems.SubmissionOutcome` | spdk-io/src/bdev.rs:259-279 | The receiver of an accepted submission sees only the completion of its own operation, and never `Cancelled` |
| `ProtocolTheorems.CallOutcome` | spdk-io/src/thread.rs:584-597 | The receiver of `call` sees exactly what its closure returned, run on the target thread |
| `ProtocolTheorems.EventFate` | spdk-io/src/event.rs:166-209 | Every event closure, replying or not, ran on its core or nowhere, ended without running iff the event was refused or dropped undispatched, and was freed once when it ended |
| `ProtocolTheorems.EventOutcome` | spdk-io/src/event.rs:256-269 | An event closure's receiver sees its own result from the target core, or `Cancelled` iff the event was refused or dropped undispatched |
| `ProtocolTheorems.MessagesConserved` | spdk-io/src/thread.rs:563-574 | Messages sent are begun or queued, once each, in order; the begun ones are exactly the closures that ran there |
| `ProtocolTheorems.SendFate` | spdk-io/src/thread.rs:563-597 | The closure of every `send` and `call` has run once on its thread or waits in that thread's queue, never both; at quiescence it has run and was freed once |
| `ProtocolTheorems.DispatchFate` | spdk-io/src/event.rs:201-209 | The same for the closure of every dispatched event and its reactor |
| `ProtocolTheorems.QuiescentBox` | spdk-io/src/event.rs:272-304 | At quiescence every closure and every accepted sender was freed exactly once, the bdev_io with it |
| `ProtocolTheorems.LeaksAreRefusals` | spdk-io/src/bdev.rs:270-276 | A box leaks iff it is the sender of a refused submission |
| `ProtocolTheorems.AllFreedUnlessRefused` | spdk-io/src/bdev.rs:270-276 | At quiescence every box is freed once iff no submission was refused |
| `ProtocolTheorems.RefusalLeaks` | spdk-io/src/bdev.rs:270-276 | The run of one refused submission ends at rest with a box that was never freed |
| `ProtocolTheorems.RawRoundTrip` | spdk-io/src/complete.rs:41-70 | A sender sent through a raw pointer: pending, then exactly the value sent, or `Cancelled` when dropped; freed once, a second `from_raw` is a fault, a value for a dropped receiver is discarded, nothing older is touched |
| `Runtime.Shared.BoxFromRaw` | spdk-io/src/complete.rs:51-54 | On a live box: its content, and the box is gone |
| `Runtime.Shared.TxSend` | spdk-io/src/complete.rs:57-70 | The value is in the slot unless the receiver is gone, and the sender is done |
| `Runtime.Shared.RxPoll` | spdk-io/src/complete.rs:83-90 | The outcome and new state of the poll action |
| `Runtime.Shared.BdevSubmit` | spdk-io/src/bdev.rs:259-279 | Has the effect of the submit action; a receiver is returned iff the submission was accepted |
| `Runtime.Shared.BdevIoCompletionCb` | spdk-io/src/bdev.rs:348-363 | Has the effect of the completion action; the pointer it rebuilds is live |
| `Runtime.Shared.ThreadSend` | spdk-io/src/thread.rs:563-574 | Has the effect of the send action |
| `Runtime.Shared.ThreadCall` | spdk-io/src/thread.rs:584-597 | Has the effect of the send action with a reply channel |
| `Runtime.Shared.EventNew` | spdk-io/src/event.rs:166-193 | Has the effect of the event-creation action, allocation failure included |
| `Runtime.Shared.EventCall` | spdk-io/src/event.rs:201-209 | Has the effect of the dispatch action, and leaves `closure_ptr` null |
| `Runtime.Shared.EventDrop` | spdk-io/src/event.rs:272-294 | Frees the closure iff `closure_ptr` is not null: the event-drop action on an event not yet called, nothing at all after a call |
| `Runtime.Shared.EventCallOnAsync` | spdk-io/src/event.rs:256-269 | Has the effect of creation then dispatch, or of failed creation then dropping the receiver |
| `Runtime.Shared.CallbackBegin` | spdk-io/src/thread.rs:611-613 | Has the effect of starting the first message; its box is live |
| `Runtime.Shared.CallbackFinish` | spdk-io/src/event.rs:299-304 | Has the effect of the closure's return |
| `BlockOn.Progress` | spdk-io/src/complete.rs:152-161 | The measure of the wait (place of the box, then messages or operations ahead of it) never grows, and shrinks when the world moves the awaited box |
| `BlockOn.BusyIsFair` | spdk-io/src/complete.rs:155-159 | Polls that each run at least one queued message make the wait for a queued closure fair |
| `BlockOn.SerialIsBusy` | spdk-io/src/complete.rs:155-159 | Such polls exist |
| `BlockOn.OldestFirstIsFair` | spdk-io/src/complete.rs:131-139 | Polls that each complete the oldest operation make the wait for block I/O fair |
| `BlockOn.OldestIsOldestFirst` | spdk-io/src/complete.rs:131-139 | Such polls exist |
| `BlockOn.NudgeIsFair` | spdk-io/src/complete.rs:117-125 | Fair polls exist for every receiver |
| `BlockOn.BlockOn` | spdk-io/src/complete.rs:142-162 | For a receiver of any operation or closure: terminates under weak fairness and returns exactly what the callback sent, `Cancelled` iff the sender was dropped unsent |
| `Poller.YieldNow.Poll` | spdk-io/src/poller.rs:41-53 | Pending the first time, ready after |
| `Poller.PollerTask.Resume` | spdk-io/src/poller.rs:74-108 | Returns pending after exactly one idle thread poll, completes only at the limit, never without one |
| `Poller.Drive` | spdk-io/src/poller.rs:94-108 | Exactly `maxIters` thread polls, one pending per idle one, then completion |
| `Poller.DriveUnlimited` | spdk-io/src/poller.rs:74-85 | After any number of thread polls, whatever they find, it has not completed and was pending once per idle one |
| `ThreadLib.RunValid` | spdk-io/src/thread.rs:63-113 | Over every run the flag says whether the C library is up, inits and finis alternate, and a fini finds no thread alive |
| `ThreadLib.CreationRule` | spdk-io/src/thread.rs:165-197 | A creation adds a thread exactly when the library is ready or not asked for, the name holds no NUL and SPDK gives one |
| `ThreadLib.ThreadsBalance` | spdk-io/src/thread.rs:165-197 | The threads alive are the creations that returned one, less the drops |
| `ThreadLib.ThreadsNeedLibrary` | spdk-io/src/thread.rs:165-197 | Over every run whose creations ask for the library, it is up while a thread is alive |
| `ThreadLib.StrandedRuns` | spdk-io/src/thread.rs:165-197 | Over every run: the library is up without threads iff the run ends in failed creations, the first of which started it with no thread alive |
| `ThreadLib.NulNameStrandsLibrary` | spdk-io/src/thread.rs:165-181 | A name with a NUL byte leaves the library up with no thread |
| `ThreadLib.GlobalLib.ThreadLibInit` | spdk-io/src/thread.rs:63-97 | Swap and restore of the flag around the C call |
| `ThreadLib.GlobalLib.ThreadLibFini` | spdk-io/src/thread.rs:107-113 | The C library is shut down iff the flag was set |
| `ThreadLib.GlobalLib.Attach` | spdk-io/src/thread.rs:180-197 | Has the effect of a creation without initialisation |
| `ThreadLib.GlobalLib.Current` | spdk-io/src/thread.rs:165-169 | Has the effect of a creation with initialisation, each failure included |
| `ThreadLib.GlobalLib.Drop` | spdk-io/src/thread.rs:420-443 | Polls up to the first report of exit and not once more, then shuts the library down iff it was the last thread |

## Left out

- Running `pkg-config`, printing to standard output, `build.rs` and the builder methods: process input and output, or field copying.
- Text is a sequence of characters; `PathBuf` is the text it was made from, so lossy display of paths that are not UTF-8 is not modelled.
- What a closure does besides its result: its own sends and submissions are further actions of the same run; panics and unwinding are not modelled.
- `spdk_thread_send_msg` is assumed to accept every message (the source ignores its answer), and the device and the queues to run each accepted callback once, queues in order.
- Wakers: the oneshot channel's waker and the executor's scheduling are not modelled; every poll of a receiver is an action of its own.
- BlockOn.BlockOn: a missing current thread makes the source panic; here there is one. The future is a receiver; what `read` or `write` do around their receiver is `BdevSubmit`.
- Concurrent callers of the thread library's initialisation (a second caller returns before the first has finished) and the use under `SpdkApp`, where the flag is set and never cleared.
- Poller.PollerTask.Resume: without an iteration limit it assumes that some later thread poll is idle, as one poll of the future otherwise never returns; `DriveUnlimited` needs no such assumption.
- Memory addresses: a box keeps its identity after it is freed, so reuse of an address by the allocator is not modelled.
- SPDK event objects that are dropped undispatched are leaked by the source; only their closures are modelled.
- DMA buffers, channels, NVMe, NVMe-oF, environment and application builders: foreign calls with little logic of their own.
