# Verified model of the emulator's kernels

This project models the parts of a Windows CE emulator that the emulator implements by itself, and proves what they
are for. `dafny verify dfyconfig.toml` checks all of it with Dafny 4.11.

Each component appears twice. A class with the program's own fields has methods with the program's branches and loops;
their postconditions tie the new state to a function of the old one. Lemmas then prove the promises about that
function, over every input, every run or every reachable state. One module per component:

| module | component |
|---|---|
| `CrossProcessQueue` | the message file several emulator processes share, as steps of any number of processes |
| `SharedMapping` | named shared mappings: a file, and per view a shadow copy and a version |
| `GweQueue` | the global message queue and its index by owner thread and kind |
| `MessageLoop` | the queue and the kernel together: threads that wait for messages, posts that wake them and posts that do not |
| `HitTest` | the window stack: chains of parents and owners, stacking order, active popup, hit test |
| `Kernel` | handles and waits: the refresh pass and the query |
| `Scheduler` | the cooperative scheduler on top of `Kernel`, and whose registers go where |
| `GuestHeap` | the guest heap and reallocation |
| `Audio` | playback streams on a millisecond line, and slices cut out of them |
| `Pixels`, `Line`, `Blit` | packed pixels at six depths, bitmap lines, the RGB565 to 32-bit copy |
| `Utf`, `Registry` | both UTF-8/UTF-16 converter pairs, and registry values as JSON |
| `CommandLine` | command-line quoting, against Microsoft's rules for parsing C command-line arguments |

Where the code does not do what its users might assume, the code is modelled as it is and the exact condition is proved:

- The early return of a poll compares a write time seen at its first look with a size seen at its second, so it can pass
  over a message (`CrossProcessQueue.EarlyReturnMayPassOver`). It never does while the file was not written since the
  first look (`CrossProcessQueue.EarlyReturnGuard`), and what it passes over is exactly what was posted between the two
  looks (`CrossProcessQueue.EarlyReturnPassesOver`); the next poll handles that (`CrossProcessQueue.PollMissesNothing`).
- A message posted before its window has an owner is never counted for the owner the window gets
  (`GweQueue.StrayIsNotCounted`). Being told of messages and being able to take one are the same exactly when there is
  no such message or some other message is recorded for the thread (`GweQueue.HasMessagesExactIff`).
- A post that is not followed by a wake, as of a timer message, leaves a thread waiting beside its message until some
  later step wakes (`MessageLoop.SilentPostStrands`). Throughout a run nobody waits beside a message exactly when no
  step makes such a post to a waiting thread (`MessageLoop.RunKeepsNoneBehindIff`).
- A reposted message breaks the queue index unless its id was handed out before and is no longer queued
  (`GweQueue.PostKeepsInvIff`).
- Ending the current process breaks the scheduler's rule exactly when a thread of another process runs, because it
  clears the active thread whoever that is (`Scheduler.TerminateSafeIff`; a run that does so is
  `Scheduler.TerminateBreaksSafety`).
- A yield loses the resume address it is given, because the switch captures the thread a second time without it. The
  saved context is the one asked for exactly when the address is absent or is the pc already
  (`Scheduler.YieldKeepsAddressIff`).
- A run leaves the parked main context alone exactly when each step passes its guard (`Scheduler.RunKeepsMainIff`). One
  step that does not is a thread's exit while a host call is pending, another thread can run and the pc is readable: it
  takes the exited thread's registers for the main thread's.
- The two wait deciders differ on a process without a host handle that still has threads, and on a host object that
  reports ready and failed at once (`Kernel.SingleAgreesIff`); on a list they differ exactly when such a handle decides
  (`Kernel.DecidersAgreeIff`).
- An allocation breaks the heap exactly when its 32-bit sums wrap (`GuestHeap.AllocateKeepsInvIff`).
- The play time of a buffer is kept in 32 bits; live slices cover the buffer exactly when it fits
  (`Audio.SteppingCoversBuffer`).
- One round of syncs need not level shared views (`SharedMapping.OneRoundMayNotConverge`). It does exactly when no view
  but the first one it meets holds unsynced writes (`SharedMapping.OneRoundLevelsIff`); two rounds always do.
- A sync of a written view, and any flush, writes the whole view, so it can take back bytes another process has already
  published (`SharedMapping.LoneWriterMayRevert`). It does not exactly when the view's shadow still agrees with the file wherever
  its guest wrote nothing (`SharedMapping.WritingSyncRevertsIff`).
- The string converters are the identity exactly on well-formed UTF-16 (`Utf.RoundTripIff`), and a registry value is
  carried without loss exactly when its bytes have the shape of its type (`Registry.RegistryRoundTripIff`).
- Linking a window under a new parent or owner keeps every chain finite exactly when the window is not above it
  (`HitTest.UpdateKeepsAcyclicIff`).

What the model takes from outside: a probe of a host object and of the message queue is a function; the clock, the
readability of a guest address and the offered heap block are parameters; every mutex is acquired and all I/O
succeeds; each write of the message file leaves a write time not seen before, and any size. An ordered map that is
walked in order is a sequence in key order.

## Model

| member | source | states |
|---|---|---|
| CrossProcessQueue.CrossProcessBroker.PostMessage | src/coredll_named_dispatch.cpp:1023-1122 | a post appends the message to the file iff target and window are given, the target is another process and alive; otherwise nothing changes |
| CrossProcessQueue.CrossProcessBroker.LookAtWriteTime | src/coredll_named_dispatch.cpp:1181-1186 | the first unlocked look: a missing file is forgotten, otherwise its write time is seen |
| CrossProcessQueue.CrossProcessBroker.LookAtSize | src/coredll_named_dispatch.cpp:1187-1196 | the second: the poll goes on iff the file is there and its stat is not the cached one |
| CrossProcessQueue.CrossProcessBroker.DrainLocked | src/coredll_named_dispatch.cpp:1197-1402 | the in-place erase loop removes exactly this process's messages, hands each on or drops it by whether its window exists, and caches the right stat |
| CrossProcessQueue.DrainSplits | src/coredll_named_dispatch.cpp:1300-1402 | a drain takes everything for its own process and leaves every other process's messages as they were, in order |
| CrossProcessQueue.DrainDeliversIffWindow | src/coredll_named_dispatch.cpp:1300-1402 | each message that waits for the process is handled in order, and delivered iff the process has its window |
| CrossProcessQueue.NextPollReturnsEarly | src/coredll_named_dispatch.cpp:1181-1402 | a drain leaves a cached stat with which the next poll ends early, unless the file is written in between |
| CrossProcessQueue.StepKeepsInv | src/coredll_named_dispatch.cpp:1023-1402 | every step of every process keeps: all ever posted to a process is what it handled followed by what waits, and cached stamps are old or nothing waits |
| CrossProcessQueue.RunKeepsInv | src/coredll_named_dispatch.cpp:1023-1402 | the same over any interleaving of any number of processes |
| CrossProcessQueue.SameStatNothingWaits | src/coredll_named_dispatch.cpp:1181-1196 | in every reachable state, a stat taken at one instant that equals the cached one means no message waits for that process |
| CrossProcessQueue.EarlyReturnGuard | src/coredll_named_dispatch.cpp:1181-1196 | in every reachable state the early return of a poll needs the write time of its first look and the size of its second to be the cached ones, and passes over a message only if the file was written in between |
| CrossProcessQueue.EarlyReturnPassesOver | src/coredll_named_dispatch.cpp:1168-1196 | whatever others do between the looks, an early return means nothing waited at the first, and what waits now is exactly what was posted since |
| CrossProcessQueue.EarlyReturnMayPassOver | src/coredll_named_dispatch.cpp:1181-1196 | a run in which a message waits at an early return, because another process drained one of equal length |
| CrossProcessQueue.ExactlyOnceInOrder | src/coredll_named_dispatch.cpp:1023-1402 | each posted message is exactly once in the file or handled by its target, never by another process, and every process handles in post order |
| CrossProcessQueue.OthersLeavePoll | src/coredll_named_dispatch.cpp:1168-1402 | steps of others between the parts of a poll leave its state alone and can only add messages at the end |
| CrossProcessQueue.PollMissesNothing | src/coredll_named_dispatch.cpp:1168-1402 | a poll begun while a message waits gets to the drain whatever others do in between, and then everything ever posted to the process is handled |
| SharedMapping.BackingFile.Read | src/coredll_mapping.cpp:155-168 | each byte of the slice is the file's, zero where the file ends early |
| SharedMapping.BackingFile.Write | src/coredll_mapping.cpp:170-181 | each byte of the file afterwards is the data's, the old one, or zero in a gap, and the version goes up by one iff something was written |
| SharedMapping.MappingProcess.SyncNamedMappedView | src/coredll_mapping.cpp:183-222 | guest changes go out and set shadow and version; otherwise a newer file comes in; the result says whether bytes moved |
| SharedMapping.MappingProcess.SyncNamedMappedViews | src/coredll_mapping.cpp:224-228 | the table walk is that step for each view in turn |
| SharedMapping.MappingProcess.MapViewOfFile | src/coredll_mapping.cpp:293-388 | exactly when a map fails; a mapped view shows its shadow at the file's version, a new one the bytes of its file slice with one reference, a shared one gains a reference |
| SharedMapping.MappingProcess.UnmapViewOfFile | src/coredll_mapping.cpp:390-431 | the view is synced, unsynced writes reaching the file, then loses a reference or, with the last one, goes |
| SharedMapping.MappingProcess.FlushViewOfFile | src/coredll_mapping.cpp:433-456 | a flush leaves the file slice equal to the guest's memory, which it does not change |
| SharedMapping.WriteThenRead | src/coredll_mapping.cpp:155-181 | reading back what was written gives it, past the end of the file too |
| SharedMapping.WriteElsewhere | src/coredll_mapping.cpp:170-181 | a write changes no byte outside its slice, zero extension included |
| SharedMapping.GrowKeepsSlices | src/coredll_mapping.cpp:140-146 | growing the file changes no slice, zero extension included |
| SharedMapping.StepKeepsInv | src/coredll_mapping.cpp:183-431 | every step keeps: a view's version is at most the file's, and equal versions mean its shadow is exactly the zero-extended file slice |
| SharedMapping.RunKeepsInv | src/coredll_mapping.cpp:183-431 | the same for any run of any number of processes |
| SharedMapping.StepKeepsClean | src/coredll_mapping.cpp:183-431 | no step but a guest's write makes a view differ from its shadow, or brings in one that does |
| SharedMapping.QuietRun | src/coredll_mapping.cpp:183-431 | with no unsynced writes, any run of maps, unmaps and unforced syncs leaves the file's contents and version alone |
| SharedMapping.RunCountsReferences | src/coredll_mapping.cpp:293-431 | in every run a view is there exactly as long as it has been mapped more often than unmapped |
| SharedMapping.GoesAtLastUnmap | src/coredll_mapping.cpp:390-431 | a view mapped n times survives n-1 unmaps and goes at the n-th |
| SharedMapping.FirstRoundCleans | src/coredll_mapping.cpp:224-228 | one round in any order leaves every view without unsynced writes |
| SharedMapping.SecondRoundLevels | src/coredll_mapping.cpp:224-228 | the next round only reads and brings every view to the file's version |
| SharedMapping.TwoRoundsConverge | src/coredll_mapping.cpp:183-228 | from any reachable state, two rounds in any two orders make every view's memory its file slice |
| SharedMapping.OneRoundMayNotConverge | src/coredll_mapping.cpp:224-228 | a concrete state where one round is not enough |
| SharedMapping.OneRoundLevelsIff | src/coredll_mapping.cpp:224-228 | one round over every view brings all to the file's version iff no view but the first one walked is dirty |
| SharedMapping.LevelShowsFile | src/coredll_mapping.cpp:183-228 | and a view that is level after a round shows its file slice |
| SharedMapping.WritingSyncRevertsIff | src/coredll_mapping.cpp:183-222 | a sync that writes, for unsynced writes or as a flush, leaves the file alone wherever its guest wrote nothing iff the shadow agrees with the file there, as it does when the view is level |
| SharedMapping.LoneWriterMayRevert | src/coredll_mapping.cpp:183-222 | a run of two processes that write different bytes one after the other, where the second sync takes back the first one's byte |
| SharedMapping.LoneWriterWins | src/coredll_mapping.cpp:183-228 | with one view holding unsynced writes, two rounds write that whole view to the file, bytes its guest never wrote included, and every view then shows it where they overlap |
| GweQueue.CeGwe.PrepareForQueue | src/ce_gwe.h:647-664 | a fresh id unless the message has one, the kind, and the owner record |
| GweQueue.CeGwe.PostBack | src/ce_gwe.h:666-672 | the message goes behind all others in the queue and last in its lane |
| GweQueue.CeGwe.PostFront | src/ce_gwe.h:674-678 | the message goes before all others in the queue but last in its lane |
| GweQueue.CeGwe.PostAfterLeadingMatches | src/ce_gwe.h:506-515 | inserted before the first message that does not match |
| GweQueue.CeGwe.PostBeforeFirstMatch | src/ce_gwe.h:517-526 | inserted before the first message that matches |
| GweQueue.CeGwe.PostSentBeforeFirstMatch | src/ce_gwe.h:528-537 | the same, in the lane of sent messages |
| GweQueue.CeGwe.RegisterWindowOwner | src/ce_gwe.h:240-244 | the owner of a window, and a queue for that thread |
| GweQueue.CeGwe.RemoveFromOwnerQueue | src/ce_gwe.h:687-701 | with the index sound, removing one message from its lane is removing its id everywhere |
| GweQueue.CeGwe.TakeIf | src/ce_gwe.h:553-566 | returns the matching messages in order and leaves the rest, lanes and records included |
| GweQueue.CeGwe.EraseIf | src/ce_gwe.h:539-551 | the forward erase loop leaves the same queue as takeIf and counts the matches |
| GweQueue.CeGwe.EraseReverseIf | src/ce_gwe.h:568-582 | so does the backward one |
| GweQueue.CeGwe.FirstMatchingForOwner | src/ce_gwe.h:584-608 | the first wanted message in queue order, removed iff asked; nothing found only if none is wanted |
| GweQueue.CeGwe.MessageCountForOwner | src/ce_gwe.h:456-464 | the sum of the owner's lanes |
| GweQueue.CeGwe.OldestPendingOwner | src/ce_gwe.h:481-487 | the owner of the first message that has one; no message before it has an owner |
| GweQueue.PostKeepsInvIff | src/ce_gwe.h:647-685 | a post keeps the index iff the message is new, or its id was handed out before and is not queued |
| GweQueue.RemoveKeepsInv | src/ce_gwe.h:539-608 | every removal keeps the index |
| GweQueue.RegisterKeepsInv | src/ce_gwe.h:240-244 | so does naming an owner, even for windows with queued messages |
| GweQueue.RunKeepsInv | src/ce_gwe.h:488-701 | so does any run of posts, inserts, removals and registrations |
| GweQueue.LaneIsIndex | src/ce_gwe.h:680-701 | every lane is, as a multiset, exactly the queued messages recorded for its owner and kind |
| GweQueue.CountIsExact | src/ce_gwe.h:456-464 | after any run the count is the number of queued messages recorded for the owner |
| GweQueue.HasMessagesFindsOne | src/ce_gwe.h:465-487 | an owner told it has messages finds one, and the oldest pending owner exists |
| GweQueue.WantedIffCountedOrStray | src/ce_gwe.h:435-466 | some message is the owner's to take iff it is told of one or one was posted before its window had an owner |
| GweQueue.HasMessagesExactIff | src/ce_gwe.h:456-467 | being told of messages and having one to take agree iff there is no such stray or some message is recorded for the owner |
| GweQueue.StrayIsNotCounted | src/ce_gwe.h:240-244 | a run after which a message is the owner's to take and is not counted |
| GweQueue.RemoveMatchingFilters | src/ce_gwe.h:539-582 | what the three erasing loops leave is the order-preserving filter |
| GweQueue.SelectSplits | src/ce_gwe.h:553-566 | taken and left messages together are the queue, as multisets |
| GweQueue.StepKeepsOrder | src/ce_gwe.h:488-701 | no post, insert, removal or registration brings a queued message in front of one that is ahead of it |
| GweQueue.RunKeepsOrder | src/ce_gwe.h:488-701 | nor does any run while both stay queued |
| GweQueue.TakenInPostOrder | src/ce_gwe.h:584-608 | of two messages a thread wants, one posted to the back is not taken while the one queued before it is there, whatever is posted or removed in between |
| MessageLoop.PostAndWake | src/coredll_named_dispatch.cpp:4094-4104 | a post, then the refresh and the wake over what the queue counts |
| MessageLoop.CountAfterPost | src/ce_gwe.h:456-464 | a post adds one to the count of the thread it is recorded for, and to no other |
| MessageLoop.StepKeepsNoneBehindIff | src/ce_kernel.cpp:38-48 | a step leaves a thread waiting beside a counted message iff it posts one for a waiting thread without waking |
| MessageLoop.RunKeepsNoneBehindIff | src/coredll_thread_runtime.cpp:247-255 | throughout any run of posts, removals, registrations, wakes, refreshes and waits nobody waits beside a message iff no step is such a post |
| MessageLoop.WaitsUntilWoken | src/coredll_thread_runtime.cpp:247-336 | no post, removal or refresh touches a thread that waits for a message; only a wake does |
| MessageLoop.WokenIffOwned | src/ce_kernel.cpp:38-48 | a wake lets a waiting thread run iff a queued message is recorded for it, and changes nothing else of it |
| MessageLoop.WokenIffWanted | src/ce_kernel.cpp:38-48 | it runs iff a message is its to take, unless there are only strays for it |
| MessageLoop.PostWakesReceiver | src/coredll_named_dispatch.cpp:4094-4104 | after a post with a wake the thread that waited for it can run and finds a message |
| MessageLoop.SilentPostStrands | src/coredll_window_runtime.cpp:1789-1812 | after a post without one it waits on beside its message, through any steps that do not wake |
| HitTest.CeGweWindows.UpdateWindowState | src/ce_gwe.h:253-293 | the stored state of a window, its visible region from visibility and destruction |
| HitTest.CeGweWindows.UnregisterWindow | src/ce_gwe.h:245-248 | the window is forgotten and the chains stay free of loops |
| HitTest.CeGweWindows.IsVisibleEnabled | src/ce_gwe.h:350-365 | the walk ends, and answers whether the window and every known parent above it is shown |
| HitTest.CeGweWindows.IsWindowInStack | src/ce_gwe.h:366-375 | the walk ends, and answers whether the ancestor is reached through parents and owners |
| HitTest.CeGweWindows.OrderedWindowsTopToBottom | src/ce_gwe.h:376-396 | exactly the windows of the root's stack, strictly sorted |
| HitTest.CeGweWindows.ActivePopupForRoot | src/ce_gwe.h:397-404 | the topmost live popup of the root, 0 iff there is none |
| HitTest.CeGweWindows.HitTest | src/ce_gwe.h:405-434 | the block result outside the active popup, otherwise the topmost live window that contains the point and belongs to its stack |
| HitTest.BeforeIsStrictTotal | src/ce_gwe.h:384-394 | the comparator is a strict total order |
| HitTest.OrderIsUnique | src/ce_gwe.h:384-395 | so only one list is sorted by it, whatever the sort does |
| HitTest.WalksEndIff | src/ce_gwe.h:356-375 | every walk ends, in at most as many steps as there are windows, iff no chain is a loop |
| HitTest.UpdateKeepsAcyclicIff | src/ce_gwe.h:253-293 | an update keeps the chains free of loops iff the window is not in the stack above its new parent or owner |
| HitTest.RemovalKeepsAcyclic | src/ce_gwe.h:245-248 | forgetting a window never makes a loop |
| HitTest.HitIsDetermined | src/ce_gwe.h:405-434 | windows, root and point determine popup and answer |
| HitTest.PopupCaptures | src/ce_gwe.h:405-434 | with an active popup: blocked iff the point is outside it, else a live window of the popup's own stack, never nothing, and the point in the coordinates of that window |
| HitTest.NothingAboveIsHit | src/ce_gwe.h:423-434 | without a popup every other live window at the point is below the answer |
| HitTest.HighestIsHit | src/ce_gwe.h:376-434 | of the live windows at the point a popup is hit before an owned window, that before a child and that before any other, and within a kind the one with the larger z-order, then the larger handle |
| HitTest.VisibleEnabledMeans | src/ce_gwe.h:350-365 | a window is shown iff it is not destroyed, visible, enabled and with a region, and so is the known parent of a child window |
| HitTest.InStackMeans | src/ce_gwe.h:366-375 | a window is in the stack of itself and of whatever its parent, or its owner when it is no child, is in the stack of |
| Kernel.CeKernel.ConsumeAutoResetEvent | src/ce_kernel.cpp:96-100 | an auto-reset event loses its signal, nothing else changes |
| Kernel.CeKernel.RefreshSignaledWaits | src/ce_kernel.cpp:121-261 | the pass over all threads is the fold of the decision on each, with its events |
| Kernel.CeKernel.WakeThreadsWaitingForMessage | src/ce_kernel.cpp:38-48 | exactly the threads waiting for a message that have one become runnable, and are reported |
| Kernel.CeKernel.QueryWaitObjects | src/ce_kernel.cpp:102-119 | the query loop with its accumulators computes the query function |
| Kernel.RefreshSettles | src/ce_kernel.cpp:121-261 | after a pass no thread has a reason left to be released, and terminations and signals only go one way |
| Kernel.RefreshIsIdempotent | src/ce_kernel.cpp:121-261 | a second pass with the same time and probes emits nothing and changes nothing |
| Kernel.RefreshActsOnVerdict | src/ce_kernel.cpp:121-261 | a pass does to each thread what is decided on it in the state the pass reaches it in, and nothing later in the pass touches it |
| Kernel.NobodyLeftBehind | src/ce_kernel.cpp:121-261 | a thread left waiting has no expired deadline, no awaited message, no ready handle of a wait-any and no wholly ready wait-all set |
| Kernel.ExpiredWaitTimesOut | src/ce_kernel.cpp:131-145 | a wait whose deadline has passed answers its timeout result and loses its deadline |
| Kernel.MessageWaitAnswers | src/ce_kernel.cpp:148-158 | a wait that waits for messages too answers the number of its handles when it has one |
| Kernel.QueueEventAnswers | src/ce_kernel.cpp:159-174 | a wait-any over several handles answers 0 when a message comes |
| Kernel.AnyWaitAnswers | src/ce_kernel.cpp:177-240 | otherwise a wait-any answers the position of its first ready handle, or failure if one before it fails |
| Kernel.AnyWaitGoesOn | src/ce_kernel.cpp:177-240 | and is untouched while no handle is ready or fails |
| Kernel.AllWaitAnswers | src/ce_kernel.cpp:177-258 | a wait-all answers failure if a handle fails, 0 if all are ready, and is untouched otherwise |
| Kernel.EventsAreReleases | src/ce_kernel.cpp:121-261 | a pass reports exactly the threads it releases, in table order, each once |
| Kernel.QueryPrefersFirst | src/ce_kernel.cpp:102-119 | a query that does not fail prefers the first thread among the handles it looked at |
| Kernel.AutoResetReleasesOne | src/ce_kernel.cpp:159-258 | an auto-reset event is used by one release in a pass iff the pass cleared it, and never by more |
| Kernel.ScanMeaning | src/ce_kernel.cpp:159-258 | what a handle scan that releases nobody says about each handle |
| Kernel.JudgeStaysNotYet | src/ce_kernel.cpp:127-258 | a thread not released stays unreleasable as the pass goes on |
| Kernel.SingleAgreesIff | src/ce_kernel.cpp:50-94 | refresh and query judge a handle alike iff it is not a running host-less process and its probe does not say ready and failed at once |
| Kernel.ScanOutcome | src/ce_kernel.cpp:159-258 | the refresh loop stops at the first failed handle, or first ready one in a wait-any, and otherwise asks whether all are ready |
| Kernel.QueryOutcome | src/ce_kernel.cpp:102-119 | so does the query loop, by its own judgement of each handle |
| Kernel.DecidersAgreeIff | src/ce_kernel.cpp:50-258 | for any list of at most 64 handles, refresh releases a waiting thread iff the query in that state is not a timeout, with the same result and error, if and only if the handle that decides is judged alike |
| Kernel.DecidersAgree | src/ce_kernel.cpp:50-258 | in particular they agree for wait-any and wait-all when every handle is judged alike |
| Scheduler.GuestScheduler.ParkActive | src/coredll_thread_runtime.cpp:553-562 | the active thread's registers and resume address are saved and a running one becomes runnable |
| Scheduler.GuestScheduler.RestoreMainThreadContextIfRunnable | src/coredll_thread_runtime.cpp:402-418 | loads the main context if it can run, otherwise discards it |
| Scheduler.GuestScheduler.SwitchToThread | src/coredll_thread_runtime.cpp:553-610 | parks the active thread or the main context and loads the chosen one |
| Scheduler.GuestScheduler.SwitchByOwner | src/coredll_thread_runtime.cpp:612-651 | the owner of the oldest message goes first if it can run |
| Scheduler.GuestScheduler.SwitchToRunnableGuestThread | src/coredll_thread_runtime.cpp:537-675 | refresh, message owner, preferred thread, round robin, in that order |
| Scheduler.GuestScheduler.SwitchRoundRobin | src/coredll_thread_runtime.cpp:662-674 | the first runnable thread after the last scheduled one, cyclically |
| Scheduler.GuestScheduler.YieldActiveGuestThread | src/coredll_thread_runtime.cpp:677-691 | saves, makes runnable and switches without a resume address |
| Scheduler.GuestScheduler.FinishActiveGuestThread | src/coredll_thread_runtime.cpp:693-709 | terminates the active thread and goes to the main context or on |
| Scheduler.GuestScheduler.ResumeGuestThread | src/coredll_thread_runtime.cpp:223-245 | the suspend count goes down and at zero a suspended thread becomes runnable; the result is the count before, and all bits with an error for a handle that is no thread's |
| Scheduler.GuestScheduler.CreateGuestThread | src/coredll_thread_runtime.cpp:102-146 | a new handle and a thread at the end of the table, suspended once or runnable as asked, in the process of the active thread |
| Scheduler.GuestScheduler.StartGuestProcessImage | src/coredll_thread_runtime.cpp:148-221 | a process handle, then a runnable thread of that process |
| Scheduler.GuestScheduler.BlockActiveGuestThread | src/synthetic_dll.cpp:2063-2087 | the active thread is parked where its call lands with its wait fields, and nobody is active |
| Scheduler.GuestScheduler.CompleteSender | src/synthetic_dll.cpp:1736-1750 | a thread that waits for its sent message gets the result and can run |
| Scheduler.GuestScheduler.WakeGuestThreadsWaitingForMessage | src/coredll_thread_runtime.cpp:247-255 | a refresh, then every thread with an awaited message becomes runnable |
| Scheduler.GuestScheduler.TerminateCurrentProcess | src/ce_kernel.cpp:291-302 | every thread of the main process ends and nobody is active |
| Scheduler.StepSafe | src/coredll_thread_runtime.cpp:102-709 | creating threads and processes, resume, refresh, switch, yield, finish, blocking, waking, replies and the return to the main context each keep: a running thread is the active one, and the thread table stays ordered |
| Scheduler.RunSafe | src/coredll_thread_runtime.cpp:102-709 | the same over any run |
| Scheduler.TerminateSafeIff | src/ce_kernel.cpp:291-302 | ending the process keeps it iff no thread of another process is running |
| Scheduler.TerminateBreaksSafety | src/ce_kernel.cpp:291-302 | a run from an empty table after which ending the process breaks it: another process is started and its thread switched in |
| Scheduler.OwnerGoesFirst | src/coredll_thread_runtime.cpp:643-649 | a thread that owns the oldest message and can run is given the processor, whoever is active, was last or is preferred |
| Scheduler.OwnerGoesFirstAtYield | src/coredll_thread_runtime.cpp:677-691 | so it is at a yield, the yielding thread included |
| Scheduler.MainGoesFirst | src/coredll_thread_runtime.cpp:613-632 | the main thread, if it owns the oldest message and can run, takes over from any thread with the context it parked |
| Scheduler.PreferredGoesNext | src/coredll_thread_runtime.cpp:653-660 | the preferred thread is chosen if it can run and no runnable owner comes first |
| Scheduler.SwitchSucceedsIff | src/coredll_thread_runtime.cpp:537-675 | unless the main thread owns the oldest message a switch succeeds iff some thread can run |
| Scheduler.CreatedThreadRuns | src/coredll_thread_runtime.cpp:102-146 | a new thread can run at once, or from its first resume when created suspended, with the context it was given |
| Scheduler.CreatedThreadBelongs | src/coredll_thread_runtime.cpp:130-140 | it belongs to the process of the active thread, or to the main process |
| Scheduler.ResumeCountsDown | src/coredll_thread_runtime.cpp:223-245 | a resume takes back one suspension, and with the last one a suspended thread can run |
| Scheduler.FinishedThreadEnds | src/coredll_thread_runtime.cpp:693-709 | an exited thread is terminated with its code and not active again |
| Scheduler.FinishReturnsToMain | src/coredll_thread_runtime.cpp:703-708 | an exit goes back to the main context as it was parked, if that can run and no host call is pending |
| Scheduler.YieldFindsSuccessor | src/coredll_thread_runtime.cpp:677-691 | in any reachable state a yield from a running thread finds somebody to run |
| Scheduler.RoundRobinApproaches | src/coredll_thread_runtime.cpp:662-674 | each choice is the wanted runnable thread or strictly nearer to it |
| Scheduler.TurnChooses | src/coredll_thread_runtime.cpp:537-675 | the same for a whole switch in which no message owner has a say |
| Scheduler.FairWithinThreadCount | src/coredll_thread_runtime.cpp:537-675 | a thread that stays runnable is chosen within as many switches as there are threads |
| Scheduler.StepKeepsRegisters | src/coredll_thread_runtime.cpp:223-709 | no step changes the saved registers of a thread that is not active but by giving it the answer it waits for, the refresh verdict's result or the reply; a step that makes it active loads them |
| Scheduler.AwayKeepsRegisters | src/coredll_thread_runtime.cpp:223-709 | the same over any steps while it is away, with at most one answer |
| Scheduler.RegistersComeBack | src/coredll_thread_runtime.cpp:537-709 | whatever step makes a thread active again after any steps, it runs with the registers it left, changed in the result alone and iff it waited |
| Scheduler.SwitchOutSaves | src/coredll_thread_runtime.cpp:553-562 | switching away saves the registers with the resume address as pc |
| Scheduler.RegistersSurvive | src/coredll_thread_runtime.cpp:537-675 | so a thread switched out with a resume address finds its registers and that address again |
| Scheduler.YieldKeepsAddressIff | src/coredll_thread_runtime.cpp:677-691 | what a yield saves is the context with the resume address iff that address is absent or is the pc already |
| Scheduler.YieldedRegistersSurvive | src/coredll_thread_runtime.cpp:677-691 | so a thread that yielded comes back with its registers, and at the address it gave iff the same guard holds |
| Scheduler.BlockedRegistersSurvive | src/synthetic_dll.cpp:2063-2087 | a thread that blocked comes back where its call lands with its registers, and with an answer as result iff it waited for one |
| Scheduler.SwitchKeepsMainIff | src/coredll_thread_runtime.cpp:564-591 | a step towards RunKeepsMainIff: the guard of the switch's own branches |
| Scheduler.FinishKeepsMainIff | src/coredll_thread_runtime.cpp:693-709 | a step towards it: the guard of a thread's exit |
| Scheduler.FinishOverwritesMain | src/coredll_thread_runtime.cpp:693-709 | what an exit that fails that guard leaves: with a host call pending, a successor and a readable pc the exited thread's registers |
| Scheduler.RunKeepsMainIff | src/coredll_thread_runtime.cpp:402-709 | a run leaves the parked main context alone throughout iff every step passes its guard |
| GuestHeap.CeMemory.TakeBlock | src/coredll_memory_runtime.cpp:26-54 | the free-list search, the split and the bump pointer, in 32-bit arithmetic |
| GuestHeap.CeMemory.AllocateBlock | src/coredll_memory_runtime.cpp:26-61 | that, and the whole capacity zeroed iff asked |
| GuestHeap.CeMemory.ReleaseAllocation | src/coredll_memory_runtime.cpp:63-72 | the block leaves the tables for the free list; memory is untouched |
| GuestHeap.CeMemory.Reallocate | src/coredll_memory.cpp:110-148 | when both blocks exist the common bytes are copied and the old block is freed, no other live block changes; on failure nothing changes |
| GuestHeap.ReallocateSound | src/coredll_memory.cpp:110-148 | the copy and the release, made exactly when both blocks exist, keep the tiling, the common bytes and every other live block |
| GuestHeap.CeMemory.HandleRealloc | src/coredll_memory.cpp:132-148 | size 0 frees and returns nothing, otherwise a reallocation |
| GuestHeap.CeMemory.HandleHeapReAlloc | src/coredll_memory.cpp:201-219 | a bad heap or null block is error 6 and no change, otherwise a reallocation with error 8 iff it fails |
| GuestHeap.AllocateKeepsInvIff | src/coredll_memory_runtime.cpp:26-61 | blocks stay aligned, disjoint and tile the used heap iff the 32-bit sums do not wrap |
| GuestHeap.ReleaseKeepsInv | src/coredll_memory_runtime.cpp:63-72 | a release keeps the tiling and the set of blocks |
| GuestHeap.RunKeepsInv | src/coredll_memory_runtime.cpp:26-72 | any run of calls that do not wrap keeps it |
| GuestHeap.EveryByteInOneBlock | src/coredll_memory_runtime.cpp:26-72 | after any run each used byte is in exactly one live or free block |
| GuestHeap.AllocateFailsIff | src/coredll_memory_runtime.cpp:31-49 | fails iff no free block and not the rest of the heap is large enough, and then changes nothing |
| GuestHeap.AllocateIsBestFit | src/coredll_memory_runtime.cpp:31-52 | the smallest adequate free block is used when one exists, the end of the heap otherwise |
| GuestHeap.AllocateRecords | src/coredll_memory_runtime.cpp:53-54 | the block is recorded with its size, has at most 31 bytes more, and no other entry changes |
| Audio.CeAudio.OpenStream | src/ce_audio.cpp:15-21 | a stream starts empty under its handle, replacing one of that handle |
| Audio.OpenedIs | src/ce_audio.cpp:15-21 | the table afterwards holds the empty stream and every other handle as it was, in order |
| Audio.CeAudio.QueueBuffer | src/ce_audio.cpp:48-69 | starts at the later of now and the stream's end and moves that end; refused iff something is missing |
| Audio.CeAudio.ResetStream | src/ce_audio.cpp:35-46 | reports every buffer in order, each once, and clears the stream |
| Audio.CeAudio.CloseStream | src/ce_audio.cpp:23-33 | reports every buffer in order, each once, and removes the stream |
| Audio.CeAudio.CompleteReady | src/ce_audio.cpp:81-95 | of every stream the buffers at the front that have ended are reported and gone, and the first one left ends later |
| Audio.CeAudio.GetLiveSlice | src/ce_audio.cpp:97-140 | the search loops and the cut compute the slice function |
| Audio.RunSound | src/ce_audio.cpp:15-95 | in every reachable state the buffers of a stream are ordered, do not overlap and end by the stream's next start |
| Audio.QueuedStartsNext | src/ce_audio.cpp:48-69 | in every reachable state a new buffer starts at once, or when the last queued one ends if that is later |
| Audio.CompletesExactlyEnded | src/ce_audio.cpp:81-95 | in every reachable state a pass reports exactly the buffers that have ended, each once and in queue order, and leaves exactly the others |
| Audio.EventByCallbackBits | src/ce_audio.cpp:169-174 | the completion event is the callback, the guest's value or none, by the callback bits of the flags |
| Audio.SliceIffPlaying | src/ce_audio.cpp:97-140 | in every reachable state a slice is returned iff the cursor lies inside some queued buffer |
| Audio.FirstWins | src/ce_audio.cpp:97-119 | among any streams the search picks the first one in the table that plays at the cursor, whatever the others hold |
| Audio.PlayedSlice | src/ce_audio.cpp:97-140 | the slice there is the part of that buffer between two block-aligned offsets, never empty, and starts at the cursor |
| Audio.SlicesAbut | src/ce_audio.cpp:97-167 | among any streams, while no earlier one plays, steps of at least a block give slices that each begin where the one before ended, so they join to one piece of the buffer |
| Audio.SteppingCoversBuffer | src/ce_audio.cpp:97-167 | the slices of a buffer that no earlier stream plays against join to a prefix of it that misses less than rate/1000 + blockAlign bytes iff its play time fits 32 bits |
| Pixels.Rgb565Exact | src/coredll_bitmap.cpp:88-124 | encode after decode is the identity on every 16-bit RGB565 word |
| Pixels.Rgb555Exact | src/coredll_bitmap.cpp:88-110 | and on every 15-bit RGB555 word; the top bit is lost |
| Pixels.DecodedFields | src/coredll_bitmap.cpp:88-124 | red is the top field and blue the bottom one, each widened by repeating its top bits |
| Pixels.NearestIndex | src/coredll_bitmap.cpp:1185-1200 | the search loop with its early stop finds the nearest palette entry |
| Pixels.NearestIsNearest | src/coredll_bitmap.cpp:1185-1200 | it is the lowest index among the nearest |
| Pixels.NearestIs | src/coredll_bitmap.cpp:1185-1200 | and the only index of that kind |
| Pixels.DistanceIs | src/coredll_bitmap.cpp:1185-1200 | near means the sum of the squared differences of red, green and blue |
| Pixels.ReadBitmapPixel | src/coredll_bitmap.cpp:1126-1159 | bounds, row order and the six depths; nothing for an unsupported depth |
| Pixels.WriteBitmapPixel | src/coredll_bitmap.cpp:1161-1219 | bounds, row order and the six depths; success iff inside and supported |
| Pixels.WriteBitmapSpan | src/coredll_bitmap.cpp:1221-1253 | the span, filled at once or pixel by pixel, equals painting its clipped points |
| Pixels.FillBitmapRect | src/coredll_bitmap.cpp:639-661 | the filled rectangle equals painting its clipped points; refused iff a guard fails |
| Pixels.StoreLaw | src/coredll_bitmap.cpp:1126-1219 | a written pixel reads back as what its format keeps, and every other pixel is unchanged, at all depths |
| Pixels.SlotLaw | src/coredll_bitmap.cpp:1201-1214 | pixels that share a byte do not disturb each other |
| Pixels.StoredBytes | src/coredll_bitmap.cpp:1161-1207 | at 8 to 32 bits the bytes of a pixel lie in its row, top or bottom row first, lowest byte first |
| Pixels.StoredNibble | src/coredll_bitmap.cpp:1203-1209 | at 4 bits the left pixel of a byte has its high half |
| Pixels.StoredBit | src/coredll_bitmap.cpp:1210-1214 | at 1 bit the leftmost pixel of a byte has its highest bit |
| Pixels.PaintedIs | src/coredll_bitmap.cpp:1221-1253 | painting any list of points changes exactly those inside the bitmap, in any order and number |
| Pixels.FilledIs | src/coredll_bitmap.cpp:639-661 | a fill changes exactly the pixels of the bitmap between the two corners |
| Line.LineIsAccurate | src/coredll_bitmap.cpp:679-703 | at every step the pen is i and j pixels along with twice the drift from the ideal line at most the longer side |
| Line.LineEndsExactly | src/coredll_bitmap.cpp:679-703 | the endpoint is reached after exactly max(abs dx, abs dy) steps and not before, so the unconditional loop stops |
| Line.StepsTouch | src/coredll_bitmap.cpp:694-702 | successive points are distinct neighbours |
| Line.StaysInRange | src/coredll_bitmap.cpp:679-703 | every value is within three times the longer side and every point within the endpoints, so 32 bits suffice when that does |
| Line.DrawBitmapLine | src/coredll_bitmap.cpp:663-705 | the drawn line equals painting the brush at each point of the line; refused iff a guard fails |
| Line.DrawnIs | src/coredll_bitmap.cpp:663-705 | exactly the pixels under the brush at some point of the line change; the brush is as wide as asked, 1 for 0 and at most 256, and centred or one pixel further right and down |
| Blit.CopyByPixel | src/coredll_bitmap.cpp:2250-2267 | the bounds-checked double loop computes the copy |
| Blit.ConvertRgb565ToBgra32 | src/coredll_bitmap.cpp:242-269 | eight lanes at a time and a tail equal the conversion word by word |
| Blit.LaneIsDecode | src/coredll_bitmap.cpp:247-260 | the unmasked lane arithmetic is the scalar decoder |
| Blit.ClipIsExact | src/coredll_bitmap.cpp:2224-2228 | the clipped rectangle is exactly the pixels that lie on both bitmaps |
| Blit.CopyByRow | src/coredll_bitmap.cpp:2221-2249 | the clipped row copy leaves exactly the bytes of the pixel-by-pixel copy, for all offsets, sizes, clips and row orders |
| Blit.WriteDestIsWrite | src/coredll_bitmap.cpp:2133-2148 | the copy's own writer stores what the general one does |
| Blit.CopiedIs | src/coredll_bitmap.cpp:2072-2268 | each destination pixel in the rectangle with a source point shows its colour, opaque; every other is as it was |
| Utf.Utf8ToUtf16 | src/coredll_strings.cpp:15-55 | the string decoder's loops |
| Utf.Utf16ToUtf8 | src/coredll_strings.cpp:76-93 | the string encoder's loop |
| Utf.RegistryUtf8ToUtf16 | src/coredll_registry.cpp:126-168 | the registry decoder's loops, question marks and skipped bytes included |
| Utf.RegistryUtf16ToUtf8 | src/coredll_registry.cpp:170-184 | the registry encoder's loop |
| Utf.PointSurvives | src/coredll_strings.cpp:57-74 | the bytes of a code point read back as it, and no more of them are used, whatever follows |
| Utf.FrontDecodes | src/coredll_strings.cpp:15-55 | what every front of a text decodes to: the units of its value, U+FFFD for a value UTF-16 cannot carry, U+FFFD for one byte when it has no shape of section 3 of RFC 3629 |
| Utf.FrontEncodes | src/coredll_strings.cpp:76-93 | what every front of a unit sequence encodes to: a pair as one code point, an unpaired surrogate as U+FFFD, but a high one at the very end as it is |
| Utf.AppendedIsShaped | src/coredll_strings.cpp:57-74 | the bytes of a code point are the shortest shape that carries it |
| Utf.FrontDecodesInRegistry | src/coredll_registry.cpp:126-168 | what every front of a registry text decodes to, surrogates carried and unreadable fronts a question mark with the good bytes behind them |
| Utf.RoundTripRepairs | src/coredll_strings.cpp:15-93 | encoding and decoding replaces each unpaired surrogate by U+FFFD, a trailing one too, and changes nothing else |
| Utf.RoundTripIff | src/coredll_strings.cpp:15-93 | it is the identity iff the text is well formed |
| Utf.DecodeIsWellFormed | src/coredll_strings.cpp:15-55 | decoding any bytes gives well-formed UTF-16 |
| Utf.DecodedSurvives | src/coredll_strings.cpp:15-93 | so decoded text survives every further trip |
| Utf.RegistryRoundTrip | src/coredll_registry.cpp:107-184 | the registry pair is the identity on every sequence of 16-bit units, lone surrogates included |
| Registry.RegistryJsonFromBytes | src/coredll_registry.cpp:392-432 | the loops over the data compute the stored value |
| Registry.RegistryValueBytes | src/coredll_registry.cpp:344-390 | the loops over the stored value compute the bytes |
| Registry.TypeNameParses | src/coredll_registry.cpp:186-233 | every 32-bit type is recovered from its name |
| Registry.RegistryRoundTripIff | src/coredll_registry.cpp:344-432 | a value gives back its bytes iff they have its type's shape: a NUL-free string and terminator, non-empty strings and a final NUL, 4 bytes, or anything for other types |
| Registry.StringIsStored | src/coredll_registry.cpp:392-402 | a string is stored as the text of its little-endian units up to the first NUL |
| Registry.NumberIsStored | src/coredll_registry.cpp:420-432 | a REG_DWORD is stored as its first four bytes, lowest first, and as bytes if it has fewer |
| Registry.StringsOfJoined | src/coredll_registry.cpp:403-419 | reading a multi-string gives back the list it was joined from |
| Registry.SecondTripIsFaithful | src/coredll_registry.cpp:344-432 | what comes back always has its type's shape, so a second trip loses nothing |
| CommandLine.QuoteCommandArg | src/coredll_named_dispatch.cpp:250-275 | the loop with its backslash counter computes the quoting |
| CommandLine.BuildCommandLine | src/coredll_named_dispatch.cpp:277-284 | the quoted arguments joined by blanks |
| CommandLine.QuoteParses | src/coredll_named_dispatch.cpp:250-275 | one quoted argument, before the end or a blank, parses to itself and is used up |
| CommandLine.ParseUndoesBuild | src/coredll_named_dispatch.cpp:250-284 | parsing the command line gives back the arguments, for every list of strings |
| CommandLine.BuildIsInjective | src/coredll_named_dispatch.cpp:277-284 | no two argument lists share a command line |

## Left out

- Failing mutexes and file operations, malformed JSON in the message file, the 2 ms throttle of the poll, logging, the import of foreign windows and the marshalling of WM_COPYDATA: host effects around the protocol.
- The payload of a cross-process message is one opaque value; nothing in the protocol looks at it.
- One named mapping is modelled, since names do not interact; mappings of ordinary files, protection bits and the creation of the backing directory are not.
- `handleFlushViewOfFile` for file-backed views: it writes guest memory to a host file.
- Lane order after an insert at the front or in the middle: the code always appends to the lane, so only multisets agree.
- Queue ids and window z-orders are unbounded here; 64-bit wrap-around is not modelled.
- Client coordinates of a hit test are unbounded integers; the source subtracts in 32 bits.
- Update regions, client regions and the extended style of a window: nothing in the hit test reads them.
- `decodeMipsKernelCall`: settled by reading one branch.
- Pending serial reads, the waveform refresh and the foreground pump that precede a wait refresh in a switch: host devices.
- A thread context is a pc, a result register, a global pointer and one value for all other registers; which global pointer belongs to an address is a parameter.
- What a blocking call does once its thread is parked is the return to the main context or a switch, which are steps of their own here; serial reads and waveform buffers, which also wake threads, are host devices.
- UpdateWindow and the message-transfer continuations, which move the active thread by hand in the window dispatch, and the pending host calls of the main thread itself.
- Scheduler.GuestScheduler.CreateGuestThread: handles do not wrap, and its refusals for a missing start address or a full heap are not modelled.
- Scheduler.GuestScheduler.StartGuestProcessImage: handles do not wrap, and neither its refusals nor the command line it writes are modelled.
- Which posts are followed by a wake is a choice of the step in `MessageLoop`; the source wakes after PostMessageW, PostQuitMessage, a message sent to another thread and a cross-process delivery, and nowhere else.
- The address 0 is never handed out because the heap starts above it; the stack and TLS blocks of a new thread are ordinary allocations.
- Coalescing of free blocks: the code does none.
- GuestHeap.CeMemory.AllocateBlock: requires that the 32-bit sums do not wrap, because a wrapped result lies outside the heap; exactly when that breaks the heap is GuestHeap.AllocateKeepsInvIff, and GuestHeap.CeMemory.TakeBlock covers the wrapping calls too.
- GuestHeap.CeMemory.Reallocate: requires the same of the new size, for the same reason.
- GuestHeap.CeMemory.HandleRealloc: the same, of a size that is allocated.
- GuestHeap.CeMemory.HandleHeapReAlloc: the same, when the heap and the block are valid.
- Audio times are unbounded; only the 32-bit play time of one buffer is truncated, as in the source. Sample format fields other than the byte rate and the block size are not read.
- The generic masked 16-bit pixel codec is a parameter: everything here holds for any such codec, and its round trip is not exact (a 5-bit 1 widens to 8 and narrows to 0).
- Reading and writing the guest memory behind a bitmap: the methods work on its bytes.
- Pixels.StoreLaw: needs rows that fit their stride; with a shorter stride the source writes into the next row or past the end.
- Pixels.ReadBitmapPixel: requires rows that fit their stride. The bytes are stride times height, so with a shorter stride the last pixel lies past their end, which the source does not check.
- Pixels.WriteBitmapPixel: requires the same, for the same reason.
- Pixels.WriteBitmapSpan: requires the same, for the same reason.
- Pixels.FillBitmapRect: requires the same, for the same reason.
- Line.DrawBitmapLine: requires the same, for the same reason.
- Blit.CopyByPixel: requires the same of both bitmaps, for the same reason.
- Blit.CopyByRow: requires the same of both bitmaps, for the same reason.
- Line drawing and fills on the framebuffer, polygons, ellipses and round rectangles: they depend on windows outside this model or on floating point.
- Blits that scale, use another raster operation, or have another destination depth: they share the scalar loop, whose writer differs only in its palette limit.
- Blit.EightLanes: one loop of eight stands for the eight vector lanes.
- JSON numbers other than unsigned ones, and numbers beyond 64 bits.
- The registry database, its keys and its file: lookups by normalised name.
- CommandLine.ParseUndoesBuild: takes the general rule for every position, the program name included, which Windows parses by a simpler rule.
