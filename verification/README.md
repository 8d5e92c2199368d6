# KairosBoot verification project

A Dafny model of the parts of KairosBoot where correctness depends on whole runs,
on all inputs of a parser, or on arithmetic, together with proofs about it. Check
everything with `dafny verify dfyconfig.toml`.

| file | what it models |
|---|---|
| `Reconnect.dfy`, `Deadlines.dfy` | rebooting a network device into fastbootd and reconnecting, with its deadline arithmetic |
| `DeviceLease.dfy` | the one-operation lease and the reference count of a device, as interleaved atomic steps |
| `DeviceBatch.dfy` | one command over several devices with up to 32 worker threads |
| `VendorBootFetch.dfy` | chunked read-back of vendor_boot into one published file |
| `FlashLoop.dfy` | flashing a plan of parts to several partitions |
| `SlotExpansion.dfy` | slot choice, expansion of update plans, set_active |
| `OptionOrder.dfy`, `CommandLine.dfy`, `OptionMeaning.dfy` | argument reordering, option parsing and what each option means |
| `Utf8.dfy`, `Decimal.dfy`, `DeviceSelector.dfy` | UTF-8 validation, serial decoding, USB paths, device selection |
| `OptionStructs.dfy`, `StructLayout.dfy` | versioned option structs as bytes, and as callers lay them out |
| `TcpFraming.dfy`, `ScriptedDevice.dfy`, `ScriptedTrace.dfy`, `DownloadCuts.dfy`, `DownloadSize.dfy` | the scripted Fastboot device, its TCP server, what its recordings say, announced download sizes and downloads cut into frames |
| `TraceCompare.dfy` | event order and first difference of captured traces |
| `SignTest.dfy`, `Fairness.dfy` | the exact sign test and Jain's fairness index |
| `TextEncoders.dfy` | Base64 and JSON string escaping |
| `Common.dfy` | shared values, status codes and progress sequences |

Clocks, cancellation, device replies, file system results and thread schedules are
parameters: a proof about a run holds for every choice of them. Concurrent code is
a step relation whose runs are all interleavings of its atomic steps. Code that
updates objects or loops is a class or a method proved against an independent
specification.

What the model shows about the code:

- A finite update timeout that ends exactly on the clock's last time point is taken
  for "no deadline" (`Deadlines.FiniteTimeoutDeadline` gives the exact condition).
- With an effective `--` the reordered argument list is one shorter than the argument
  count the reading pass goes by (`OptionOrder.ReorderedLength`). The pass leaves the
  list exactly when it uses it up or misses a value (`OptionOrder.Parse`), for example
  on a lone `--`; `devices` then reads behind it (`CommandLine.DevicesWithTerminator`).
  Options behind a `--` that no positional precedes are still read as options
  (`OptionOrder.OptionsBehindTerminator`).
- An option that takes a value but stands last swallows the first positional
  (`OptionOrder.LastOptionTakesPositional`).
- Slot expansion compares the list with the task limit only where it adds a flash
  task, so other tasks behind can take it past the limit
  (`SlotExpansion.LimitCanBePassed`; `SlotExpansion.LimitIsKept` says exactly when not).
- How a download is split into frames can matter, for two reasons: an empty frame after
  its last byte fails or is refused (`ScriptedDevice.SplitMattersExactly`), and the
  server compares DATA bytes, too, with the commands after which it expects a reconnect
  (`DownloadCuts.DataCanSpellReconnect`). `DownloadCuts.SplitStreamExactly` says exactly
  when.
- A recorder can be captured once only (`ScriptedDevice.SecondCaptureIsRefused`).
- A trace with a NaN differs from itself (`TraceCompare.SelfComparison`). The written
  path does not tell a key apart from further steps: a key is written like some other
  path exactly when it contains a dot or ends in an index such as `[0]`
  (`TraceCompare.KeyReadings`, and `TraceCompare.OtherReadingsExactly` for paths).
- `include/kairosboot/kairosboot.h` documents that set_active is issued before flash
  tasks; the flash operation sends it after all parts, and the model follows the code.

## Model

| member | source | states |
|---|---|---|
| `Reconnect.ExecuteNetworkRebootFastboot` | src/kairosboot.cpp:4191-4349 | whatever the clock, cancellations, open failures and replies: the trace keeps the protocol's order of events, every event is what the environment answered, and the outcome is the one the last event forces; it succeeds exactly when the last event is an answer of "yes", is cancelled exactly with the cancelled status, never ends on a probe of the returning device that was Closed, Poisoned, Timeout, Disconnected or TransportIo, and after a confirmed reboot every other outcome is FULLY_TRANSFERRED; an unfinished run stands between two rounds |
| `Reconnect.RebootOnce` | src/kairosboot.cpp:4196-4257 | the part up to the closed first session: probe, reboot, close, with every early exit |
| `Reconnect.ReconnectOnce` | src/kairosboot.cpp:4263-4291 | one round up to the elapsed wait, with the backoff of that round and its cap by the time left |
| `Reconnect.ReopenOnce` | src/kairosboot.cpp:4293-4348 | the rest of the round: reopen and probe again, retry only after the five transport errors |
| `Reconnect.EventsAreInPlace` | src/kairosboot.cpp:4191-4349 | in every run the first connection fills the first five positions in one order and never comes back |
| `Reconnect.AtMostOneReboot` | src/kairosboot.cpp:4217-4248 | at most one reboot is sent, directly after a first probe that answered "no" or was refused by the device |
| `Reconnect.OneSessionAtATime` | src/kairosboot.cpp:4257-4339 | at most one session is open at any point of a run, and exactly after a successful open, probe or reboot |
| `Reconnect.OnlyLostLinksAreRetried` | src/kairosboot.cpp:4319-4337 | in every run a probe after the reboot is followed by anything at all exactly when it failed with one of these five errors, and then by the close of its session |
| `Statuses.StatusTellsCause` | src/api/error_mapping.cpp:114-136 | which primitive errors each public status stands for, both directions |
| `Reconnect.ConfirmedRebootIsReported` | src/kairosboot.cpp:4249-4349 | after a fully sent reboot every outcome but success reports FULLY_TRANSFERRED |
| `Reconnect.OpenTimeouts` | src/kairosboot.cpp:4198-4204 | every open gets a timeout in 1..UINT32_MAX-1 under a finite deadline and the infinite one otherwise |
| `Reconnect.TotalBackoffGrows` | src/kairosboot.cpp:4260-4261 | n retries back off at least 50 ms each and, from the fifth on, exactly 1000n - 3450 ms in all |
| `Reconnect.EarlierRoundsPassed` | src/kairosboot.cpp:4262-4349 | when a round is under way every earlier wait elapsed and left time before the deadline |
| `Reconnect.PassedRoundsTakeTime` | src/kairosboot.cpp:4275-4291 | with waits that last as long as asked, finished rounds take at least the sum of their backoffs and end before the deadline |
| `Reconnect.RetriesFitBeforeDeadline` | src/kairosboot.cpp:4262-4309 | the loop is still running after n rounds only if n backoffs, so 50 ms per round, fit before a finite deadline |
| `Reconnect.ExecuteUntilDeadline` | src/kairosboot.cpp:4262-4349 | hence the operation ends within that many rounds |
| `Deadlines.CeilMs` | src/kairosboot.cpp:1260-1261 | the least whole number of milliseconds not below a span |
| `Deadlines.FiniteTimeoutDeadline` | src/kairosboot.cpp:1225-1241 | a finite timeout becomes "no deadline" exactly when it ends on the clock's last time point, is refused exactly beyond it, and is start plus timeout otherwise |
| `Deadlines.FiniteTimeoutCanBecomeInfinite` | src/kairosboot.cpp:1231-1240 | such a start time exists: one millisecond before the end of the clock |
| `Deadlines.InfiniteStaysInfinite` | src/kairosboot.cpp:1229-1255 | an infinite timeout always becomes "no deadline", and every later call gets the infinite timeout |
| `Deadlines.RemainingTimeoutIsTight` | src/kairosboot.cpp:1243-1269 | a finite deadline gives a timeout exactly before it; it is never the infinite value and is the least that reaches the deadline unless capped |
| `Deadlines.BoundedTimeoutKeepsDeadline` | src/kairosboot.cpp:2237-2247 | a deadline transport refuses expired calls, never lengthens one, and overshoots by less than a millisecond |
| `DeviceBatch.ExitCode` | cli/main.cpp:2669-2673 | zero exactly when all results are zero, otherwise the failure that no earlier one precedes |
| `DeviceBatch.StepKeepsInvariant` | cli/main.cpp:2655-2666 | each thread step keeps: claims in ticket order, each claimed index in flight on its claimant or finished, results equal to outcomes |
| `DeviceBatch.RunKeepsInvariant` | cli/main.cpp:2649-2667 | the invariant holds at every moment of every interleaving |
| `DeviceBatch.NoSelectorRunsTwice` | cli/main.cpp:2649-2667 | at most 32 workers, the k-th claim is index k, two workers never run the same index, and never equal selectors when the selectors differ |
| `DeviceBatch.BatchResult` | cli/main.cpp:2649-2673 | at return every selector was run exactly once and claimed in selector order, by min(n, 32) workers, the results are the commands' codes in that order, and the first failure among them is the exit code |
| `DeviceBatch.CodeBecomesResult` | cli/main.cpp:2655-2666 | in every run each code a command returned is, at the end, the result of the selector it ran for |
| `DeviceBatch.ScheduleDoesNotMatter` | cli/main.cpp:2649-2673 | two runs with the same code per device return the same exit code |
| `DeviceBatch.StepMakesProgress` | cli/main.cpp:2655-2667 | each step brings the batch exactly one step nearer to its end |
| `DeviceBatch.NeverBlocked` | cli/main.cpp:2655-2668 | until it has returned some step is possible |
| `DeviceBatch.RunLength` | cli/main.cpp:2649-2668 | no run is longer than 2n + 2w + 1 steps for n devices and w workers |
| `DeviceLease.StepKeepsInvariant` | src/kairosboot.cpp:221-253 | every atomic step of any thread, allocation failure included, keeps the lease, log, ownership and reference-count invariants |
| `DeviceLease.RunKeepsInvariant` | src/kairosboot.cpp:221-253 | they hold in every reachable state |
| `DeviceLease.OperationsNeverOverlap` | src/kairosboot.cpp:2441-2498 | busy is set exactly while one acquirer or unreleased lease exists, there is never a second, and each operation is released before the next is acquired |
| `DeviceLease.BusyNeverStuck` | src/kairosboot.cpp:228-252 | from every reachable busy state the holder's own remaining steps are possible and clear busy |
| `DeviceLease.NothingUsedAfterItIsGone` | src/kairosboot.cpp:4851-4864 | no step touches a deleted device, reads of its fields during an operation included, or a freed operation state |
| `DeviceLease.StateOutlivesDevice` | src/kairosboot.cpp:77-89 | the operation state is not freed while an operation starts or runs, deleted device or not |
| `DeviceLease.DeletedExactlyOnce` | src/kairosboot.cpp:4851-4864 | at most one delete per run, only without references, and done once nobody is on the way to it |
| `DeviceLease.NothingLeaks` | src/kairosboot.cpp:77-89 | when all calls returned and all leases and references are gone, busy is clear, the state freed and the device deleted |
| `DeviceLease.HolderStep` | src/kairosboot.cpp:237-252 | a step keeps "busy exactly with one holder" |
| `DeviceLease.StateStep` | src/kairosboot.cpp:221-236 | a step keeps the pointer count equal to the owners, and the state freed exactly without owners |
| `DeviceLease.DeviceStep` | src/kairosboot.cpp:4851-4864 | a step keeps the reference count equal to the references, with one thread to delete |
| `VendorBootFetch.TilesJoin` | src/kairosboot.cpp:3917-3972 | requests start at zero, join without gap or overlap, hold 1..max bytes and end at the partition's end |
| `VendorBootFetch.TilesCoverOnce` | src/kairosboot.cpp:3917-3972 | every position lies in exactly one request |
| `VendorBootFetch.FileSink.Write` | src/protocol/file_transfer_sink.cpp:624-755 | stores all bytes at exactly the next offset or fails and closes the file for good |
| `VendorBootFetch.FileSink.Seal` | src/protocol/file_transfer_sink.cpp:757-903 | publishes exactly at the expected size |
| `VendorBootFetch.FileSink.Discard` | src/protocol/file_transfer_sink.cpp:928-939 | drops the file unless it is published |
| `VendorBootFetch.OffsetSink.Write` | src/kairosboot.cpp:1568-1593 | writes at base plus offset, refusing 64-bit overflow |
| `VendorBootFetch.Receive` | src/protocol/fastboot_protocol.cpp:417-538 | succeeds exactly when the reads bring the announced bytes within bounds, and then appends exactly those; progress never falls |
| `VendorBootFetch.FetchChunk` | src/kairosboot.cpp:3944-3971 | succeeds exactly for a reply of the requested size that arrives completely and ends with OKAY |
| `VendorBootFetch.FetchTiles` | src/kairosboot.cpp:3916-3973 | requests tile after tile; any inexact chunk or cancellation discards the file; otherwise the file is the chunks' bytes in order |
| `VendorBootFetch.FetchPartition` | src/kairosboot.cpp:3870-3977 | published exactly when no progress report cancels, every tile arrives exactly and syncing works; then all ceil(size/max) tiles were requested, else a prefix of them; progress starts at 0, never falls, and ends at the size when the file is published |
| `VendorBootFetch.PublishedIsPartition` | src/kairosboot.cpp:3916-3977 | with a device that answers with its partition's bytes the published file is the partition |
| `FlashLoop.FlashParts` | src/kairosboot.cpp:3670-3701 | all parts in order to each partition before the next; a failure stops the loop with an honest transfer state |
| `FlashLoop.FinishFlash` | src/kairosboot.cpp:3703-3722 | set_active and the final report come after every part |
| `FlashLoop.FlashAll` | src/kairosboot.cpp:3654-3723 | refused exactly when the total exceeds 64 bits; sends are a prefix of the expected order; progress is first reported as 0, names the same total throughout, rises within it if each source's does; set_active only after all parts; success exactly when every part, cancellation check, first and last report and activation goes through, and then progress ends at the total; a failure names the first failing part and reports exactly what is known of it |
| `FlashLoop.AccumulatedIsHonest` | src/api/error_mapping.cpp:492-518 | a failure says NOT_SENT only without confirmed bytes and FULLY_TRANSFERRED only when everything was sent |
| `FlashLoop.AccumulatedIsExact` | src/api/error_mapping.cpp:492-518 | NOT_SENT exactly when the bytes before the failed part and, if it was downloaded, its own are none; FULLY_TRANSFERRED exactly when they are all; neither after an uncertain transfer |
| `FlashLoop.Fits` | src/kairosboot.cpp:3654-3663 | the overflow guard is exact |
| `SlotExpansion.PlanPartitionSlots` | src/kairosboot.cpp:1062-1079 | plans the name before the colon and appends the suffix to every result |
| `SlotExpansion.IsValidPartitionName` | src/fastboot/primitive_service.cpp:183-190 | 1 to 4080 letters, digits, dots, dashes and underscores |
| `SlotExpansion.CurrentSlotIsPlanned` | src/fastboot/primitive_service.cpp:1086-1092 | without a slot asked for, a partition with slots goes to the current slot, reported with or without underscore |
| `SlotExpansion.OtherSlotIsPlanned` | src/fastboot/primitive_service.cpp:1093-1108 | "other" is the slot that is not current, and refused unless there are two |
| `SlotExpansion.LetterIsPlanned` | src/fastboot/primitive_service.cpp:1070-1079 | a letter, with or without underscore, is that slot exactly if the device has it |
| `SlotExpansion.AllSlotsArePlanned` | src/fastboot/primitive_service.cpp:1080-1086 | "all" is every slot in the reported order |
| `SlotExpansion.OtherRequestsAreRefused` | src/fastboot/primitive_service.cpp:1147-1204 | no other request is planned, and a partition without slots goes to itself only when no slot is asked for |
| `SlotExpansion.UnknownCurrentIsRefused` | src/fastboot/primitive_service.cpp:1038-1063 | without a current slot among the reported ones the current and the other slot are refused |
| `SlotExpansion.ApplyUpdateSlotPolicy` | src/kairosboot.cpp:2715-2794 | the concatenation of each task's block, or an error exactly when a block cannot be planned or a flash task lands beyond the limit |
| `SlotExpansion.ExpandedInOrder` | src/kairosboot.cpp:2729-2791 | consecutive non-empty blocks in task order; other tasks unchanged; flash tasks differ only in partition and default slot, and keep their suffix |
| `SlotExpansion.FlashTasksAreResolved` | src/kairosboot.cpp:2779-2790 | every resulting flash task has the default slot and lies below the limit |
| `SlotExpansion.LimitIsKept` | src/kairosboot.cpp:2776-2790 | the expanded plan stays within the task limit exactly when one entry per chosen slot of every flash task and one per other task do; unless every slot is asked for it is as long as the plan |
| `SlotExpansion.LimitCanBePassed` | src/kairosboot.cpp:2729-2790 | a plan of exactly the largest size the package check admits, with one slotted flash task in front, expands past the limit without an error |
| `SlotExpansion.NamesAreValid` | src/fastboot/primitive_service.cpp:1147-1204 | every planned name is the valid base or that base with one slot, and holds no colon |
| `SlotExpansion.SecondaryGoesElsewhere` | src/kairosboot.cpp:2735-2769 | on a two-slot device with current slot x a task for the other slot goes to the slot that was not asked for, and with "all" to the one that is not current |
| `SlotExpansion.PrimaryGoesToSlot` | src/kairosboot.cpp:2735-2775 | on such a device a task for the default slot goes to exactly the slot asked for |
| `SlotExpansion.PlanGoesToSlots` | src/kairosboot.cpp:2715-2794 | so a whole plan is expanded task for task, each in its slot |
| `SlotExpansion.TopologyFromCount` | src/fastboot/primitive_service.cpp:963-987 | two to 26 reported slots become as many different letters from a on |
| `SlotExpansion.OtherIsNext` | src/kairosboot.cpp:1797-1815 | set_active "other" sends the slot after the current one |
| `SlotExpansion.OtherIsActivatedExactly` | src/kairosboot.cpp:1797-1815 | it is sent exactly when the device reports one of its slots as current |
| `SlotExpansion.RequestedSlotIsActivated` | src/kairosboot.cpp:1782-1822 | any other request is sent exactly when it names a reported slot; "all" sends the first |
| `SlotExpansion.OtherReaches` | src/kairosboot.cpp:1808-1812 | repeating "other" reaches every reported slot |
| `SlotExpansion.OtherDoesNotRepeat` | src/kairosboot.cpp:1808-1812 | and meets none twice before it is back at the first |
| `OptionOrder.Reorder` | cli/main.cpp:582-612 | options with their values, then positionals, each in order |
| `OptionOrder.ReorderedLength` | cli/main.cpp:586-613 | the reordered list is as long as the argument count exactly without an effective "--", otherwise one shorter |
| `OptionOrder.PartitionSeparates` | cli/main.cpp:586-612 | any mixture of groups and positionals is separated into both |
| `OptionOrder.ItemizeInverts` | cli/main.cpp:586-612 | every command line without "--" and with its last value present is a mixture in exactly one way |
| `OptionOrder.LastOptionTakesPositional` | cli/main.cpp:592-599 | behind any mixture, an option that lacks its value is read with the first positional as its value; without a positional its value is missing, unless an earlier group or a repetition is refused first |
| `OptionOrder.ReadOptions` | cli/main.cpp:645-886 | reads groups from the front until the first non-option, and leaves the list when the count is larger than it |
| `OptionOrder.ScanBeyond` | cli/main.cpp:645-886 | with too large a count the reading pass leaves the list exactly when, with the right count, it would use the list up or miss a value; otherwise the count makes no difference |
| `OptionOrder.ScanGroups` | cli/main.cpp:645-886 | reading groups followed by anything reads each group in turn and goes on with the rest |
| `OptionOrder.TerminatorSplits` | cli/main.cpp:586-591 | every command line with an effective "--" is a mixture, the "--" and a tail |
| `OptionOrder.TerminatedReading` | cli/main.cpp:586-886 | with a positional before the "--" everything behind it is positional; without one reading goes on behind it, and leaves the list exactly when the groups before are accepted and the tail is used up or misses a value |
| `OptionOrder.OptionsBehindTerminator` | cli/main.cpp:586-886 | option groups behind such a "--" are read like those before it, and the list is left exactly when all are accepted and no positional follows |
| `OptionOrder.ScanFolds` | cli/main.cpp:645-886 | reading groups followed by positionals reads each group in turn and leaves the positionals |
| `OptionOrder.FoldAccepts` | cli/main.cpp:645-886 | accepted exactly when all values are well formed, nothing unrepeatable is repeated and no selector occurs twice; the settings are then those of the groups |
| `OptionOrder.FoldPermutes` | cli/main.cpp:645-886 | permuting groups while keeping the selectors in order changes neither acceptance nor settings |
| `OptionOrder.Parse` | cli/main.cpp:577-894 | both passes together: the outcome of reading the separated arguments by the original count; the reading pass leaves its list exactly with an effective "--" and a reading that uses the list up or misses a value; without "--" it gives the meaning of the mixture |
| `CommandLine.PassesAgree` | cli/main.cpp:413-445 | both passes agree on what an option is and on whether it takes the next argument |
| `CommandLine.SparseLimitIsExact` | cli/main.cpp:457-494 | a size with a unit is number times unit exactly as long as that fits 64 bits |
| `CommandLine.ParseFilesystemOptions` | cli/main.cpp:515-544 | accepts exactly comma-separated lists of different known names and sets those |
| `CommandLine.ParseInvocation` | cli/main.cpp:577-894 | the same for the real options and both real passes, whatever the command table |
| `CommandLine.LoneTerminatorLeavesTheList` | cli/main.cpp:586-650 | a lone "--" makes the reading pass leave its list |
| `CommandLine.DevicesWithTerminator` | cli/main.cpp:586-987 | with an effective "--" and accepted options before it, devices never lists: alone, with options it admits, it reads one argument behind the list; otherwise it is refused |
| `CommandLine.OrderDoesNotMatter` | cli/main.cpp:582-886 | mixing differently and permuting groups, -s kept in order, changes neither acceptance nor the result for any command table |
| `CommandLine.SelectorsAreDistinct` | cli/main.cpp:656-669 | an accepted command line names no device twice |
| `CommandLine.CommandIsNamed` | cli/main.cpp:888-896 | a line with accepted options runs the command its first positional names; none, or one that starts with a dash and does not ask for version or help, is refused |
| `OptionMeaning.RecognisesSpellings` | cli/main.cpp:645-858 | an argument is read as an option exactly when it is one of the spellings of that option |
| `OptionMeaning.SpellingsAreUnique` | cli/main.cpp:645-858 | only --verbose, --fs-options and --set-active have more than one spelling |
| `OptionMeaning.OptionSetsItsKey` | cli/main.cpp:645-883 | an option alone sets exactly the setting it spells to exactly the value it writes, and is accepted only then |
| `OptionMeaning.SelectorSelects` | cli/main.cpp:656-669 | -s alone selects exactly the device it names |
| `OptionMeaning.RepeatedExactly` | cli/main.cpp:645-883 | of two options for one setting the second is accepted exactly for the two AVB flags |
| `OptionMeaning.ParsesNumbers` | cli/main.cpp:496-513 | a number is read exactly as its digits denote it, hexadecimal after 0x, up to the largest allowed |
| `OptionMeaning.ParsesSizes` | cli/main.cpp:457-494 | a size is read exactly as its decimal digits times 2^10, 2^20 or 2^30, as long as that fits 64 bits |
| `OptionMeaning.BaseInHexadecimal` | cli/main.cpp:835-871 | for instance --base 0x10 is sixteen |
| `OptionMeaning.DevicesAdmits` | cli/main.cpp:912-955 | which options devices refuses |
| `Utf8.CharacterIsEncoding` | src/kairosboot.cpp:255-304 | the byte grammar of section 4 of RFC 3629 describes exactly the encodings of scalar values |
| `Utf8.ValidUtf8` | src/kairosboot.cpp:255-304 | true exactly for concatenations of encoded scalar values |
| `Utf8.SelectorValidUtf8` | src/api/device_selector.cpp:28-69 | the same for the selector's validator |
| `Utf8.ValidatorsAgree` | src/api/device_selector.cpp:28-69 | both give the same verdict on every input |
| `Decimal.PrintIsCanonical` | src/kairosboot.cpp:1418-1431 | printing a number gives canonical digits that denote it |
| `Decimal.CanonicalIsPrinted` | src/api/device_selector.cpp:123-180 | canonical digits are the print of what they denote |
| `DeviceSelector.DecodeSerial` | src/api/device_selector.cpp:84-114 | decodes exactly the percent-encodings (section 2.1 of RFC 3986) of non-empty, control-free valid UTF-8, each to what it spells |
| `DeviceSelector.PhysicalUsbPath` | src/kairosboot.cpp:1418-1431 | the printed path, empty without ports |
| `DeviceSelector.PathRoundTrip` | src/api/device_selector.cpp:123-180 | a path parses to a value exactly when it is that value's printed form, bus 0..255 and 1..7 ports in 1..255 |
| `DeviceSelector.ParseUsbPath` | src/api/device_selector.cpp:123-180 | the same for the parser |
| `DeviceSelector.ParseDeviceSelector` | src/api/device_selector.cpp:213-273 | which selector each prefix gives, and exactly when |
| `DeviceSelector.PrefixesAreText` | src/api/device_selector.cpp:213-262 | the prefixes and separators as text |
| `DeviceSelector.SelectUsbDevice` | src/api/device_selector.cpp:275-317 | the only matching device, or which error |
| `DeviceSelector.Reselect` | src/kairosboot.cpp:4811-4824 | a device looked up again by its recorded path gives the same bus and ports or an error, and succeeds exactly when one such device is there |
| `DeviceSelector.PathTextInjective` | src/kairosboot.cpp:1418-1431 | different paths print differently |
| `TcpFraming.Connection.ReceiveExact` | scripts/run_official_fastboot_differential.py:294-301 | the next bytes of the stream, however recv cuts them |
| `TcpFraming.Connection.ReceiveFrame` | scripts/run_official_fastboot_differential.py:304-308 | the first payload and the stream behind it |
| `TcpFraming.FramingInverts` | scripts/run_official_fastboot_differential.py:304-312 | a payload is received exactly when its frame is at the front and it is within the limit |
| `TcpFraming.FramesAreReceived` | scripts/run_official_fastboot_differential.py:304-312 | frames sent in a row decode to exactly what was sent |
| `ScriptedDevice.WireRecorder.HandleData` | scripts/run_official_fastboot_differential.py:344-367 | collects a download and answers when it is complete |
| `ScriptedDevice.WireRecorder.HandleSimple` | scripts/run_official_fastboot_differential.py:504-532 | informational responses, then OKAY |
| `ScriptedDevice.WireRecorder.Handle` | scripts/run_official_fastboot_differential.py:341-536 | new state and reply of any message in any state |
| `ScriptedDevice.WireRecorder.TakePendingResponses` | scripts/run_official_fastboot_differential.py:538-541 | hands out the pending replies once |
| `ScriptedDevice.WireRecorder.Capture` | scripts/run_official_fastboot_differential.py:543-572 | appends FILE and EXIT only to a finished scenario with the expected output |
| `ScriptedDevice.WireRecorder.Serve` | scripts/run_official_fastboot_differential.py:611-633 | the recording of a client's connections, with handshake and reconnecting, is a function of their bytes, not of how recv cuts them |
| `ScriptedDevice.WireRecorder.ServeConnection` | scripts/run_official_fastboot_differential.py:613-633 | the same for one connection, up to the end of the scenario, an expected reconnect or a refusal |
| `ScriptedDevice.SplitMattersExactly` | scripts/run_official_fastboot_differential.py:341-374 | the frames of a download lead to the last reply of the whole exactly unless the download is complete, came in several frames and the last of them is empty; outside that case also to its recorder, with nothing answered before the last frame |
| `ScriptedDevice.DownloadBeforeUse` | scripts/run_official_fastboot_differential.py:439-503 | in every accepted run flash, boot, signature, stage and update-super come after a completed download |
| `ScriptedDevice.CapturesAreAccepted` | scripts/run_official_fastboot_differential.py:543-572 | every capture of an accepted run has its only CLI_PARSE first and its only EXIT last |
| `ScriptedDevice.SecondCaptureIsRefused` | scripts/run_official_fastboot_differential.py:567-568 | a second capture of the same recorder is out of order |
| `ScriptedTrace.HandledExplained` | scripts/run_official_fastboot_differential.py:341-536 | every message that is not rejected keeps the recorder in step with its trace read backwards: the artifact is the last download, each partition holds the download before its last flash, every other entry is what the last command about it left, the counters count events, the scenario is over exactly by its terminal command, its download or a failure |
| `ScriptedTrace.StartExplained` | scripts/run_official_fastboot_differential.py:316-333 | the new recorder is in step with its CLI_PARSE event |
| `ScriptedTrace.VariableAnswerExplained` | scripts/run_official_fastboot_differential.py:376-400 | every GETVAR is followed by the entry of its sequence that the number of earlier queries selects, the last entry once they are used up, or by the configured or default value |
| `ScriptedTrace.VariableCountsExplained` | scripts/run_official_fastboot_differential.py:335-339 | a sequenced variable's index is the number of its GETVAR events, and the terminal count and end are those of the trace |
| `ScriptedTrace.DataSentExplained` | scripts/run_official_fastboot_differential.py:403-431 | the n-th data the device sends is the n-th configured chunk, or the payload |
| `ScriptedTrace.DownloadUserExplained` | scripts/run_official_fastboot_differential.py:439-503 | flash, signature, boot, stage and update-super store the last download, each in its own entry and nothing else |
| `ScriptedTrace.SimpleExplained` | scripts/run_official_fastboot_differential.py:504-532 | the command list of the device is the simple commands of the trace in order |
| `ScriptedTrace.CommandExplained` | scripts/run_official_fastboot_differential.py:402-536 | the same for every command of the table, unknown ones included |
| `ScriptedTrace.FeedExplained` | scripts/run_official_fastboot_differential.py:341-536 | it holds after every run without a rejected message |
| `ScriptedTrace.HandledIgnoresPending` | scripts/run_official_fastboot_differential.py:341-541 | replies that still wait make no difference to the next message |
| `ScriptedTrace.ServedIsFed` | scripts/run_official_fastboot_differential.py:621-633 | serving the frames of accepted messages after none of which the client connects anew records what handling the messages records (DownloadCuts.ServedIsStaged covers the others) |
| `ScriptedTrace.SessionsSound` | scripts/run_official_fastboot_differential.py:611-633 | every completed row of connections ends finished, with recorder and trace in step |
| `ScriptedTrace.CompleteCapture` | scripts/run_official_fastboot_differential.py:543-633 | every capture the server completes, over any connections and any bytes: its trace explains the device, has ended, has its downloads before their use, and is accepted by the comparator |
| `DownloadSize.AsciiInverts` | scripts/run_official_fastboot_differential.py:369-374 | a payload is a command exactly when it is the ASCII bytes of that text |
| `DownloadSize.SizeIsWritten` | scripts/run_official_fastboot_differential.py:433-436 | eight characters announce n exactly when, in lower case, they are the eight hexadecimal digits of n |
| `DownloadSize.SizeRoundTrip` | scripts/run_official_fastboot_differential.py:431-436 | the eight digits the device writes for n are read as n |
| `DownloadSize.DownloadIsAnnounced` | scripts/run_official_fastboot_differential.py:432-438 | a download command is answered with the size it announces, and rejected exactly when it announces none |
| `DownloadSize.DownloadTakesItsSize` | scripts/run_official_fastboot_differential.py:344-438 | after it the device is silent for fewer than n bytes, says OKAY at n and rejects more |
| `DownloadCuts.ServedIsStaged` | scripts/run_official_fastboot_differential.py:621-633 | serving the frames of any messages is handling them one by one up to the end of the scenario, the first refusal or the first expected reconnect |
| `DownloadCuts.CutIsServed` | scripts/run_official_fastboot_differential.py:344-374 | every cut of a download is served exactly to the ending its frames call for: with the download, by a reconnect that some frame spells, by an empty frame too many, or waiting for more |
| `DownloadCuts.CutsAlikeExactly` | scripts/run_official_fastboot_differential.py:304-374 | two cuts of one download are recorded alike in every stream exactly when they have the same ending |
| `DownloadCuts.GoodCutsAlike` | scripts/run_official_fastboot_differential.py:304-374 | all cuts without a frame that spells a reconnect command and without an empty frame behind the last byte are recorded alike, downloads above the frame limit included |
| `DownloadCuts.SplitStreamExactly` | scripts/run_official_fastboot_differential.py:304-374 | exactly which cuts are recorded like the download in one frame within the limit: for a terminal download those where no frame before the completing one spells a reconnect command; otherwise those where neither a frame nor the whole spells one and no empty frame follows the last byte, or where the first frame that spells one ends with the last byte and the whole spells one too |
| `DownloadCuts.CutHidesReconnect` | scripts/run_official_fastboot_differential.py:628-633 | bytes that spell a reconnect command in one frame make the client reconnect there and not when they are cut |
| `DownloadCuts.DataCanSpellReconnect` | scripts/run_official_fastboot_differential.py:628-633 | for instance the two bytes of "ab" |
| `TraceCompare.CheckScenarios` | scripts/compare_fastboot_traces.py:76-101 | accepts exactly scenarios with different ids, each with its only CLI_PARSE first and only EXIT last |
| `TraceCompare.NoDifferenceIsSame` | scripts/compare_fastboot_traces.py:154-190 | no difference exactly when the trees are equal with equal types, whatever the field order |
| `TraceCompare.FieldOrderDoesNotMatter` | scripts/compare_fastboot_traces.py:159-171 | reordering the fields of any objects, at every level of both trees, does not change whether there is a difference |
| `TraceCompare.ActualOrderDoesNotMatter` | scripts/compare_fastboot_traces.py:154-190 | reordering the actual tree, at any level, does not change which difference is reported: same path, same expected entry, same actual entry up to field order |
| `TraceCompare.ExpectedOrderMatters` | scripts/compare_fastboot_traces.py:160-167 | reordering the expected tree can change it |
| `TraceCompare.PermutedFields` | scripts/compare_fastboot_traces.py:159-171 | permuting the fields of an object is such a reordering |
| `TraceCompare.SelfComparison` | scripts/compare_fastboot_traces.py:188-190 | a tree differs from itself exactly when it contains a NaN |
| `TraceCompare.DifferenceIsLocated` | scripts/compare_fastboot_traces.py:154-190 | the path leads in both trees to the reported entries, they differ, and everything visited before is equal |
| `TraceCompare.TextDeterminesPath` | scripts/compare_fastboot_traces.py:154-190 | the written path determines the path when no key contains a dot or an opening bracket |
| `TraceCompare.ReportedTextIsUnique` | scripts/compare_fastboot_traces.py:154-190 | so the reported text names one place of such trees |
| `TraceCompare.OtherKeysAreAmbiguous` | scripts/compare_fastboot_traces.py:164-185 | a key that ends in the text of a step is written like the shorter key and that step |
| `TraceCompare.KeyReadings` | scripts/compare_fastboot_traces.py:163 | a single key is written like some other path exactly when it contains a dot or ends in the text of an index |
| `TraceCompare.OtherReadingsExactly` | scripts/compare_fastboot_traces.py:163-183 | a path is written like some other path exactly unless it is a chain of indices, with at most one key at its end that is not of that kind |
| `TraceCompare.LeastExtraIsLeast` | scripts/compare_fastboot_traces.py:161 | the first unexpected key is the least one |
| `TraceCompare.LessIsLexicographic` | scripts/compare_fastboot_traces.py:161 | in the lexicographic order of strings |
| `TraceCompare.DigitsDenote` | scripts/compare_fastboot_traces.py:176 | an index in a path is written in decimal without leading zeros |
| `SignTest.ChooseCounts` | scripts/performance_evidence.py:142 | binomial coefficients count the sign vectors with that many positives |
| `SignTest.VectorCount` | scripts/performance_evidence.py:143 | there are 2^n sign vectors |
| `SignTest.SignTestMeaning` | scripts/performance_evidence.py:132-143 | the p-value is the fraction of sign vectors at least as extreme as the observed one |
| `SignTest.UnclampedExceedsOne` | scripts/performance_evidence.py:141-143 | the unclamped value exceeds one exactly for equal wins and losses |
| `SignTest.PValueRange` | scripts/performance_evidence.py:141-143 | in (0, 1], and one exactly when the counts differ by at most one |
| `SignTest.PValueGrows` | scripts/performance_evidence.py:141-143 | grows strictly with the smaller tail |
| `SignTest.SignTestSymmetric` | scripts/performance_evidence.py:132-143 | symmetric in the samples |
| `SignTest.SignTestIgnoresTie` | scripts/performance_evidence.py:136-137 | dropping a tied pair changes nothing |
| `SignTest.SignTestRange` | scripts/performance_evidence.py:132-143 | defined exactly for lists of equal length, and then in (0, 1] |
| `Fairness.DefectSign` | scripts/performance_evidence.py:146-150 | the squared sum is at most n times the square sum, with equality exactly for equal rates |
| `Fairness.JainBounds` | scripts/performance_evidence.py:146-150 | between 1/n and 1 for positive rates, and 1 exactly for equal rates |
| `Fairness.IndexIsShare` | scripts/performance_evidence.py:146-150 | k equal rates among n devices, the others idle, give k/n |
| `Fairness.JainScaleInvariant` | scripts/performance_evidence.py:146-150 | the unit does not matter |
| `Fairness.JainPermutationInvariant` | scripts/performance_evidence.py:146-150 | the order does not matter |
| `Fairness.CheckWindow` | scripts/performance_evidence.py:309-334 | accepts exactly five-second windows with one positive rate per device of the fleet |
| `Fairness.MinimumFairness` | scripts/performance_evidence.py:304-341 | accepts exactly non-empty lists of such windows that are all fair, and returns the least index among them |
| `OptionStructs.FlashReadsDeclaredOnly` | src/kairosboot.cpp:668-729 | buffers that agree on the declared bytes get the same verdict and the same copy |
| `OptionStructs.UpdateReadsDeclaredOnly` | src/kairosboot.cpp:806-850 | the same for update options |
| `OptionStructs.CommandReadsDeclaredOnly` | src/kairosboot.cpp:1972-1994 | the same for command options |
| `OptionStructs.ContextReadsDeclaredOnly` | src/kairosboot.cpp:653-666 | the same verdict for context options |
| `StructLayout.FlashRoundTrip` | src/kairosboot.cpp:668-729 | arbitrary values laid out at the ABI offsets with any declared size: valid exactly when each reached field is allowed, and then copied to exactly these values, the defaults for fields the size does not reach |
| `StructLayout.UpdateRoundTrip` | src/kairosboot.cpp:806-1024 | the same for update options |
| `StructLayout.CommandRoundTrip` | src/kairosboot.cpp:1972-1994 | the same for command options |
| `StructLayout.StoredContextIsJudged` | src/kairosboot.cpp:653-666 | a context struct is valid exactly from its v1 size on with a vendor id below 2^16 |
| `StructLayout.DefaultsAreNeutral` | src/kairosboot.cpp:702-712 | without a struct: infinite timeout, nothing set, 64 MiB for received data |
| `OptionStructs.InitializeKnownPrefix` | src/kairosboot_internal.hpp:47-54 | zeroes the known declared bytes and no other |
| `OptionStructs.InitializeField` | src/kairosboot_internal.hpp:56-70 | writes a field only if it fits into them |
| `OptionStructs.InitializeStructHeader` | src/kairosboot_internal.hpp:72-79 | zeroes, then writes size and version |
| `OptionStructs.FlashOptionsInitSized` | src/kairosboot.cpp:4633-4639 | exact contents; nothing at or beyond min(n, sizeof) changes |
| `OptionStructs.UpdateOptionsInitSized` | src/kairosboot.cpp:4676-4682 | the same for update options |
| `OptionStructs.CommandOptionsInitSized` | src/kairosboot.cpp:4688-4698 | the same for command options |
| `OptionStructs.InitialisedFlashIsDefault` | src/kairosboot.cpp:4633-4639 | an initialised struct is valid exactly from the v1 size on and then copies to the same options as NULL |
| `OptionStructs.InitialisedUpdateIsDefault` | src/kairosboot.cpp:4676-4682 | the same for update options |
| `OptionStructs.InitialisedCommandIsDefault` | src/kairosboot.cpp:4688-4698 | the same for command options |
| `TextEncoders.Base64Inverts` | cli/main.cpp:135-168 | a text strictly decodes to the bytes exactly when it is their encoding |
| `TextEncoders.Base64Encode` | cli/main.cpp:135-168 | 4*ceil(n/3) symbols, and the only text that strictly decodes to the input (section 4 of RFC 4648) |
| `TextEncoders.EscapeUnescapes` | cli/main.cpp:94-133 | reading an escaped string back gives the input (section 7 of RFC 8259) |
| `TextEncoders.ShortEscapesAreText` | cli/main.cpp:94-133 | the short escapes as text |
| `TextEncoders.JsonEscape` | cli/main.cpp:94-133 | no raw control byte, a quote only after a backslash, and it reads back as the input |

## Left out

- Sockets, libusb, temporary files, processes and threads as system objects; only the results they hand to the logic are modelled.
- C++ memory orderings: atomic operations are sequentially consistent steps.
- 64-bit overflow of the device reference count and of the ticket counter.
- Message texts, status tables beyond the ones used, usage output and printing.
- The command table behind the options (`cli/main.cpp` after line 894): an arbitrary function of the settings, the positionals and their count, which with an effective `--` is one too large; whether a command then reads past the positionals is modelled for `devices` only.
- Which of several option errors is reported: the model keeps success, settings and a kind of error.
- Escape sequences beyond those the escaper writes: the JSON reader does not join surrogate pairs.
- `escape_binary_for_text`, `infer_flash_file`, SHA-256 and path normalisation of traces.
- Legacy `slot-suffixes` parsing: any list of two to 26 different letters stands for its result.
- Copying the slot strings behind the option structs' pointers; the pointers are copied as numbers.
- NULL given to an initialiser, which returns at once.
- Sending of replies and timeouts in the scripted device's server loop; a client that stops connecting is an end of the connections.
- Rounding of floating-point numbers: rates and p-values are exact reals.
- Sparse planning, update manifests, super metadata and the boot image builder.
- Release, SBOM, ABI-manifest and inventory scripts.
