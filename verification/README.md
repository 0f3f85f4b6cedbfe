# Verified models of five Fuchsia subsystems

This project models the logic of five parts of the Fuchsia source tree in Dafny and proves properties of
it that hold for every input, every run or every reachable state.

* **The GDB remote server** (`garnet/bin/debugserver`). `Hex`, `Text`, `Packet`, `ThreadIds`,
  `ThreadActions` and `StopReply` are the codecs of the GDB Remote Serial Protocol: framing and escaping,
  thread ids, `vCont` action lists and stop replies. `Notifications` is the notification protocol: a queue,
  one pending notification, `vStopped` acknowledgments and resend timers; `Wire` is what the debugger makes
  of its bytes.
* **The component manager** (`garnet/bin/appmgr`). `Lifecycle` and `Requests` follow a request's
  termination callback through wrappers, controllers, bridges and runner deaths. `Storage`, `RealmTree` and
  `RealmManager` are the tree of realms and its storage paths, `Runners` the recursive creation of runners,
  `Services` the inheritance of services along namespaces, `CachePurge` the recursive cache purge.
* **The performance trace importer** (`garnet/bin/cpuperf_provider`). `Importer` proves that one loop over a
  mixed record stream with a packed-key table refines a separate fold for every cpu and event; `Emission` is
  what the trace then says of each, `Tiling` when the accepted intervals cover time without gap or overlap.
* **The display capture checker** (`garnet/bin/display_capture_test`). `Colors` and `Layers` are the colour
  arithmetic and the pixel lookup of layers, `FrameScan` the comparison of a captured frame, `Capture` the
  state machine that owns the camera's buffers, `Verdicts` what a passed test says about macropixels.
* **fidlcat's path expansion** (`tools/fidlcat`). `FidlPaths` is a worklist search over directory paths,
  `FidlSearch` says when it ends.

Operations that change state are methods of classes (or loops over local state), each proved equal to a
step of a state type; what the source promises is then proved of all runs of those steps, or against a
definition that does not mention the operation: `IsFrame` for packets, rounds for the notification trace,
per-pair histories for the importer, chains of entries and walks of directories for the search, component
lists for paths.

Where code and documentation or expectation differ, the model follows the code, a lemma gives an input that
shows the difference, and another says exactly when the expectation holds:

* Notification timers compare addresses, so a reused address gives two live timers
  (`ReusedAddressHasTwoTimers`, `OneLiveTimerIffNoReuse`).
* A `-` from the debugger, which asks for a packet again, is answered with `-` (`RefusalIsRefused`;
  `EveryPacketIsAnswered` says what every read is answered with).
* A thread id `p<pid>` without a dot reads a variable that was never set (`DotlessIdDependsOnUnsetValue`).
* An ELF component that is killed and then destroyed is never reported (`KilledThenDestroyedIsSilent`,
  `ExactlyOneTermination`).
* A wrapper moved from after it lost its callback yields one that calls an empty callback
  (`MovedAfterExtraction`, `WrapperChain`), and assigning to an inactive wrapper drops the callback
  (`AssignedBackIsDropped`, `NothingDroppedWithoutAssignment`); the realm never does either (`Requests`).
* Sibling labels are compared with truncated ones, so labels over 32 characters may repeat and share storage
  (`OverlongLabelsCollide`, `TwinLosesStorage`, `DistinctPathsIffNoRepeat`); `FileLostIff` says exactly which
  component files a death removes.
* Component ids are documented as unique and are not (`SlashCollides`, `ColonCollides`, `MarkCollides`;
  `StableIdsEqualIff` says which URLs share one).
* The importer's clock is zero at first and goes back with every cpu's buffer, so accepted intervals need not
  tile (`EarlyRecordBreaksTiling`, `TilesForEveryStopIff`); they do for well-formed buffers
  (`ReaderTracesTile`).
* The path search marks paths, not directories, so a link to a directory above keeps it going
  (`LoopNeverEnds`, `SearchEndsIffNoCycle`).
* No plane alpha, not even 255, leaves a layer opaque, so a lowest layer that has one aborts the comparison
  unless alpha is disabled (`LayerOpaqueIff`, `CoveredIff`).
* A service whose name is not a valid entry name is recorded but never shown (`SlashNameIsHidden`,
  `RootShowsAllIffNamesValid`).
* The border of test images is there to make rotations and reflections distinct; below 37 pixels it does not
  (`TransformsLookDifferentIff`).
* Clipping wraps around unless the rectangle fits (`ClippingIsExactIffFits`), and so does scaling
  (`ScaleExactIff`); the colour comparison also wraps (`CloseMeans`); with an odd width the scan covers only
  the first row (`FullScanCoversIff`), and with the largest it never ends (`ScanEndsIff`).
* A vsync that shows a proper prefix of the images of the frame on display, or a test without frames, makes
  the runner read a vector past its end (`LateVsyncOverruns`, `EmptyTestOverruns`, `OverrunIff`).
* The limit of five bad captures is for all tests together, since the count is never reset
  (`BadCapturesCounted`).
* `get_next_color` says it makes opaque colours; it leaves alpha zero (`GetNextColor`).

`dafny verify dfyconfig.toml` checks everything.

## Model

| member | source | states |
|---|---|---|
| `Hex.ByteStringRoundTrip` | garnet/lib/debugger_utils/util.cc:19-65 | every byte survives being written as two hex digits and read back |
| `Hex.HexDigitsDenote` | src/lib/fxl/strings/string_number_conversions.cc:103-137 | the digits printed for a number denote that number and have no leading zero |
| `Hex.NumberToString` | src/lib/fxl/strings/string_number_conversions.cc:104-137 | the loop that fills the buffer from its end yields those digits |
| `Hex.StringToPositiveNumber` | src/lib/fxl/strings/string_number_conversions.cc:48-71 | the overflow test inside the loop accepts exactly the digit strings below 2^63, of any length, and yields their value |
| `Hex.StringToNegativeNumber` | src/lib/fxl/strings/string_number_conversions.cc:76-99 | the same for negative numbers, down to exactly -2^63 |
| `Hex.StringToNumberWithError` | src/lib/fxl/strings/string_number_conversions.cc:140-163 | the sign and the empty and digitless cases: accepted exactly when the text denotes an int64 |
| `Hex.PrintedNumberParses` | src/lib/fxl/strings/string_number_conversions.cc:104-163 | a printed number is read back as itself exactly when it is below 2^63, and refused otherwise |
| `Packet.FindUnescapedChar` | garnet/bin/debugserver/util.cc:79-109 | the scan with its escape flag finds the first unescaped occurrence, or there is none; being escaped is defined on the text, independently of the scan |
| `Packet.VerifyPacket` | garnet/bin/debugserver/util.cc:113-183 | accepts a buffer, with its payload, exactly when it is noise without an unescaped `$`, then `$`, a payload without unescaped `#` and not ending in an escape, `#` and two hex digits of the payload sum modulo 256 |
| `Packet.FrameIsUnique` | garnet/bin/debugserver/util.cc:113-183 | a buffer can be read as a frame in at most one way, so the payload is well defined |
| `Packet.Unframe` | garnet/bin/debugserver/util.cc:113-183 | the payload of a buffer is defined by the shape alone: it exists exactly when some reading as a frame exists |
| `Packet.Checksum` | garnet/bin/debugserver/util.cc:168-171 | the accumulating loop computes the byte sum modulo 256 |
| `Packet.WriteFrame` | garnet/bin/debugserver/server.cc:230-252 | filling the output buffer in place writes exactly the frame and leaves the rest of the buffer alone |
| `Packet.FrameRoundTrip` | garnet/bin/debugserver/server.cc:230-252 | a framed payload verifies to itself after any noise if and only if it has no unescaped `#` and does not end in an escape |
| `Packet.CorruptedPayloadIsRejected` | garnet/bin/debugserver/util.cc:113-183 | changing any one payload byte of an acceptable buffer makes it unacceptable, whatever the new byte |
| `ThreadIds.ParseThreadId` | garnet/bin/debugserver/util.cc:29-70 | the parser computes the declarative reading, with the variable that one branch reads unset as a parameter |
| `ThreadIds.DottedIdParses` | garnet/bin/debugserver/util.cc:44-70 | `p<pid>.<tid>` is read as the pair of its parts exactly when both parts are int64 numbers, whatever the unset variable holds |
| `ThreadIds.ParseInvertsEncode` | garnet/bin/debugserver/util.cc:29-77 | parsing inverts encoding exactly when both ids are below 2^63, and refuses otherwise |
| `ThreadIds.DotlessIdDependsOnUnsetValue` | garnet/bin/debugserver/util.cc:56-67 | the form `p<pid>` is read as all threads of the process if and only if the unset variable holds zero or a value past the end of the text |
| `ThreadActions.ParseItem` | garnet/bin/debugserver/thread_action_list.cc:96-134 | one item of the list: action, optional thread id, and the checks on zero, all and negative ids |
| `ThreadActions.ParseActions` | garnet/bin/debugserver/thread_action_list.cc:78-143 | the cursor loop accepts exactly the lists whose pieces between `;` are all good with at most one default, and yields the default and the entries in order; on refusal a prefix of the entries |
| `ThreadActions.ThreadActionList.constructor` | garnet/bin/debugserver/thread_action_list.cc:78-143 | the object after parsing: validity, default and entries |
| `ThreadActions.ThreadActionList.GetAction` | garnet/bin/debugserver/thread_action_list.cc:145-155 | the first entry that contains the thread decides, and only if there is none the default does |
| `ThreadActions.AcceptedEntriesAreSound` | garnet/bin/debugserver/thread_action_list.cc:78-143 | no accepted entry has process zero while there is a current process, nor one thread of all processes, nor an id out of range |
| `ThreadActions.DefaultIff` | garnet/bin/debugserver/thread_action_list.cc:96-112 | an item is a default if and only if it is the letter `c` or `s` alone, for continue and step |
| `ThreadActions.EntryIff` | garnet/bin/debugserver/thread_action_list.cc:96-134 | an item is an entry if and only if it is such a letter, a colon and a thread id with nothing below -1 and not one thread of every process; and what it then acts on |
| `ThreadActions.PrintedItemParses` | garnet/bin/debugserver/thread_action_list.cc:96-134 | an item printed with ids below 2^63 or "all" is read back with its intended meaning |
| `ThreadActions.PrintedListParses` | garnet/bin/debugserver/thread_action_list.cc:78-143 | a printed list of any length, with or without a final `;`, is read back item by item with its intended meaning |
| `StopReply.StopReplyPacket.constructor` | garnet/bin/debugserver/stop_reply_packet.cc:34-34 | a new reply has no signal, thread, registers or reason, so it is one that the setters make (`FromSetters`) |
| `StopReply.StopReplyPacket.SetSignalNumber` | garnet/bin/debugserver/stop_reply_packet.cc:36-38 | sets the signal and nothing else, and keeps `FromSetters` |
| `StopReply.StopReplyPacket.SetThreadId` | garnet/bin/debugserver/stop_reply_packet.cc:40-43 | stores the encoded thread id, and keeps `FromSetters`; only kinds that have parameters keep one |
| `StopReply.StopReplyPacket.AddRegisterValue` | garnet/bin/debugserver/stop_reply_packet.cc:45-62 | appends one register entry, and keeps `FromSetters` if and only if the value is hexadecimal |
| `StopReply.StopReplyPacket.SetStopReason` | garnet/bin/debugserver/stop_reply_packet.cc:64-67 | stores the reason with its colon, and keeps `FromSetters` if and only if the reason has none of `#`, `$`, `}` and `;` |
| `StopReply.StopReplyPacket.Build` | garnet/bin/debugserver/stop_reply_packet.cc:69-131 | the loops and switches build head and parameters, each closed by `;` |
| `StopReply.StopReplyRoundTrip` | garnet/bin/debugserver/stop_reply_packet.cc:69-131 | every reply made through the setters with hexadecimal register values and a plain reason (none of `#`, `$`, `}`, `;`), framed, verifies to its own payload after any noise |
| `StopReply.StopReplyParametersRecovered` | garnet/bin/debugserver/stop_reply_packet.cc:101-128 | splitting the payload at `;` gives back the thread, register and reason parameters in order |
| `StopReply.StopReplyHeadMeans` | garnet/bin/debugserver/stop_reply_packet.cc:69-99 | the letter tells the kind, and whether a signal has parameters; the two digits denote the signal, or 5 if there is a reason |
| `StopReply.StopReplyParametersMean` | garnet/bin/debugserver/stop_reply_packet.cc:101-128 | the parameters of a signal are the registers in order, then the thread, whose text is read back as the ids it was set to exactly when they fit int64, then the reason |
| `StopReply.ThreadExitMeans` | garnet/bin/debugserver/stop_reply_packet.cc:107-113 | the exit of a thread names the thread, read back likewise |
| `Notifications.RspServer.constructor` | garnet/bin/debugserver/server.cc:48-57 | the server starts idle |
| `Notifications.RspServer.QueueNotification` | garnet/bin/debugserver/server.cc:118-129 | queues the event and, when nothing is pending, sends it |
| `Notifications.RspServer.TryPostNextNotification` | garnet/bin/debugserver/server.cc:265-277 | moves the head of the queue to pending, sends it and posts its timer, exactly when nothing is pending and the queue is not empty |
| `Notifications.RspServer.PostPendingNotificationWriteTask` | garnet/bin/debugserver/server.cc:258-263 | writes the pending event as a notification |
| `Notifications.RspServer.PostNotificationTimeoutHandler` | garnet/bin/debugserver/server.cc:279-300 | posts a task that captured the address of the pending notification |
| `Notifications.RspServer.OnTimeout` | garnet/bin/debugserver/server.cc:286-298 | a task resends and rearms exactly when the pending notification is at the captured address |
| `Notifications.RspServer.OnBytesRead` | garnet/bin/debugserver/server.cc:302-363 | acknowledges or refuses the packet; `vStopped` sends the next queued event or `OK` |
| `Notifications.RspServer.OnResponse` | garnet/bin/debugserver/server.cc:349-352 | writes the command handler's answer |
| `Notifications.EveryRunIsRounds` | garnet/bin/debugserver/server.cc:118-129 | over every run the protocol messages are rounds of one notification, resends of the same event and event packets, closed by one OK, with at most one open round, open exactly while a notification is pending; the reported events are those delivered followed by those queued, in order, without loss or duplication; nothing pending means nothing queued |
| `Notifications.RoundsAreUnique` | garnet/bin/debugserver/server.cc:321-346 | a trace has only one reading as rounds, so what was delivered is a fact about the wire |
| `Notifications.AcknowledgmentsDrain` | garnet/bin/debugserver/server.cc:321-346 | with no new events, the first a acknowledgments, among any timeouts and other traffic, send the first a queued events in order; one more than the queue is long sends OK and makes the server idle |
| `Notifications.OneLiveTimerIffNoReuse` | garnet/bin/debugserver/server.cc:279-300 | throughout a run there is exactly one live timer while a notification is pending, if and only if no notification ever becomes pending at the address of a freed one whose timer is outstanding |
| `Notifications.StaleTimerIsSilent` | garnet/bin/debugserver/server.cc:286-298 | with one live timer, any other timer sends nothing |
| `Notifications.ReusedAddressHasTwoTimers` | garnet/bin/debugserver/server.cc:291-291 | a run of three inputs in which a reused address gives two live timers |
| `Notifications.EveryPacketIsAnswered` | garnet/bin/debugserver/server.cc:302-363 | over every run the acknowledgments and responses sent are, in order, `+` or `-` for each read other than `+`, by whether it holds a valid packet, an empty response to each valid packet that is not `vStopped` and not handled, and each answer of the command handler |
| `Notifications.EveryRunIsConversation` | garnet/bin/debugserver/server.cc:258-363 | over every run nothing else is sent but notifications and, after the acknowledgment of a `vStopped`, one event or `OK` |
| `Notifications.RefusalIsRefused` | garnet/bin/debugserver/server.cc:303-316 | a read of `-` alone is answered with `-` |
| `Wire.MessageHeardIffClean` | garnet/bin/debugserver/server.cc:230-263 | the bytes of any message, acknowledgments and responses included, read by the rules of VerifyPacket, say what was meant if and only if what it carries has no unescaped `#` and does not end in an escape |
| `Wire.HeardIffClean` | garnet/bin/debugserver/server.cc:258-346 | over every run the debugger, reading bytes, understands every message of the protocol if and only if every delivered event is such; and delivered and queued events are the reported ones in order |
| `Wire.StopRepliesHeard` | garnet/bin/debugserver/server.cc:258-346 | so over every run whose reported events are such stop replies the debugger understands every message of the protocol |
| `Lifecycle.WrapperChain` | garnet/bin/appmgr/component_controller_impl.cc:41-74 | however wrappers of a request are moved, assigned, extracted and destroyed, its callback is called or extracted at most once; once all are gone it was called, extracted or dropped by an assignment exactly once, and an empty callback was used as often as an active wrapper without one came about and was not cured by assigning to it |
| `Lifecycle.NothingDroppedWithoutAssignment` | garnet/bin/appmgr/component_controller_impl.cc:41-74 | without assignments nothing is dropped, so once all wrappers are gone the callback was called or extracted exactly once |
| `Lifecycle.AssignedBackIsDropped` | garnet/bin/appmgr/component_controller_impl.cc:62-68 | a callback moved out of a wrapper and assigned back to it is never called, since assignment does not activate |
| `Lifecycle.MovedAfterExtraction` | garnet/bin/appmgr/component_controller_impl.cc:57-68 | the shortest use that calls an empty callback |
| `Lifecycle.ComponentControllerImpl.constructor` | garnet/bin/appmgr/component_controller_impl.cc:168-207 | holds its job and its callback |
| `Lifecycle.ComponentControllerImpl.Kill` | garnet/bin/appmgr/component_controller_impl.cc:227-234 | lets go of the job and keeps the callback |
| `Lifecycle.ComponentControllerImpl.SendReturnCodeIfTerminated` | garnet/bin/appmgr/component_controller_impl.cc:236-256 | reports EXITED once if the process exited, and nothing otherwise |
| `Lifecycle.ComponentControllerImpl.Handler` | garnet/bin/appmgr/component_controller_impl.cc:270-283 | the process exit is reported unless the callback was already called, and the destruction that follows adds nothing |
| `Lifecycle.ComponentControllerImpl.Destroy` | garnet/bin/appmgr/component_controller_impl.cc:209-225 | reports only while the job is held |
| `Lifecycle.ComponentBridge.constructor` | garnet/bin/appmgr/component_controller_impl.cc:285-333 | the handler is set and the reason is UNKNOWN |
| `Lifecycle.ComponentBridge.SetTerminationReason` | garnet/bin/appmgr/component_controller_impl.cc:341-344 | changes the reason alone |
| `Lifecycle.ComponentBridge.OnRemoteTerminated` | garnet/bin/appmgr/component_controller_impl.cc:301-312 | reports once, clears the handler, leaves the holder, and its own destruction adds nothing |
| `Lifecycle.ComponentBridge.OnRemoteError` | garnet/bin/appmgr/component_controller_impl.cc:318-322 | a closed channel reports exactly if nothing was reported before |
| `Lifecycle.ComponentBridge.Destroy` | garnet/bin/appmgr/component_controller_impl.cc:329-333 | reports exactly if nothing was reported before |
| `Lifecycle.RunnerHolder.StartComponent` | garnet/bin/appmgr/runner_holder.cc:82-114 | a fresh bridge joins the holder's |
| `Lifecycle.RunnerHolder.ExtractComponent` | garnet/bin/appmgr/runner_holder.cc:116-131 | removes the bridge and says whether it was there |
| `Lifecycle.RunnerHolder.Cleanup` | garnet/bin/appmgr/runner_holder.cc:58-66 | every bridge of the holder, and no other, reports exactly once, with RUNNER_TERMINATED |
| `Lifecycle.EveryRequestAccounted` | garnet/bin/appmgr/realm.cc:535-596 | the invariant of every request over every run: whoever holds the callback still has it and nothing was reported yet |
| `Lifecycle.AtMostOneTermination` | garnet/bin/appmgr/realm.cc:535-596 | over every run of launches, loads, kills, exits, destructions, remote events and runner deaths, no callback is called twice, for another request, or before the component ended |
| `Lifecycle.ExactlyOneTermination` | garnet/bin/appmgr/component_controller_impl.cc:209-283 | a component that ended was reported exactly once, unless it was an ELF component killed and then destroyed before its exit was seen, and then never; so every bridge and every failed launch is reported exactly once |
| `Lifecycle.EveryLifeIsTold` | garnet/bin/appmgr/realm.cc:535-936 | over every run each request is where a five-state account without wrappers, controllers and bridges puts it, and its callback was called with exactly the code and reason of the input that ended it: URL_INVALID, RUNNER_FAILED, PACKAGE_NOT_FOUND, INTERNAL_ERROR, the default, the exit code, what the remote controller said, or RUNNER_TERMINATED |
| `Lifecycle.ExitIsReported` | garnet/bin/appmgr/component_controller_impl.cc:236-256 | a process that exits, in any run, is reported with its code as EXITED and nothing else |
| `Lifecycle.RunnerTerminationReported` | garnet/bin/appmgr/runner_holder.cc:58-66 | in every reachable state a runner's termination ends exactly its own bridges, each with one RUNNER_TERMINATED |
| `Lifecycle.KilledThenDestroyedIsSilent` | garnet/bin/appmgr/component_controller_impl.cc:209-234 | the run in which nothing is reported |
| `Requests.ComponentRequestWrapper.constructor` | garnet/bin/appmgr/component_controller_impl.cc:41-48 | a new wrapper is active, with the failure values as default |
| `Requests.ComponentRequestWrapper.Move` | garnet/bin/appmgr/component_controller_impl.cc:57-68 | a move takes the callback and leaves the source inactive; the new object is active whatever the source was |
| `Requests.ComponentRequestWrapper.Assign` | garnet/bin/appmgr/component_controller_impl.cc:62-68 | an assignment takes callback and values, leaves the source inactive and the target as active as it was |
| `Requests.ComponentRequestWrapper.SetReturnValues` | garnet/bin/appmgr/component_controller_impl.cc:71-74 | changes code and reason alone |
| `Requests.ComponentRequestWrapper.Extract` | garnet/bin/appmgr/component_controller_impl.h:51-61 | hands the callback out once and deactivates |
| `Requests.ComponentRequestWrapper.Destroy` | garnet/bin/appmgr/component_controller_impl.cc:50-55 | reports exactly while active; see also component_controller_impl.cc:91-102 |
| `Requests.StartOnRunner` | garnet/bin/appmgr/realm.cc:668-701 | with a runner the callback goes to a bridge and nothing is reported; without one the given failure is reported; no empty callback is ever called |
| `Requests.StartElf` | garnet/bin/appmgr/realm.cc:898-936 | with a process the callback goes to a controller; without one the default failure is reported |
| `Requests.CreateComponentFromPackage` | garnet/bin/appmgr/realm.cc:703-896 | every way a package can fail or start, with the wrappers moved and destroyed on the way, has the modelled effect |
| `Requests.PackageLoaded` | garnet/bin/appmgr/realm.cc:574-589 | the loader's answer, with the wrapper captured by the callback |
| `Requests.CreateComponent` | garnet/bin/appmgr/realm.cc:535-596 | every launch leaves the callback with one holder or reports it, as the run-level model has it |
| `Storage.UnderIffPrefix` | src/lib/files/path.cc:243-260 | on rendered paths, being at or below as text is being a component-wise extension |
| `Storage.RenderIsInjective` | src/lib/files/path.cc:243-260 | different component lists render differently |
| `Storage.JoinPathMeans` | src/lib/files/path.cc:243-263 | paths are joined by one slash, whichever of them brings it; an empty one adds nothing |
| `Storage.NestedPathIsRendered` | garnet/bin/appmgr/realm.cc:419-420 | joining `r/<label>` to the parent's path adds exactly two components |
| `Storage.ComponentIdIsAName` | garnet/bin/appmgr/realm.cc:193-204 | a component id is one path component, holds a colon, and is never `r`, `cache` or `.` |
| `Storage.StableIdsAgree` | garnet/bin/appmgr/realm.cc:193-204 | where neither hosts nor packages hold a colon, and hosts no `#`, equal ids mean equal host, package, variant, and resource up to slash and colon |
| `Storage.StableIdReads` | garnet/bin/appmgr/realm.cc:193-204 | read from the left, an id of a plain URL is its host, package and variant and its resource with `/` as `:` |
| `Storage.StableIdsEqualIff` | garnet/bin/appmgr/realm.cc:193-204 | for all parsed URLs, ids are equal if and only if the texts host:package:variant are equal and the resources are up to slash and colon, or one host holds all of the other URL up to and past its `#` |
| `Storage.StableIdsOfPlainHosts` | src/lib/pkg_url/fuchsia_pkg_url.cc:17-26 | for hosts without `#` only the first of these is left |
| `Storage.SlashCollides` | garnet/bin/appmgr/realm.cc:190-204 | a slash and a colon in the resource give one id, which is documented as unique |
| `Storage.ColonCollides` | src/lib/pkg_url/fuchsia_pkg_url.cc:17-26 | a port moved from any host to its package gives the same id |
| `Storage.MarkCollides` | src/lib/pkg_url/fuchsia_pkg_url.cc:17-26 | a host with a `#` can take over the id of another URL |
| `Storage.IsolatedPathIsRendered` | garnet/bin/appmgr/realm.cc:1021-1033 | the text that names a component's directory is the realm's path with one component more |
| `RealmTree.InitialIsValid` | garnet/bin/appmgr/appmgr.cc:33-36 | the root realm alone is a valid tree |
| `RealmTree.Run` | garnet/bin/appmgr/realm.cc:383-454 | every reachable tree is valid: well founded, labels acceptable, stored labels truncated, paths given by the labels from the root |
| `RealmTree.CreateKeepsValid` | garnet/bin/appmgr/realm.cc:383-454 | creation keeps the tree valid on every outcome |
| `RealmTree.CreateOutcome` | garnet/bin/appmgr/realm.cc:383-454 | each outcome of a creation if and only if its condition: a valid label, not the first 32 characters of a sibling's, and the rest of the setup |
| `RealmTree.CreateAdds` | garnet/bin/appmgr/realm.cc:383-454 | success adds one realm with its label and its paths `/r/<label>` below its parent's, anything else changes nothing |
| `RealmTree.PlainLabelIsValid` | garnet/bin/appmgr/realm.cc:168-188 | any text of letters, digits and `-_.:#` is a valid label, but for the empty one and one or two dots |
| `RealmTree.PathsStayInside` | garnet/bin/appmgr/realm.cc:168-188 | every path of a reachable realm continues its root by names that are not empty, `.` or `..` and hold no slash |
| `RealmTree.KillKeepsValid` | garnet/bin/appmgr/realm.cc:342-355 | a death with all it takes along keeps the tree valid |
| `RealmTree.KilledIff` | garnet/bin/appmgr/realm.cc:342-355 | a death takes exactly the realms whose line of parents leads to it, and leaves the others as they are |
| `RealmTree.PathsReflectTree` | garnet/bin/appmgr/realm.cc:418-430 | with distinct sibling labels, a realm's data or cache path is at or below another's if and only if it is nested in it, and equal only for the same realm |
| `RealmTree.DataAndCacheAreDisjoint` | garnet/bin/appmgr/realm.cc:418-430 | the data path of a nested realm and the cache path of any realm never overlap |
| `RealmTree.DistinctPathsIffDistinctSiblings` | garnet/bin/appmgr/realm.cc:418-430 | paths are pairwise distinct exactly when sibling labels are |
| `RealmTree.CreateKeepsDistinct` | garnet/bin/appmgr/realm.cc:383-454 | a creation keeps sibling labels distinct if and only if it does not succeed with an overlong label that a live sibling has |
| `RealmTree.DistinctPathsIffNoRepeat` | garnet/bin/appmgr/realm.cc:383-454 | over every run, live realms have distinct paths at all times if and only if no realm was created with an overlong label of a live sibling |
| `RealmTree.ShortLabelsAreSafe` | sdk/fidl/fuchsia.sys/environment.fidl:8-8 | labels within the limit always give distinct siblings |
| `RealmTree.OverlongLabelsCollide` | garnet/bin/appmgr/realm.cc:391-406 | a run in which an overlong label is accepted twice and two realms share a path |
| `RealmTree.DeletesOwnedIff` | garnet/bin/appmgr/realm.cc:342-355 | a dying realm's deletion takes a component's file along if and only if it deletes its storage and the owner's labels continue its own, whatever the labels are |
| `RealmTree.FileLostIff` | garnet/bin/appmgr/realm.cc:342-355 | a death removes a component's file if and only if some realm that dies deletes its storage and the owner's labels continue that realm's; no condition on labels |
| `RealmTree.SurvivorsKeepStorage` | garnet/bin/appmgr/realm.cc:342-355 | so with distinct sibling labels a death never removes a file that a surviving realm's component owns |
| `RealmTree.ComponentFilesAreOwned` | garnet/bin/appmgr/realm.cc:1021-1033 | whatever is at or below the directory a component is given, in data or cache, counts as the realm's |
| `RealmTree.ComponentFileLostIff` | garnet/bin/appmgr/realm.cc:342-355 | the same for every file at or below a directory that the realm computes for a component |
| `RealmTree.SurvivorsKeepComponentFiles` | garnet/bin/appmgr/realm.cc:342-355 | so with distinct sibling labels no such file of a surviving realm is removed |
| `RealmTree.TwinLosesStorage` | garnet/bin/appmgr/realm.cc:342-355 | with a repeated label it does |
| `RealmManager.Manager.LabelInUse` | garnet/bin/appmgr/realm.cc:397-406 | the loop over the children finds the label exactly if a child's stored label equals it |
| `RealmManager.Manager.CreateNestedEnvironment` | garnet/bin/appmgr/realm.cc:383-454 | the checks in order, and the new realm |
| `RealmManager.Manager.DeleteStorage` | garnet/bin/appmgr/realm.cc:342-355 | removes exactly what is at or below the realm's two paths, if asked to |
| `RealmManager.Manager.DestroyRealm` | garnet/bin/appmgr/realm.cc:342-355 | the recursive destruction, in whatever order the children die, removes exactly the realms at or below and exactly the storage of those that ask for it |
| `RealmManager.Manager.DestroyChildren` | garnet/bin/appmgr/realm.cc:342-355 | the same for the children of a realm |
| `Runners.NewRunnersFollowSchemes` | garnet/bin/appmgr/realm.cc:972-1000 | the runners created for a URL follow the scheme map, never repeat, and stop only at a built-in launch, a known runner or the chain itself; the chain is finite for every scheme map |
| `Runners.FailureIffCycle` | garnet/bin/appmgr/realm.cc:560-701 | a launch reports a failed runner only as its first event, and exactly when the chain of runners it creates comes back to one under construction |
| `Runners.SchemeDecides` | src/lib/pkg_url/url_resolver.cc:17-31 | on the text of a URL, the part before the first colon, in small letters, decides: nothing if its entry is missing or empty, the package loader if it is "package", else the runner it names |
| `Runners.FileWithoutScheme` | garnet/bin/appmgr/realm.cc:544-566 | a text without a colon goes by the entry of "file", the empty one launches nothing |
| `Runners.LaunchMeans` | garnet/bin/appmgr/realm.cc:535-701 | all events of a launch, in order: the last of the runners it creates is refused, loaded, started or left without its runner, by what its scheme says; then each of the others starts on the one created before it |
| `Runners.FoundIffPresent` | garnet/bin/appmgr/realm.cc:1002-1011 | a runner is found if and only if some realm has it completed and every realm nearer has no entry for it and allows its parent's runners; the one found is that realm's |
| `Runners.Realm.constructor` | garnet/bin/appmgr/realm.cc:266-286 | no runner at first |
| `Runners.Realm.GetOrCreateRunner` | garnet/bin/appmgr/realm.cc:972-1000 | terminates for every scheme map, cyclic or not; null entries are exactly the constructions in progress; null is returned exactly for one of these; the new entries are exactly the chain of new runners |
| `Runners.Realm.CreateRunner` | garnet/bin/appmgr/realm.cc:979-991 | the null entry stands while the holder is constructed and is filled afterwards |
| `Runners.Realm.ConstructHolder` | garnet/bin/appmgr/runner_holder.cc:24-54 | launching the runner as a component keeps all that |
| `Runners.Realm.CreateComponent` | garnet/bin/appmgr/realm.cc:535-596 | the same for any URL, with the events of the launch that `LaunchMeans` and `SchemeDecides` describe |
| `Runners.Realm.CreateComponentWithRunnerForScheme` | garnet/bin/appmgr/realm.cc:668-701 | the same for a scheme that has a runner |
| `Services.ServiceProviderDirImpl.AddService` | garnet/bin/appmgr/service_provider_dir_impl.cc:66-79 | duplicates and names off the whitelist are ignored |
| `Services.ServiceProviderDirImpl.SetParent` | garnet/bin/appmgr/service_provider_dir_impl.cc:55-64 | copies the parent's services as they are now, once |
| `Services.MakeNamespace` | garnet/bin/appmgr/namespace.cc:26-137 | the constructor registers built-ins, additional services, the parent's and fallbacks in this order |
| `Services.AddAllConsistent` | garnet/bin/appmgr/service_provider_dir_impl.cc:66-79 | handles, names and directory agree after any registrations: no duplicates, the names are those of the handles, and the directory shows the validly named ones |
| `Services.LookupAgreesWithConnect` | garnet/bin/appmgr/service_provider_dir_impl.cc:86-130 | looking up and connecting find the same service for every name |
| `Services.RootShowsAllIffNamesValid` | zircon/system/ulib/fs/pseudo-dir.cpp:95-112 | the directory shows every recorded service if and only if every recorded name is a valid entry name |
| `Services.SlashNameIsHidden` | zircon/system/ulib/fs/include/fs/vnode.h:41-45 | a name with a slash is recorded and shadows later ones but is never found |
| `Services.FirstRegistrationWins` | garnet/bin/appmgr/service_provider_dir_impl.cc:66-79 | a whitelisted name means its first registration, any other name nothing |
| `Services.ChainResolves` | garnet/bin/appmgr/namespace.cc:26-137 | in a chain of namespaces of any depth, every name resolves to the first of built-in, earliest additional service, the parent's resolution, fallback and later service, filtered by the whitelist at every level |
| `CachePurge.BelowComponentMeans` | garnet/bin/appmgr/storage_watchdog.cc:43-91 | below a component means beyond an entry not called `r` of a realm directory nested at any depth |
| `CachePurge.FileSystem.DeleteDirentInFd` | garnet/bin/appmgr/storage_watchdog.cc:21-39 | deletes exactly the entry and all below it |
| `CachePurge.FileSystem.DeleteEntries` | garnet/bin/appmgr/storage_watchdog.cc:27-34 | empties exactly one directory |
| `CachePurge.FileSystem.PurgeCacheIn` | garnet/bin/appmgr/storage_watchdog.cc:43-91 | deletes exactly the paths strictly below component directories, at every realm depth, in whatever order entries are read |
| `CachePurge.FileSystem.PurgeEntry` | garnet/bin/appmgr/storage_watchdog.cc:52-88 | one entry: skipped, a directory of realms, or a component |
| `CachePurge.FileSystem.PurgeRealmsIn` | garnet/bin/appmgr/storage_watchdog.cc:63-74 | the loop over nested realms |
| `CachePurge.PurgeKeepsExactly` | garnet/bin/appmgr/storage_watchdog.cc:43-91 | which paths of a realm survive |
| `CachePurge.ComponentEndsEmpty` | garnet/bin/appmgr/storage_watchdog.cc:75-88 | component directories end empty but present |
| `CachePurge.PurgeIsIdempotent` | garnet/bin/appmgr/storage_watchdog.cc:43-91 | a second purge changes nothing |
| `CachePurge.IsolatedPathIsAComponent` | garnet/bin/appmgr/realm.cc:1021-1033 | the directory that the text names, in the cache of a realm at any depth, survives the purge and loses exactly its contents; a realm's own directory is never taken for one |
| `Importer.PackingIsArithmetic` | garnet/bin/cpuperf_provider/importer.h:101-105 | on bits, shifting and or-ing is the arithmetic used for the key |
| `Importer.GenKeyIsInjective` | garnet/bin/cpuperf_provider/importer.h:101-105 | the packed key tells all cpu and event pairs apart |
| `Importer.EventTracker.UpdateTime` | garnet/bin/cpuperf_provider/importer.h:47-50 | sets the time of one entry |
| `Importer.EventTracker.UpdateValue` | garnet/bin/cpuperf_provider/importer.h:60-64 | makes one entry a value |
| `Importer.EventTracker.AccumulateCount` | garnet/bin/cpuperf_provider/importer.h:66-70 | makes one entry a count and adds modulo 2^64 |
| `Importer.TallyRecord` | garnet/bin/cpuperf_provider/importer.cc:143-186 | the effect of an accepted record by its type |
| `Importer.ImportRecord` | garnet/bin/cpuperf_provider/importer.cc:119-190 | one record: exactly one of old, empty, late and accepted, with its counter, tally or sample; the time of the entry is updated in every case |
| `Importer.ReadRecord` | garnet/bin/cpuperf_provider/importer.cc:98-191 | one iteration keeps tracker, clock, counters and samples equal to the reference for the records read so far |
| `Importer.ReadAt` | garnet/bin/cpuperf_provider/importer.cc:98-191 | the same for the i-th record of the stream |
| `Importer.ImportRecords` | garnet/bin/cpuperf_provider/importer.cc:80-211 | the loop over any stream refines the reference: for every cpu and event the packed tracker holds the last time seen and the fold of the accepted records; counters and samples are those of the per-pair histories |
| `Importer.EmitTally` | garnet/bin/cpuperf_provider/importer.cc:366-376 | the records written for one cpu and event, which `EmittedForPair` describes |
| `Importer.EmitCpu` | garnet/bin/cpuperf_provider/importer.cc:363-377 | those for one cpu |
| `Importer.EmitTallyCounts` | garnet/bin/cpuperf_provider/importer.cc:358-378 | what is written at stop time is, for every cpu and event, the fold of the accepted records of its own history |
| `Importer.CountingEventTotals` | garnet/bin/cpuperf_provider/importer.cc:147-162 | an event that never has values totals the sum of its accepted counts modulo 2^64 |
| `Importer.ValueEventTotals` | garnet/bin/cpuperf_provider/importer.cc:163-170 | an event that only has values totals its last accepted value |
| `Importer.MixedEventTotals` | garnet/bin/cpuperf_provider/importer.cc:143-186 | an event with a last accepted value totals it and the accepted counts after it, as a value exactly if nothing was tallied after it |
| `Emission.EmittedForPair` | garnet/bin/cpuperf_provider/importer.cc:358-378 | what the trace says at stop time of every cpu and event, once per configured event: nothing if it was never seen; zero at the start and the sum of its accepted counts modulo 2^64 at the stop time if it had no value; else its last value and the counts after it, at the stop time |
| `Emission.SamplesOfPairAre` | garnet/bin/cpuperf_provider/importer.cc:143-186 | in sampling mode the samples of every cpu and event are its accepted records but the last-branch ones, in order, over their intervals, with their own count or value or else the sample rate |
| `Emission.BucketMeans` | garnet/bin/cpuperf_provider/importer.cc:119-142 | a record is old, empty, late or accepted by comparing the clock with what it was at the previous record of its cpu and event, or with the start, and with the stop time |
| `Emission.ClockMeans` | garnet/bin/cpuperf_provider/importer.cc:98-118 | the clock is the reader's at the last time record, and the initial one before the first |
| `Emission.CountersMean` | garnet/bin/cpuperf_provider/importer.cc:122-141 | the three warning counts are the numbers of old, empty and late records, modulo 2^32 |
| `Importer.BucketsAddUp` | garnet/bin/cpuperf_provider/importer.cc:98-191 | for any times, records that only move the clock, old, empty and late ones, samples and blobs are all the records |
| `Importer.CountersAddUp` | garnet/bin/cpuperf_provider/importer.cc:83-89 | the same of the 32-bit counters that the loop keeps, modulo 2^32 |
| `Tiling.TilesIffAcceptsAtFurthest` | garnet/bin/cpuperf_provider/importer.cc:119-189 | for one stop time the accepted intervals of a cpu and event tile if and only if every accepted record's event was last seen at the furthest time reached |
| `Tiling.TilesIffNeverAdvancesAfterGoingBack` | garnet/bin/cpuperf_provider/importer.cc:119-189 | when no time is past the stop time: if and only if time never advances after having gone back |
| `Tiling.TilesForEveryStopIff` | garnet/bin/cpuperf_provider/importer.cc:98-191 | for any records, the intervals of a cpu and event tile for every stop time if and only if the times at its records never advance after having gone back, the start included |
| `Tiling.AcceptedIntervalsTile` | garnet/bin/cpuperf_provider/importer.cc:98-191 | if the clock at the records of one cpu neither precedes the start nor goes back among them, whatever it does at other cpus, the intervals of each of its events tile from the start to the last accepted record, within the stop time |
| `Tiling.ReaderTracesTile` | garnet/lib/perfmon/reader.cc:56-89 | for the buffers of the cpus read one after another, from a clock of zero, this holds of every cpu and event if each buffer begins with a time and its times neither precede the start nor go back |
| `Tiling.EarlyRecordBreaksTiling` | garnet/lib/perfmon/reader.h:33-37 | for any start, a buffer that begins with another record does not tile: the clock is still zero there |
| `Colors.PremultiplyColorChannels` | garnet/bin/display_capture_test/utils.h:16-27 | the loop over the packed word multiplies each colour channel on its own and keeps alpha |
| `Colors.Premultiplied` | garnet/bin/display_capture_test/utils.h:16-27 | no channel of the result exceeds the alpha it was multiplied with |
| `Colors.MultipliedIsMonotone` | garnet/bin/display_capture_test/utils.h:16-27 | rounded multiplication is monotone |
| `Colors.PremultipliedMeans` | garnet/bin/display_capture_test/utils.h:16-27 | each channel becomes its product with alpha over 256, rounded as the code does, stated by inequalities |
| `Colors.IndexedColorDigits` | garnet/bin/display_capture_test/image.cc:14-17 | the index xyz in base 16 gives the word x0y0z0 |
| `Colors.ColorSource.GetNextColor` | garnet/bin/display_capture_test/image.cc:11-20 | colours never repeat and are never black until the indices run out |
| `Colors.ColorSource.ComputeColor` | garnet/bin/display_capture_test/image.cc:22-29 | the background is chosen once, foreground colours are new, and premultiplied colours have no channel above alpha |
| `Colors.FinishedMeans` | garnet/bin/display_capture_test/image.cc:22-29 | the colour of an image has the given alpha and the channels of its base, or their products with alpha if it is premultiplied |
| `Colors.LayerColorDominatedIff` | garnet/bin/display_capture_test/layer.cc:147-176 | a layer's colour has every channel at most its alpha for every plane alpha if and only if the image matches the alpha mode |
| `Colors.DisabledIgnoresPlaneAlpha` | garnet/bin/display_capture_test/layer.cc:147-176 | with alpha disabled the result is opaque and does not depend on the plane alpha |
| `Colors.LayerOpaqueIff` | garnet/bin/display_capture_test/layer.cc:147-176 | a layer's colour is opaque if and only if alpha is disabled, or no plane alpha is set and the image is opaque; no plane alpha, not even 255, leaves it opaque |
| `Colors.LayerColorMeans` | garnet/bin/display_capture_test/layer.cc:147-176 | what each alpha mode does to alpha and to the channels, with and without a plane alpha |
| `Colors.ClampIdleIff` | garnet/bin/display_capture_test/runner.cc:29-38 | the saturation clamp never acts, for any destination, if and only if the source channel does not exceed its alpha |
| `Colors.OverMeans` | garnet/bin/display_capture_test/runner.cc:29-47 | an opaque colour hides the one below; any other lets each channel through in proportion, rounded up, adds its own and stops at 255 |
| `Colors.OpaqueHides` | garnet/bin/display_capture_test/runner.cc:478-499 | layers below an opaque one do not matter to the blend |
| `Colors.BlendIsExactAndOpaque` | garnet/bin/display_capture_test/runner.cc:40-47 | blending any stack of such colours over an opaque one stays opaque and equals the blend without clamp |
| `Colors.SkipMeaning` | garnet/bin/display_capture_test/runner.cc:478-499 | a pixel is skipped exactly when some layer is uncertain there and no certain opaque layer is above it |
| `Layers.ClippingIsExactIffFits` | garnet/bin/display_capture_test/layer.cc:92-97 | with wrapping subtraction, a layer has a pixel at exactly the points of its rectangle if and only if position plus size is at most 2^32 in both directions, or the rectangle is empty |
| `Layers.Untransform` | garnet/bin/display_capture_test/layer.cc:99-128 | the step by step reassignment of coordinates, in wrapping arithmetic, is the inverse transform |
| `Layers.UndoneInvertsApplied` | garnet/bin/display_capture_test/layer.cc:99-128 | for each of the eight transforms the mapping is a bijection between the destination and the possibly rotated rectangle |
| `Layers.TransformsDiffer` | zircon/system/fidl/fuchsia-hardware-display/display-controller.fidl:96-106 | no two transforms act alike on a square of two by two or more |
| `Layers.GetPixel` | garnet/bin/display_capture_test/layer.cc:88-176 | the pixel of a layer: clipped, untransformed, scaled, looked up, blended with the plane alpha, with the uncertainty near edges |
| `Layers.PixelOpaqueIff` | garnet/bin/display_capture_test/layer.cc:88-176 | the same of the pixel a layer shows |
| `Layers.LayerPixelsAreDominated` | garnet/bin/display_capture_test/layer.cc:88-176 | every colour of a layer whose image matches its mode has no channel above its alpha |
| `Layers.LayerShowsSource` | garnet/bin/display_capture_test/layer.cc:88-176 | a layer shows, where its transform puts a point, what it has at that point |
| `Layers.UnscaledIsCertain` | garnet/bin/display_capture_test/layer.cc:130-145 | without scaling that is the image's own pixel, never uncertain |
| `Layers.ScaleExactIff` | garnet/bin/display_capture_test/layer.cc:12-18 | a scaled coordinate is the exact proportion, rounded up, if and only if the 32-bit product and sum do not wrap |
| `Layers.ScaledShows` | garnet/bin/display_capture_test/layer.cc:130-147 | a layer shows its image's pixel at the coordinates in proportion, rounded up |
| `Layers.SkippedIff` | garnet/bin/display_capture_test/layer.cc:134-145 | a pixel is uncertain if and only if it is scaled and not within eight pixels of an edge in both directions |
| `Layers.NearCornerMeans` | garnet/bin/display_capture_test/layer.cc:136-141 | the corner test in plain numbers |
| `Layers.ScalablePattern` | garnet/bin/display_capture_test/image.cc:103-107 | the four quarters of a scalable image |
| `Layers.TilePattern` | garnet/bin/display_capture_test/image.cc:109-117 | the border and the tiles of any other image |
| `Layers.TransformsLookDifferentIff` | garnet/bin/display_capture_test/image.cc:109-117 | the border is to make rotations and reflections distinct: of a square image all eight look different if and only if it is at least 37 pixels wide |
| `FrameScan.CloseMeans` | garnet/bin/display_capture_test/runner.cc:74-82 | two channels count as equal exactly when they differ by at most 6 or at least 250 |
| `FrameScan.SameColorMeans` | garnet/bin/display_capture_test/runner.cc:84-88 | colours count as equal exactly when red, green and blue each do |
| `FrameScan.ExpectedAt` | garnet/bin/display_capture_test/runner.cc:475-502 | the loop over the layers yields the blend and whether to skip, and aborts exactly when the point is not covered as required |
| `FrameScan.CoveredIff` | garnet/bin/display_capture_test/runner.cc:487-502 | a point passes both assertions if and only if it has a lowest layer and that one disables alpha, or has no plane alpha and an image opaque there |
| `FrameScan.CheckPoint` | garnet/bin/display_capture_test/runner.cc:475-518 | the verdict at one point |
| `FrameScan.PointVerdictMeans` | garnet/bin/display_capture_test/runner.cc:475-518 | a point matches if and only if it has an opaque lowest layer and is uncertain, or in both halves red, green and blue of the blend are each at most 6 or at least 250 from the capture; it aborts if and only if it has no such layer |
| `FrameScan.Advance` | garnet/bin/display_capture_test/runner.cc:525-530 | for every width the end of the loop body moves the cursor as `ScanEndsIff` has it |
| `FrameScan.NextPoint` | garnet/bin/display_capture_test/runner.cc:524-531 | within a frame that is not of the largest width the cursor moves along the scan order |
| `FrameScan.CheckFrameFully` | garnet/bin/display_capture_test/runner.cc:461-534 | the scan ends and its verdict is that of the first point, in scan order, that does not match |
| `FrameScan.ScanEndsIff` | garnet/bin/display_capture_test/runner.cc:474-532 | the cursor leaves the frame if and only if there are no rows or the width is not 2^32 - 1 |
| `FrameScan.WidestNeverLeavesRow` | garnet/bin/display_capture_test/runner.cc:525-530 | with that width it stays in the first row for ever |
| `FrameScan.CheckFrameQuickly` | garnet/bin/display_capture_test/runner.cc:461-534 | the same for the five points of the quick check |
| `FrameScan.QuickCheckMeans` | garnet/bin/display_capture_test/runner.cc:461-534 | a frame passes the quick check if and only if its four corner macropixels and its middle match, for every size |
| `FrameScan.FullOrderVisits` | garnet/bin/display_capture_test/runner.cc:524-531 | how often each coordinate is visited, for every width and height |
| `FrameScan.FullScanCoversIff` | garnet/bin/display_capture_test/runner.cc:524-531 | every macropixel is visited exactly once if and only if the width is even or there is at most one row |
| `FrameScan.FullCheckIsComplete` | garnet/bin/display_capture_test/runner.cc:461-534 | with an even width a frame passes if and only if every macropixel matches in the sense of `PointVerdictMeans` |
| `FrameScan.ComparedColorIsExact` | garnet/bin/display_capture_test/runner.cc:475-502 | for layers that match their images the colour compared with is opaque and was blended without clamping |
| `Capture.Run` | garnet/bin/display_capture_test/runner.cc:294-459 | over every run no buffer is lost or released twice, retained buffers are as many as captures past calibration, and the indices into frames and buffers are in range |
| `Capture.OverrunIff` | garnet/bin/display_capture_test/runner.cc:294-424 | over every run a vector is read past its end if and only if a test without frames of its own became ready, or a vsync showed a proper nonempty prefix of the images that the frame on display needs |
| `Capture.LateVsyncOverruns` | garnet/bin/display_capture_test/runner.cc:405-417 | a run with such a vsync: a frame adds a layer and the vsync still shows the frame before it |
| `Capture.EmptyTestOverruns` | garnet/bin/display_capture_test/runner.cc:294-328 | a run with such a test |
| `Capture.BuffersReturnedByCleanup` | garnet/bin/display_capture_test/runner.cc:336-354 | after every cleanup each delivered buffer was released exactly as often as it was delivered |
| `Capture.DeliveredIsTracked` | garnet/bin/display_capture_test/runner.cc:426-459 | what counts as delivered is what the camera delivered |
| `Capture.LastCaptureDecides` | garnet/bin/display_capture_test/runner.cc:441-455 | the capture of the last frame, and no other, ends the test, and it passes exactly if every retained buffer matches its frame |
| `Capture.EveryVerdictIsRight` | garnet/bin/display_capture_test/runner.cc:330-459 | in every reachable state a finished test passed if and only if all frames past calibration were captured and all captures match, and failed for a mismatch if and only if all were captured and one does not |
| `Capture.FinishesIff` | garnet/bin/display_capture_test/runner.cc:399-459 | a running test ends if and only if the display refuses a frame, a vsync past the first frame shows a wrong image, or the last frame is captured; with the status of that |
| `Capture.EveryEndIsExplained` | garnet/bin/display_capture_test/runner.cc:330-459 | in every reachable state a finished test has the status of the input that ended it |
| `Capture.DisplayedAfterShown` | garnet/bin/display_capture_test/runner.cc:399-424 | every run displays a frame only after a vsync showed the one before it |
| `Capture.ImagesAre` | garnet/bin/display_capture_test/runner.cc:405-417 | the images a frame needs are those of its layers that have one, in order |
| `Capture.BadCapturesCounted` | garnet/bin/display_capture_test/runner.cc:431-435 | over every run at most five captures go wrong, in all tests together, since the count is never reset |
| `Capture.PastCalibration` | garnet/bin/display_capture_test/runner.cc:436-439 | every run gets past a calibration frame only by a quick check against it that passed |
| `Verdicts.PassedIffMacropixelsMatch` | garnet/bin/display_capture_test/runner.cc:426-534 | in every reachable state a finished test on a display of even width passed if and only if all frames past calibration were captured and every macropixel of each matches its capture in the sense of `PointVerdictMeans`, and failed for a mismatch if and only if all were captured and one does not |
| `Verdicts.PastCalibrationShowed` | garnet/bin/display_capture_test/runner.cc:436-439 | in every reachable state past calibration some capture matched the corners and the middle of each calibration frame |
| `Capture.Runner.ShowsFrame` | garnet/bin/display_capture_test/runner.cc:405-417 | the loop over the layers says the frame is shown if and only if the images shown begin with those its layers need, reads past their end if and only if they are a proper prefix of those, and differs otherwise |
| `Capture.Runner.OnResourceReady` | garnet/bin/display_capture_test/runner.cc:308-311 | the test runs, or a frame that is not there is looked up |
| `Capture.Runner.FinishTest` | garnet/bin/display_capture_test/runner.cc:330-334 | ends the test with a status |
| `Capture.Runner.OnVsyncEvent` | garnet/bin/display_capture_test/runner.cc:399-424 | for every list of images: when the next frame is displayed, when the test fails, and when the images are read past their end |
| `Capture.Runner.CheckRetained` | garnet/bin/display_capture_test/runner.cc:444-452 | the loop over the retained buffers, in range throughout |
| `Capture.Runner.FrameNotifyCallback` | garnet/bin/display_capture_test/runner.cc:426-459 | a capture is released, counted towards calibration or retained |
| `Capture.Runner.RetainFrame` | garnet/bin/display_capture_test/runner.cc:441-455 | keeping a capture, and the comparison after the last |
| `Capture.Runner.ReleaseAll` | garnet/bin/display_capture_test/runner.cc:340-343 | gives back every retained buffer once |
| `Capture.Runner.CleanupTest` | garnet/bin/display_capture_test/runner.cc:336-354 | gives back all retained buffers and resets the indices |
| `FidlPaths.EndsWithIff` | tools/fidlcat/main.cc:274-279 | a name has the suffix exactly if it is something followed by it |
| `FidlPaths.VisitDirectory` | tools/fidlcat/main.cc:302-313 | the loop over the entries of a directory: new directory paths queued and marked, files collected in order |
| `FidlPaths.Visit` | tools/fidlcat/main.cc:298-317 | one path taken from the queue |
| `FidlPaths.AfterKeepsSearching` | tools/fidlcat/main.cc:297-318 | after any number of iterations, ended or not: the paths taken and queued are the command line plus each directory path met once, all of them reachable, and the files collected are those of the paths taken |
| `FidlPaths.SearchDone` | tools/fidlcat/main.cc:287-319 | once the queue is empty, exactly the reachable files were collected, and exactly the directory paths of reachable entries were met |
| `FidlPaths.ExpansionCount` | tools/fidlcat/main.cc:287-319 | a directory path is expanded as often as the command line gives it, and once more exactly if it is the path of an entry of a reachable directory; so never twice unless given, and at all exactly if reachable |
| `FidlPaths.EveryNameExpands` | tools/fidlcat/main.cc:304-309 | a directory is expanded anew under each path that reaches it |
| `FidlSearch.EndsIffFinitelyMany` | tools/fidlcat/main.cc:297-318 | the search ends if and only if finitely many directory paths are reachable |
| `FidlSearch.SearchEndsIffNoCycle` | tools/fidlcat/main.cc:297-318 | that is so if and only if no cycle of directories, links followed, can be reached from the command line |
| `FidlSearch.LoopIsACycle` | tools/fidlcat/main.cc:304-309 | a directory with a link to itself is such a cycle |
| `FidlSearch.LoopNeverEnds` | tools/fidlcat/main.cc:304-309 | a directory with a link to itself is expanded anew in every iteration, under a path never met before |
| `FidlSearch.ExpandFidlPaths` | tools/fidlcat/main.cc:287-319 | where it can end the search does, and has collected exactly the reachable files in the order of the visits |

## Left out

- Sockets, message loops, FIDL bindings, the VFS, jobs and processes, the trace engine and logging: they appear as inputs, as traces of what was sent, or not at all.
- The debugserver's command handler, register files and `qXfer`: plumbing into libraries and memory layouts that are not part of this model.
- Packet.WriteFrame: takes data that fits the output buffer, as the source's debug assertion demands of its callers.
- ThreadActions.ThreadActionList.GetAction: requires specific, nonzero ids and resolved "pick one" entries, which the source asserts.
- Notifications.RspServer.QueueNotification: the allocator may return any address not in use; serial numbers exist only to tell notifications apart in statements.
- Lifecycle.RunnerHolder.Cleanup: the map's iteration order is arbitrary; a callback that re-enters the holder while it runs is not modelled.
- Lifecycle.WrapperChain: assigning a wrapper to itself is not modelled.
- Requests.CreateComponentFromPackage: how a package is parsed is an input (one failure, ELF started or not, or a runner), since every failing branch does the same.
- RealmManager.Manager.DestroyRealm: taking the child out of its parent's map (realm.cc:634-646) and destroying it are one step.
- RealmTree.SurvivorsKeepStorage: is about files in component directories, which is where the realm puts them (`ComponentFilesAreOwned`).
- Runners.Realm.GetOrCreateRunner: the enclosing realms are values, as they do not change during the call; that the map iterator stays valid across the recursive insertions is not modelled.
- Services.MakeNamespace: what a service does when connected to, and the order of built-in names among themselves, do not matter to name resolution.
- CachePurge.FileSystem.PurgeCacheIn: all directory operations succeed, and reading a directory yields `.` but not `..`, as on Fuchsia.
- Importer.EmitTallyCounts: trace-engine strings and thread references, and the printing of statistics, are left out.
- Colors.ColorSource.GetNextColor: requires an index that is left, which the source asserts.
- Layers.GetPixel: no claim is made that a scaled coordinate is within the image when the layer is enlarged, because it can equal the limit.
- FrameScan.CheckFrameFully: excludes frames of width 2^32 - 1 with rows, for which the cursor never leaves the first row (`ScanEndsIff`); the captured colours are an input, so the floating-point conversion from YUV is left out.
- Capture.Runner.FrameNotifyCallback: requires what the source's assertions demand; a violated assertion aborts the program and ends the run.
- FidlSearch.ExpandFidlPaths: requires that no directory cycle is reachable, without which the search does not end (`SearchEndsIffNoCycle`); the limits of an operating system on links and path lengths, which would stop such a search with an exception, and opening the files are left out.
- Capture.OverrunIff: a run ends with the first read past the end of a vector; what the program does then is undefined.
- Verdicts.PassedIffMacropixelsMatch: what a buffer shows does not change while it is retained, and an aborted comparison counts as not matching, where the source ends the program; for odd widths `FullScanCoversIff` says which points are compared.
- Tiling.ReaderTracesTile: takes each cpu's buffer as a list of records; the buffer format and read errors are left out.
- Scheme maps, namespace builders, categories and session specifications as JSON, catapult statistics, and the remaining tools: they would only add easy members.
