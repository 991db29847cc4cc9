# Verification model of RemoteBridge

RemoteBridge streams a Mac's screen to a browser over WebRTC. This project models its three
hardest parts, and a smaller fourth, and proves what they are meant to keep.

**Sessions and pairing.** A signaling hub with one host slot and one viewer slot (`Hub`), the host's
session loop (`SessionHost`, `SessionLoop`, `SessionLimits`), the list of paired devices and its
file (`Devices`), the SDP fingerprint parsers (`Sdp`) and the viewer page's asynchronous offer
handler (`Page`) are each modelled alone, then composed (`System`) with one FIFO per direction of
each WebSocket. A step of the composed system is the stretch of one component between two points
where another may run: a lock release, an `.await`, a page `await`. An event that cannot happen in a
state leaves it unchanged, so a sequence of events is any interleaving. The host may be restarted at
any time, with what earlier hosts sent still on its way. `SystemInv` is the invariant of all such
runs, `SystemOrder` what holds besides while there is only one host run, and `SystemProofs` has the
theorems; `RestartTrace` and `WrapTrace` give the runs that show what a restart and a wrapped
session number can break.

**Input.** The page's touch gestures (`Trackpad`, `TrackpadCode`) and mouse (`Mouse`), the host's
injector (`Injector`, `InjectorCode`), the two letterboxes a position goes through (`Letterbox`), and
page and injector together (`Motion`).

**Pairing code.** SHA-256 of FIPS 180-4 (`Words`, `Fips`), the page's in-place version over JavaScript
numbers (`Sha256Code`), UTF-8 (`Utf8`) and the two implementations of the code shown to the user
(`PairingCode`).

**Video packets.** RTP sequence numbers, markers and timestamps (`RtpVideo`).

Code that changes state in place is a class or a method over arrays here too; each such method is
proved equal to a step function on values, and the theorems are about that function. The classes are
`SessionLoop.HostProcess`, `Hub.Hub`, `Page.ViewerPage`, `Devices.PairedDevices`,
`TrackpadCode.TouchTrackpad`, `Mouse.PageMouse`, `InjectorCode.InjectorThread` and
`RtpVideo.VideoSender`.

## Hypotheses

- One host run, for some theorems: `session` restarts at 0 in every run of the host
  (host/src/webrtc_host.rs:89), so an answer to the previous run's offer 1 passes the number check.
  `RestartTrace.StaleAnswerIsAccepted` is such a run. `SystemProofs.AcceptedAnswerIsTheHolders`
  proves, with any number of restarts, that this is the only way a wrong answer can be accepted. The
  theorems about the host's and the pages' order require `OneHostRun`, since that answer breaks them.
- Session numbers below 2^32 (`InRange`). The counter has 32 bits and wraps:
  `WrapTrace.WrappedAnswerIsAccepted` is a run of one host that, 2^32 sessions after its first one, is
  about to accept the answer to that one.
- No way around a saved host key, for `Page.OnlyTheSavedHostIsAnswered` alone: the page has a button
  to forget the key (client/index.html:145-151), other tabs of the origin share the storage, and
  failing accesses to it are ignored (client/index.html:115-120). All four are events of the model;
  `Page.PinningHoldsExactlyWhen` says which of them matter and when, and
  `Page.ForgottenHostIsReplaced` is a run in which the key is forgotten and another host answered.
- At most one answer per session (`SessionHost.OneAnswerEach`), only where the host loop is looked at
  alone. The composed system is proved to guarantee it. `SessionLimits.TwoAnswersLeadThere` and the
  three lemmas after it show what goes wrong without it, and three lemmas say exactly when.
- Removals save (`RemovalsSave`): when `remove` changes the list but cannot save it, no Disconnect is
  queued. `SessionLimits.RemovalCutsOffExactlyWhenSaved` proves both directions.
- A running session loop, for the removal theorems. `run_sessions` owns the receiving end of the
  command queue (host/src/webrtc_host.rs:72) and returns when the hub's link is lost or an approval
  cannot be saved (host/src/webrtc_host.rs:97, 119, 196). The queue goes with it, what is sent
  afterwards is dropped (host/src/admin.rs:250), and the connection stays up (host/src/main.rs:298-301).
  `SessionLimits.RemovalEndsServiceExactlyWhen` has the exact condition for every orderly host, running
  or not, and `SystemProofs.RemovalEndsServiceExactlyWhileRunning` for every state of the system;
  `SessionLimits.LostLinkLosesTheRemoval` has the two orders in which the loss wins.
- Of the page's `toLowerCase` only what `Sdp.LowersLikeJs` says, with `Sdp.LowerLowersLikeJs` showing
  that it can be met.

## Where the code and its comments differ

- client/pairing.mjs:58-60 promises the same rules as the host's parser. They differ on exactly the
  lines `Sdp.ReadingsDifferExactlyWhen` describes, with a second space after the hash name for example,
  and give different answers for exactly the documents `Sdp.ParsersAgreeExactlyWhen` excludes.
- README.md:189 of the repository says that removing the connected device disconnects it at once. It
  does not when the list cannot be saved, nor when the link to the hub is lost before the loop has
  come to the disconnect (see above).
- host/src/pairing.rs:182 says `remove` returns false if the device was not paired. After a removal
  that failed to save, it also does for a device that the file still lists
  (`Devices.FailedRemovalComesBack`).
- A gap between two frames of less than 2^32 ticks of the 90 kHz clock is not always recovered from
  the timestamps: `RtpVideo.GapIsRecoveredExactlyWhen` has the exact condition and
  `RtpVideo.AlmostAWholeTurnIsLost` a gap a quarter of a tick short of 2^32 that is lost.

## Model

| member | source | states |
|---|---|---|
| SystemProofs.AcceptedAnswerIsTheHolders | host/src/webrtc_host.rs:184-217 | in every run of hub, pages and hosts, with any restarts: an answer the host is about to accept was made from the offer of the connection it will be applied to and sent by the viewer that held the slot when that session was announced, or it was made from an offer of an earlier host run |
| SystemProofs.AcceptedAnswerInOneRun | host/src/webrtc_host.rs:184-217 | in one host run it is always the former |
| SystemProofs.OtherAnswersAreDropped | host/src/webrtc_host.rs:218-222 | an answer to this host run from any other viewer, when the host comes to it, leaves the host's state unchanged, because a newer viewer-joined was in front of it |
| SystemProofs.ViewerGetsItsOffer | host/src/webrtc_host.rs:153-183 | with both slots filled, nothing on the links between host and hub, and a started session: that session is the one announced for the viewer in the slot, and its offer was relayed to that viewer |
| SystemProofs.HostIsOrderly | host/src/webrtc_host.rs:93-217 | in every run with one host run the host gets at most one answer per session, never has both a waiting and an active device, shows exactly the device it holds, and `active` names the current connection and the device it serves |
| SystemProofs.PagesAnswerInOrder | client/index.html:376-418 | in every such run every page, however its handlers interleave, sends answers with strictly increasing session numbers |
| SystemProofs.RemovedDevicesAreCutOff | host/src/admin.rs:238-261 | in every such run with saving removals, and for as long as the session loop has not ended, a served device is listed, or a disconnect for it is on its way, or its connection is being closed; with nothing queued, an unlisted device is not served |
| SystemProofs.RemovalEndsServiceExactlyWhileRunning | host/src/admin.rs:246-254 | in every reachable state of such a run, after the saved removal of a listed device that is connected, the host can end its service without any message from outside if and only if the session loop has not ended |
| SystemInv.InvStep | signaling/main.go:119-200 | every step of hub, host or page, in any host run, keeps the system invariant: each session's one offer or answer is in one place, links are in order, and in front of every answer from an outdated viewer there is a newer viewer-joined |
| SystemOrder.OrderedStep | client/index.html:382-418 | every step of the first host run keeps the pages' answers and the offers on their way in order, and the host's answers to one per session |
| SystemProofs.InvRun | signaling/main.go:119-200 | the invariant, and that offers arrive, after any run with any restarts, by induction over its events |
| SystemProofs.OrderedRun | host/src/webrtc_host.rs:89-227 | the order as well, after any run with one host run |
| SystemInv.InAppended | signaling/main.go:151-165 | a relayed answer joins the host's link behind a viewer-joined newer than its session, unless its sender is that session's viewer |
| SystemProofs.AccountedForSysStep | host/src/admin.rs:246-254 | every step of the composed system keeps the active device listed or its disconnect on its way, while the session loop runs |
| RestartTrace.StaleAnswerIsAccepted | host/src/webrtc_host.rs:89 | a run with one host restart after which the new host, in its session 1, is about to accept an answer made from the old host's offer 1 |
| WrapTrace.WrappedAnswerIsAccepted | host/src/webrtc_host.rs:167 | a run of one host of 2^32 + 1 sessions after which it is about to accept an answer to its first session in its present one |
| SessionHost.ConsistentStep | host/src/webrtc_host.rs:95-227 | whatever one message, command, resumption or host-page request is: every connection started except the current one is closed or being closed, the current one's offer carries the loop's session, a waiting answer belongs to that session and to an unlisted device, and `active` is current or closed |
| SessionHost.ConsistentRun | host/src/webrtc_host.rs:89-227 | the same over every stream of messages and commands, ill-formed ones included |
| SessionHost.LetInOnlyIfApproved | host/src/webrtc_host.rs:100-125 | over every stream: a device that is listed or has an answer applied was let in at the start, or was approved by name at a moment when it was the one waiting in the then-current session |
| SessionHost.AlwaysConsistent | host/src/webrtc_host.rs:89-227 | from a fresh host on, both hold over every stream: connections stay accounted for, and only devices listed at the start or approved while waiting are ever let in |
| SessionHost.OrderlyStep | host/src/webrtc_host.rs:95-227 | with at most one answer in this session, a step keeps the waiting device shown, never both waiting and active, and `active` on the current connection |
| SessionHost.OrderlyRun | host/src/webrtc_host.rs:95-227 | the same over every run with at most one answer per session |
| SessionHost.RemovalIsNeverLost | host/src/admin.rs:246-254 | under every interleaving of the host page with the loop, and for as long as the loop has not ended, each connection with an answer applied or about to be has its device listed, or a disconnect coming or being carried out |
| SessionHost.AfterRemovalNothingServes | host/src/webrtc_host.rs:136-147 | after a saved removal, once the queue has drained without a new approval, no open connection serves the device |
| SessionHost.QueueDrains | host/src/webrtc_host.rs:98-149 | from every running state the loop can carry out all that is queued and be idle, without any message from the network |
| SessionLimits.RemovalCutsOffExactlyWhenSaved | host/src/admin.rs:247-259 | the removal of a served device from a quiet running host, once carried out, has ended its connection if and only if the save succeeded |
| SessionLimits.RemovalEndsServiceExactlyWhen | host/src/admin.rs:246-254 | after a removal from any orderly host, running or not, local steps can end the connection the device has if and only if the loop has not ended, and the device was listed and the removal saved, or the connection was going to be closed already |
| SessionLimits.StoppedForEver | host/src/main.rs:298-301 | once the loop has ended no event changes a connection any more |
| SessionLimits.LostLinkLosesTheRemoval | host/src/webrtc_host.rs:97 | if the link to the hub is lost before a saved removal, or after it but before the loop has come to the disconnect, the removed device stays connected whatever happens |
| SessionLimits.FirstOfferIsReached | host/src/webrtc_host.rs:153-183 | config, viewer-joined and a started session lead from a fresh host to its first offer |
| SessionLimits.TwoAnswersLeadThere | host/src/webrtc_host.rs:193-216 | two answers in session 1, from a listed then an unlisted device, leave one served and the other waiting |
| SessionLimits.ApproveRelabels | host/src/webrtc_host.rs:121 | approving the second device then relabels `active`, and removing the first one no longer closes its connection |
| SessionLimits.RejectLeavesActive | host/src/webrtc_host.rs:126-135 | rejecting it closes the connection but leaves `active` naming it |
| SessionLimits.ApproveLeavesPendingShown | host/src/webrtc_host.rs:103-111 | disconnecting the first device and approving the second leaves the host page showing a device the loop no longer holds |
| SessionLimits.ApproveKeepsServedIsActiveExactlyWhen | host/src/webrtc_host.rs:117-124 | an approval keeps `active` naming the served device if and only if the connection serves none yet, or the same one |
| SessionLimits.RejectKeepsActiveIsCurrentExactlyWhen | host/src/webrtc_host.rs:126-135 | a rejection keeps `active` on the current connection if and only if nothing was active |
| SessionLimits.ApproveKeepsPendingIsShownExactlyWhen | host/src/webrtc_host.rs:103-120 | an approval keeps the host page in step with the loop if and only if there is a current connection |
| SessionLoop.HostProcess.RunSessions | host/src/webrtc_host.rs:89-228 | the loop, with the host page's requests in between, ends in the state the step functions give for the same events |
| SessionLoop.HostProcess.MessageArm | host/src/webrtc_host.rs:152-226 | one message from the hub, with the fingerprint its answer announces found by the parser |
| SessionLoop.HostProcess.Step | host/src/webrtc_host.rs:94-227 | one turn of the select, or one request of the host page, has the effect of the step function |
| SessionLoop.HostProcess.ViewerJoinedArm | host/src/webrtc_host.rs:153-183 | forgets the old session under the lock, then closes its connection or goes straight on to the next session |
| SessionLoop.HostProcess.StartNextSession | host/src/webrtc_host.rs:167 | the next session number, wrapped to 32 bits |
| SessionLoop.HostProcess.AnswerArm | host/src/webrtc_host.rs:184-222 | drops an answer for another session, without a connection or without a fingerprint; a listed device becomes active and its answer is about to be applied, another one waits |
| SessionLoop.HostProcess.ApproveArm | host/src/webrtc_host.rs:100-125 | lists and activates exactly the waiting device of the current session; a failed save ends the loop |
| SessionLoop.HostProcess.RejectArm | host/src/webrtc_host.rs:126-135 | forgets the waiting device and closes the current connection |
| SessionLoop.HostProcess.DisconnectArm | host/src/webrtc_host.rs:136-147 | takes `active` if it names the device and starts closing its connection |
| SessionLoop.HostProcess.CommandArm | host/src/webrtc_host.rs:98-150 | commands are carried out in the order they were queued |
| SessionLoop.HostProcess.AfterAwait | host/src/webrtc_host.rs:124-182 | what follows each await: the answer is applied if the connection is still open, the closed connection is closed, the session has started or failed |
| SessionLoop.HostProcess.RemoveRequest | host/src/admin.rs:246-247 | removal under the lock; it leads to a disconnect only when something was removed and saved |
| SessionLoop.HostProcess.SendDisconnect | host/src/admin.rs:250-252 | the queued disconnect of a removal, in a later step of its own; it reaches a running loop only |
| SessionLoop.HostProcess.Send | host/src/admin.rs:192-210 | a command from the host page joins the queue, or is dropped when the loop has ended |
| SessionLoop.HostProcess.StopLoop | host/src/webrtc_host.rs:97 | the loop ends and what is still queued goes with it |
| Hub.Hub.RegisterConn | signaling/main.go:119-135 | config to the newcomer, its slot filled, and viewer-joined to the host when both slots are |
| Hub.Hub.UnregisterConn | signaling/main.go:137-146 | empties the slot only if the connection still owns it |
| Hub.Hub.RelayMessage | signaling/main.go:151-165 | writes to whoever is in the other slot, without asking whether the sender still owns its own |
| Hub.StreamGrows | signaling/main.go:119-165 | exactly which frames each hub event appends to each connection that is not broken |
| Hub.NoLostWakeup | signaling/main.go:119-146 | whenever both slots are filled and the host's connection works, its stream holds a viewer-joined written by the later of the two registrations, whatever displaced connections do |
| Hub.OneWakeupPerPairing | signaling/main.go:119-135 | a host's stream holds exactly as many viewer-joined as there were registrations that left both slots filled with it as the host |
| Hub.ConfigComesFirst | signaling/main.go:113-124 | every connection's stream starts with config and holds no second one; before registering it is empty |
| Page.ViewerPage.OnMessage | client/index.html:368-397 | the handler up to its first await: config, anything before config, an offer whose key is missing or is not the saved one, with the button to forget it, and a new peer connection |
| Page.ViewerPage.Resume | client/index.html:397-418 | the rest of the handler, one await at a time, with both checks for a newer offer |
| Page.ViewerPage.OnConnected | client/index.html:331-338 | a connection that comes up while current saves the host's key if none can be read, as far as the storage takes it, and hides the box with the button |
| Page.ViewerPage.OnForget | client/index.html:145-151 | a click on the button, while it is shown, removes the saved key |
| Page.AnswersStayInOrder | client/index.html:382-418 | with offers numbered upwards, every interleaving of handlers keeps the sent sessions strictly increasing and lets only the newest handler answer |
| Page.AnswersWereAccepted | client/index.html:386-418 | over every run of the page, whatever happens to the storage: every answer sent is to an offer whose key was the saved one, or came when none could be read |
| Page.PinningHoldsExactlyWhen | client/index.html:386-391 | a saved key survives an event, with only its host able to get an answer, if and only if the event is not a click that forgets it, a change from another tab, an overwrite by a storage that cannot be read, or another host's offer while it cannot be read |
| Page.OnlyTheSavedHostIsAnswered | client/index.html:386-418 | over any run without those events the saved host key stays, and every answer is for an offer with that key |
| Page.ForgottenHostIsReplaced | client/index.html:139-152 | a run in which an offer is refused, the key forgotten with the button, and the next offer of that other host answered |
| Devices.LoadDevices | host/src/pairing.rs:151-159 | loading takes the file's list, an empty one where there is no file, and is an error where the file cannot be parsed |
| Devices.PairedDevices.Save | host/src/pairing.rs:222-230 | at every point where it may be interrupted the file reads as the old list or the new one; it ends with the new one exactly on success |
| Devices.PairedDevices.Do | host/src/pairing.rs:169-218 | the new list, the file and the answer of each operation, crash safety throughout, and that a failed operation leaves the listed file as it was |
| Devices.WithoutUnique | host/src/pairing.rs:183-191 | removal from a list without duplicates takes out exactly the one entry of the device, or nothing |
| Devices.ReloadGivesTheLastWrittenList | host/src/pairing.rs:151-230 | at any point of any run, with saves failing anywhere, reloading gives the list that memory held right after the last operation that wrote it |
| Devices.RunKeepsUnique | host/src/pairing.rs:169-218 | in any run fingerprints stay unique, in memory and on disk |
| Devices.StoreStepKeepsInStep | host/src/pairing.rs:169-218 | memory and disk stay equal if and only if nothing had to be saved, the save worked or the list did not change |
| Devices.FailedRemovalComesBack | host/src/pairing.rs:183-191 | after a removal that failed to save, a second one finds nothing to save, so the file still lists the device and a restart brings it back |
| Sdp.Announced | host/src/pairing.rs:75-92 | the result is v if and only if at least one line has a value, none is refused and all values are v |
| Sdp.AnnounceMeans | client/pairing.mjs:61-73 | the same of the loop from any point on, with what it has found so far |
| Sdp.RustFingerprintFromSdp | host/src/pairing.rs:75-92 | the host's loop computes that result from its own reading of the lines |
| Sdp.JsFingerprintFromSdp | client/pairing.mjs:61-73 | the page's loop computes it from its reading |
| Sdp.OrderDoesNotMatter | host/src/pairing.rs:75-92 | lines in any order and any number of times give the same result |
| Sdp.ReadingsDifferExactlyWhen | client/pairing.mjs:63-68 | the two parsers read a line differently if and only if it is a sha-256 line whose value starts with white space, contains a space or is lowercased differently by the two languages |
| Sdp.ParsersAgreeExactlyWhen | client/pairing.mjs:58-73 | the two parsers give the same result for a document if and only if it has no line they read differently, or each of them meets a line it refuses, two different values or no fingerprint line |
| Sdp.NoAnswerExactlyWhen | host/src/pairing.rs:75-92 | these three are exactly the reasons to give no fingerprint |
| Sdp.ParsersAgree | client/pairing.mjs:58-73 | in particular on every document without such a line |
| Sdp.ParsersAgreeOnRfc8122 | client/pairing.mjs:58-73 | they agree on every document whose fingerprint lines follow section 5 of RFC 8122 |
| Sdp.DoubleSpaceIsReadDifferently | client/pairing.mjs:66-67 | with two spaces the host takes the value of a line and the page refuses the line |
| Sdp.ParsersDisagree | client/pairing.mjs:58-73 | a document for which the host finds a fingerprint and the page none |
| Sdp.FingerprintHasNoBreak | host/src/pairing.rs:75-92 | a fingerprint found by either parser contains no line break |
| Sdp.OneLineDocument | host/src/pairing.rs:75-92 | both parsers take the lowercased value of a well-formed document of one line |
| TrackpadCode.TouchTrackpad.TouchCentre | client/input.mjs:101-105 | the average of all touches |
| TrackpadCode.TouchTrackpad.HandleDown | client/input.mjs:107-147 | a first finger starts a gesture and takes over a held-back click; a second makes it a two-finger one and settles what the first owed |
| TrackpadCode.TouchTrackpad.HandleMove | client/input.mjs:149-175 | slop, missing frame, scroll, drag start and cursor movement, in that order |
| TrackpadCode.TouchTrackpad.HandleUp | client/input.mjs:177-207 | the last finger releases, clicks, or holds a click back |
| TrackpadCode.TouchTrackpad.TimerFires | client/input.mjs:202-205 | a timer that was not cleared sends the held-back click |
| TrackpadCode.TouchTrackpad.HandleAll | client/input.mjs:93-210 | over any events: the invariant, and every completed tap accounted for |
| Trackpad.PadOkStep | client/input.mjs:107-207 | every event keeps: a gesture exactly while a finger is down, two fingers never back to one, a click owed exactly while a drag is armed, no live timer except the held-back click's |
| Trackpad.TapStep | client/input.mjs:107-207 | every event accounts for at most one tap, and a drag starts only by spending the one owed click |
| Trackpad.TapsAreConserved | client/input.mjs:107-207 | over any events, completed one-finger taps are the left clicks sent, plus the held-back and the owed click, plus drags started |
| Trackpad.ButtonIsHeldOnlyWhileDragging | client/input.mjs:132-189 | in every prefix of a run the presses exceed the releases by one exactly while a gesture drags, and no click falls in between |
| Trackpad.CentreFollows | client/input.mjs:149-154 | one of n fingers moving by d moves the measured centre by exactly d/n, whatever landed or lifted before |
| Trackpad.OnlyMovesSendMotion | client/input.mjs:144-146 | fingers landing and lifting, and timers, send no movement |
| Trackpad.SlideTelescopes | client/input.mjs:149-175 | the distances a sliding finger sends add up to its way from just before the slop was crossed to where it is |
| Trackpad.CrossesThere | client/input.mjs:158-161 | the point counted as crossing is the first after which the gesture counts as moved |
| Mouse.PageMouse.Handle | client/input.mjs:40-59 | presses on the frame only, moves and releases only while down, and returns true exactly for a press that started |
| Mouse.HostButtonFollowsExactlyUnlessLost | client/input.mjs:40-59 | over any events the button the host holds agrees with the page's if and only if the last press was not let go of while the video had no size |
| Mouse.ReleaseCanBeLost | client/input.mjs:55-58 | two events after which the host's button is down and the page's is up |
| Mouse.OnlyFractionsAreSent | client/input.mjs:31-32 | every coordinate sent is between 0 and 1 |
| InjectorCode.TakeWhole | host/src/input.rs:347-352 | whole points towards zero, with less than a point left over |
| InjectorCode.InjectorThread.PressHeld | host/src/input.rs:304-310 | a successful press is remembered once |
| InjectorCode.InjectorThread.ReleaseOne | host/src/input.rs:312-316 | a successful release is forgotten |
| InjectorCode.InjectorThread.MoveBy | host/src/input.rs:258-268 | carries the remainders, asks for the cursor only when a whole point is due, and clamps the target |
| InjectorCode.InjectorThread.ScrollBy | host/src/input.rs:279-289 | the same for scrolling, vertical first, stopping at a failure |
| InjectorCode.InjectorThread.ResetHeld | host/src/input.rs:295-299 | releases what was held, stopping at the first failure, with nothing held any more |
| InjectorCode.InjectorThread.Combo | host/src/input.rs:324-342 | the calls of a key combination, and that the result is the first error among them, if any |
| InjectorCode.InjectorThread.ApplyEvent | host/src/input.rs:233-302 | the calls, the result and the new state of every input event |
| InjectorCode.InjectorThread.Serve | host/src/input.rs:209-213 | the thread's loop over any events, failures ignored |
| Injector.DownIsAlwaysHeld | host/src/input.rs:233-316 | over any events and failures, with Resets succeeding: every button down on the OS is in `held` |
| Injector.ResetLeavesNoneDownExactlyWhen | host/src/input.rs:295-299 | a Reset leaves no button down if and only if every button that was down comes before its first failing release; in particular when it succeeds |
| Injector.KeyComboNests | host/src/input.rs:324-342 | for any modifiers and failures the calls nest: each modifier that went down gets exactly one release attempt, in reverse order |
| Injector.KeyIsClickedExactlyWhenAllPressed | host/src/input.rs:324-342 | the key is clicked if and only if every press succeeded |
| Injector.RemaindersCarryOver | host/src/input.rs:258-268 | over any events the whole points asked for plus the carried remainder are exactly the scaled distance, the remainder staying below a point |
| Letterbox.OneBarIsAlwaysZero | host/src/input.rs:364-384 | the display fits the frame, centred, with no negative bar and at least one bar of zero |
| Letterbox.FrameIsDrawnCentred | client/input.mjs:12-22 | the frame fits the element, centred, keeping its proportions, touching it on at least one axis |
| Letterbox.FrameRect | client/input.mjs:12-22 | there is no frame exactly while the video has no size |
| Letterbox.LetterboxesUndoEachOther | host/src/input.rs:371-396 | for all sizes, the client coordinate where a display point is drawn is mapped back to exactly that point |
| Letterbox.EveryClickHitsTheNearestPoint | host/src/input.rs:386-396 | every client coordinate, on a bar or off the element, is mapped onto the display, to the point drawn nearest on each axis |
| Letterbox.PointIsMonotone | host/src/input.rs:386-396 | moving right or down on the page never moves the cursor left or up |
| Motion.StepsFollowTheFingers | host/src/input.rs:258-268 | whatever was sent and whatever fails, the whole points asked for from a fresh injector are within one point of the exact distance on each axis |
| Motion.CursorTakesTheSteps | host/src/input.rs:258-268 | with nobody else moving it and no edge in the way, the cursor goes exactly the whole points asked for |
| Motion.SlideMovesTheCursor | client/input.mjs:149-175 | a finger sliding on a freshly opened page moves the cursor to within one point per axis of its scaled way since just before the slop |
| Motion.ButtonIsDownExactlyWhileDragging | client/input.mjs:132-189 | whatever the fingers do, the Mac's button is down exactly while a gesture on the page drags, when the calls succeed |
| Motion.ResetReleasesEverything | host/src/input.rs:85-89 | wherever in a gesture the channel closes and whatever failed before, a Reset whose releases succeed leaves no button down |
| Words.BitOfBitwise | client/pairing.mjs:34-45 | the bitwise operations act on each bit alone |
| Words.BitOfRotr | client/pairing.mjs:34 | the shift-and-or form of `rotr` is a rotation: bit k is bit k + n around the word |
| Words.SignedAndBack | client/pairing.mjs:37-50 | a signed 32-bit result read as a word again is the word it came from |
| Words.DelayedReduction | client/pairing.mjs:40-50 | the remainder of a sum modulo 2^32 is the modular sum of the remainders |
| Fips.PaddingIsRight | client/pairing.mjs:22-28 | the padding is the smallest multiple of 64 bytes from n + 9 on, with the message, the 1 bit, zeros and the length in bits |
| Sha256Code.Pad | client/pairing.mjs:22-28 | the padded copy is the standard's (section 5.1.1) for every byte array |
| Sha256Code.SetUint32 | client/pairing.mjs:27-28 | writes the four big-endian bytes of the number modulo 2^32 and nothing else |
| Sha256Code.FillSchedule | client/pairing.mjs:36-41 | the array w holds the message schedule of the block (section 6.2.2, step 1) |
| Sha256Code.NextWord | client/pairing.mjs:38-40 | one word of it, every sum exact and the one reduction at the end |
| Sha256Code.NewWords | client/pairing.mjs:44-47 | t1 and t2 stay exact in doubles and the late reductions give the modular sums |
| Sha256Code.OneRound | client/pairing.mjs:44-47 | one pass of the inner loop is one round (section 6.2.2, step 3) |
| Sha256Code.PageConstants | client/pairing.mjs:9-18 | the page's table is the standard's (section 4.2.2) |
| Sha256Code.Mix | client/pairing.mjs:42-48 | 64 of them |
| Sha256Code.Block | client/pairing.mjs:36-50 | one pass of the outer loop is one block (section 6.2.2) |
| Sha256Code.Sha256 | client/pairing.mjs:21-56 | for every byte array the page's sha256 is the function of FIPS 180-4 |
| Utf8.EncodeIsInjective | client/pairing.mjs:82 | different texts have different UTF-8 encodings |
| PairingCode.HashedTextDeterminesThePair | host/src/pairing.rs:102-107 | for host fingerprints without a newline, the hashed bytes are equal if and only if both fingerprints are |
| PairingCode.ParsedPairsHashApart | host/src/pairing.rs:102-107 | for host fingerprints that come from either parser no newline can be in the way |
| PairingCode.NewlineWouldConfuse | host/src/pairing.rs:102-107 | with a newline two different pairs hash the same text |
| PairingCode.SidesHashTheSameExactlyWhen | client/pairing.mjs:81 | host and page hash the same bytes if and only if their lowercased fingerprints are equal |
| PairingCode.RustPairingCode | host/src/pairing.rs:102-119 | the code has the form XXXX-XXXX-XXXX and decodes to exactly the top 60 bits of the digest |
| PairingCode.TopBytes | client/pairing.mjs:84-85 | shifting in eight bytes gives the number they spell |
| PairingCode.JsPairingCode | client/pairing.mjs:80-93 | the same of the page's code, over its own sha256 |
| PairingCode.CodeIsUnique | host/src/pairing.rs:94-119 | there is only one code of that form for each 60-bit number |
| PairingCode.DigitRoundTrip | host/src/pairing.rs:94-95 | each of the 32 characters stands for its own place and is no dash |
| PairingCode.CodesAgree | client/pairing.mjs:80-93 | sides that lowercase the two fingerprints alike show the same code |
| PairingCode.CodesAgreeOnAscii | client/pairing.mjs:80-93 | on ASCII fingerprints, all that certificates have, they always do |
| RtpVideo.VideoSender.WriteFrame | host/src/rtp_video.rs:59-84 | hands over the frame's packets up to and including the first that fails, numbered on from the last frame, and succeeds exactly when none fails |
| RtpVideo.PacketsAreNumbered | host/src/rtp_video.rs:59-84 | over any frames and failures the i-th packet handed over carries sequence number i modulo 2^16 |
| RtpVideo.FramePackets | host/src/rtp_video.rs:59-84 | a frame's packets share its timestamp, carry its payloads in order, and the marker is on the last payload only |
| RtpVideo.ReceiverGetsTheFrames | host/src/rtp_video.rs:59-84 | with no failing write, splitting the packets at the markers gives back exactly the frames with their timestamps (section 5.1 of RFC 6184) |
| RtpVideo.GapIsRecoveredExactlyWhen | host/src/rtp_video.rs:34-37 | the timestamp difference modulo 2^32 is within one tick of the capture gap if and only if the clock ticked less than 2^32 times in between (section 5.1 of RFC 3550) |
| RtpVideo.ShortGapsAreRecovered | host/src/rtp_video.rs:34-37 | in particular every gap of at most 2^32 - 1 ticks is recovered |
| RtpVideo.AlmostAWholeTurnIsLost | host/src/rtp_video.rs:34-37 | two capture times less than 2^32 ticks apart with equal timestamps |

## Left out

- SessionLoop.HostProcess.AfterAwait: `start_session` is only "an open connection with the offer of this session, or none"; ICE, DTLS, SCTP, SDP generation and the data channel callbacks are not part of this model.
- SystemProofs.InvRun: session numbers below 2^32, since WrapTrace.WrappedAnswerIsAccepted breaks it; SystemProofs.OrderedRun needs one host run as well.
- SystemProofs.AcceptedAnswerIsTheHolders: an earlier host that still runs may send offers but does not register again.
- SystemProofs.RemovedDevicesAreCutOff: assumes that removals save and the loop has not ended; without either it is false, see SessionLimits.RemovalEndsServiceExactlyWhen and SessionLimits.LostLinkLosesTheRemoval.
- SystemInv.InvStep: hub writes do not fail in the composed system; a dead connection is one whose frames are never read. `Hub` alone has failing writes.
- Injector.DownIsAlwaysHeld: a Reset in which a release fails has already emptied `held`, so it is excluded here; Injector.ResetLeavesNoneDownExactlyWhen says what it leaves down.
- Motion.SlideMovesTheCursor: the cursor must not reach an edge, every call must succeed and only the injector moves it; with failures Motion.StepsFollowTheFingers still bounds what is asked for.
- PairingCode.CodesAgree: what String.toLowerCase does outside ASCII is a parameter; PairingCode.SidesHashTheSameExactlyWhen says exactly when the two sides hash the same bytes.
- Sdp.ReadingsDifferExactlyWhen: white space outside ASCII, of which Rust and JavaScript trim different characters, is not white space here.
- Letterbox.LetterboxesUndoEachOther: exact reals, an element with an area, and a video of the size the host encodes.
- RtpVideo.GapIsRecoveredExactlyWhen: exact reals, and ticks that fit in 64 bits.
- Floating-point rounding and saturation to 32 bits in the input path; Math.hypot is an arbitrary function.
- The u32 session counter wraps as in a release build; a debug build would stop instead.
- Wall-clock values of paired_at and last_seen are parameters, and so are I/O faults and OS call results.
- Pending holds only the fingerprint, not the code shown beside it; what the code is, is in PairingCode.
- JSON encoding of messages and of the device file; the file is complete, torn or absent.
- The lock of a Mutex poisoned by a panic, and the closing of the host's own process.
- HTTP, WebSocket upgrades, token checks, TURN credentials, the host page, and what the page's status and pairing boxes say.
- Page.ViewerPage.OnForget: the reload after the click opens another page; this one goes on until it is unloaded.
- ScreenCaptureKit, the encoder and the H.264 payloader: a frame's payloads are any finite sequence.
- Keyboard classification (`keyMessage`, `typingMessage`, `KeyName`), `clean_name`, `host_url`: single decisions per character or name.
- Trackpad.TapsAreConserved: the held-back click's timer may fire at any later event, so DRAG_AFTER_TAP_MS does not appear and the properties hold whatever the delay.
- Sha256Code.Pad: array lengths are unbounded here; below 2^53, JavaScript's own limit, n + 9, n * 8 and the divisions by 64 and 2^32 are exact in doubles.
- Mouse and touch used at the same time.
- Cryptographic strength of the code and of SHA-256.
