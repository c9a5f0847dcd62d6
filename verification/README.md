# AstroDeck in Dafny

AstroDeck runs a telescope from a small computer at home. These modules model the parts of it
that hold state over time or transform data, and prove what those parts promise.

| part | files |
|---|---|
| setup hotspot broker | `broker_window.dfy` (the fields under the state lock), `broker_machine.dfy` (the threads), `broker_service.dfy` (what a request achieves), `broker_limits.dfy` (what it may do), `hotspot_loss.dfy` (who can take a live window's access point), `late_watcher.dfy` (two runs in full) |
| setup identity | `identity.dfy` (commission, rotate, consume, record, clear), `identity_history.dfy` (what is in force after a life), `boot_gesture.dfy` (the three-boot recovery) |
| relay, browser `/ws` | `viewer_egress.dfy` (one viewer as a state machine), `viewer_policy.dfy` (its overflow and disconnect policy), `viewer.dfy` (its objects), `fanout.dfy` (many viewers on one tunnel) |
| relay, browser HTTP | `http_exchange.dfy` (the exchanges as a state machine), `http_progress.dfy` (replies passed on and refused), `http_mux.dfy` (their objects) |
| relay, homes | `registry.dfy` (the home table and one connection), `fencing.dfy` (connections interleaved), `handshakes.dfy` (one home's dial-in), `one_live.dfy` (one live connection per home), `handshake_lock.dfy` (the server's lock) |
| relay, edge | `frame_codec.dfy` (the wire format), `ratelimit.dfy` (the token bucket) |
| update supervisor | `layout.dfy` (versions and pointers), `supervisor.dfy` (one turn of the loop), `supervisor_turns.dfy` (what a turn comes to), `supervisor_history.dfy` and `supervisor_reports.dfy` (whole runs), `supervisor_loop.dfy` (its objects and loop) |
| build-context checker | `glob.dfy` (patterns and rules), `ignore_rules.dfy` (lines as rules) |
| screenshot checker | `png.dfy` |
| shared | `wrappers.dfy`, `text.dfy`, `sequences.dfy` |

Where the program changes objects in place, a class has the same fields and methods. Each method is
specified by a function from the old state to the new one, and the theorems are about all runs of
those functions. A coroutine is cut at every `await`, a thread at every lock operation and effect, and
a run is any interleaving of the pieces. Histories (`trace`, `marks`, `history`, `log`) are not kept by
the program; they are there to be spoken of.

What the environment does is given by the run: clock readings, which send or system call raises, what
a launched server does, and in which order everything happens.

## Where the code and its own words differ

The models follow the code.

- `HomeRegistry.register` says that a higher generation evicts the prior tunnel. Of that class alone:
  the tunnel is fenced only at `commit`, and only the one directly behind the new registration, so two
  overlapping handshakes leave the tunnel behind both open (`Fencing.OverlapLeavesTwoLive`;
  `Fencing.FencedIffGuarded` and `OneLivePerHome.OneLiveIffClashFree` say exactly when that does not
  happen). The server takes a lock around each handshake, which rules that run out
  (`HandshakeLock.OverlapIsNotLocked`), and then only the eviction of a home in mid-handshake breaks
  the fence (`HandshakeLock.LockedIsFencedIff`, `HandshakeLock.EvictionBreaksTheFence`). The server
  also closes the connection that a commit replaces in its own table, which is not modelled.
- `is_safe_version` is meant to admit file-name characters only. Its `$` also matches before a newline
  at the very end, so `1.2\n` is admitted (`Layout.SafeVersions`) and does not come back from the
  pointer it is written to (`Layout.SafeVersionRoundTrip`).
- `run_forever` is meant to survive an `OSError` and go on. One that strikes between a failed probe and
  the return to last-good makes it probe the same version again
  (`SupervisorHistory.ErrorRepeatsTheProbe`, `SupervisorHistory.AVersionCanFailTwice`), and one between
  taking up a request and reporting on it leaves the server without a report or with two
  (`SupervisorHistory.BalancedThroughoutIff`).
- A password rotation dated before the commissioning is written without complaint, and every later
  operation then refuses the identity (`SetupIdentity.RotationKeepsValidIff`, `SetupIdentity.EarlyRotationIsFinal`).
- A setup window is meant to keep its access point until it closes. A thread that is bound to a
  teardown does not look whose access point it takes. With the one request thread of `serve_broker`
  that is a watcher held up since an earlier window (`HotspotLoss.OnlyLateWatchersTakeIt`,
  `LateWatcher.LiveWindowCanLoseItsHotspot`, `LateWatcher.ReplacedWindowStillHasItsWatcher`); with
  several, also an open, a close or a failed open waiting for the network lock, or an open that still
  works for a replaced window (`HotspotLoss.LosesHotspotIff`).
- Pruning idle buckets is meant to cost nothing. When the idle limit is too short to refill a bucket it
  changes answers (`RateLimit.PruningIsUnobservableIff`) and breaks the rate bound (`RateLimit.RateIsBoundedIff`).

## Model

| member | source | states |
|---|---|---|
| BrokerMachine.HotspotNeverOutlivesWindow | orangepi5/provision/astrodeck-provision-broker.py:1109-1264 | In every interleaving of request threads and watchers, once the network lock is free an access point that is still up has an open window, or a thread that closed the window still has its teardown ahead, or the last teardown raised |
| BrokerMachine.AtRestHotspotIsTimely | orangepi5/provision/astrodeck-provision-broker.py:1127-1143 | When no request is under way, nothing was stopped and no teardown failed, an access point that is up belongs to an open window whose deadline is ahead by at most 900 seconds |
| BrokerMachine.WindowNeverRevived | orangepi5/provision/astrodeck-provision-broker.py:1088-1120 | A generation that was issued and is no longer current stays so for ever, and a window keeps the deadline it was opened with, so no failed join prolongs it |
| BrokerMachine.ClosedWindowKeepsNoSecrets | orangepi5/provision/astrodeck-provision-broker.py:1109-1120 | In no reachable state are hotspot credentials or scan results left behind without an open window |
| BrokerMachine.RunKeepsInv | orangepi5/provision/astrodeck-provision-broker.py:1074-1264 | Mutual exclusion, the debt of a teardown and the presence of a watcher for the open window hold throughout every run, while time and generation only grow |
| BrokerMachine.NextKeepsInv | orangepi5/provision/astrodeck-provision-broker.py:1127-1264 | No single piece of any thread breaks them |
| BrokerService.LostJoinRestoresHotspot | orangepi5/provision/astrodeck-provision-broker.py:1234-1252 | A join that raises or is refused has the access point up again when it releases the network lock, whatever other threads do, if no call on the access point raised and the window was current when it looked; it gets there in exactly seven steps, four from the attempt on |
| BrokerService.WonJoinEndsWindow | orangepi5/provision/astrodeck-provision-broker.py:1234-1248 | A join that succeeds leaves the access point down and its window over |
| BrokerService.OpenRaisesHotspot | orangepi5/provision/astrodeck-provision-broker.py:1145-1200 | An open that meets no error and finds its window current ends with the access point up, after thirteen steps |
| BrokerService.FailedOpenEndsWindow | orangepi5/provision/astrodeck-provision-broker.py:1189-1209 | An open that fails once it has its window, at either look at the clock, in the scan or in raising the hotspot, leaves neither window nor hotspot when its cleanup does not raise |
| BrokerService.CloseEndsWindow | orangepi5/provision/astrodeck-provision-broker.py:1257-1264 | A close or a stop ends the window there was and leaves the access point down when its teardown does not raise |
| BrokerService.ScanIsPublished | orangepi5/provision/astrodeck-provision-broker.py:1222-1232 | What a scan found is in its window when the scan releases the lock, if that window is still open |
| BrokerLimits.ServedWhileCurrent | orangepi5/provision/astrodeck-provision-broker.py:1189-1252 | In every run a thread turns to scanning, joining or putting the hotspot back only under the network lock and for a window that is open, unexpired and its own |
| BrokerLimits.WindowLastsItsTerm | orangepi5/provision/astrodeck-provision-broker.py:1166-1182 | A window lasts 900 seconds from the use of its permission, however long the thread is held up before it stores it |
| BrokerLimits.WindowsNeedPermissions | orangepi5/provision/astrodeck-provision-broker.py:1166-1182 | No run opens more windows than it consumed permissions |
| HotspotLoss.LosesHotspotIff | orangepi5/provision/astrodeck-provision-broker.py:1109-1264 | In every reachable state with a current window, its access point up, the network lock free and nobody joining, some continuation in which the window stays current and nobody joins takes the access point down if and only if some thread waits for the lock to tear down, waits for it to open, or still opens or watches for a window that was replaced |
| HotspotLoss.OnlyLateWatchersTakeIt | orangepi5/provision/astrodeck-provision-broker.py:1350-1381 | With a single request thread, as the broker runs, that is so if and only if some watcher is late: it has found an earlier window over and not torn down yet |
| LateWatcher.LiveWindowCanLoseItsHotspot | orangepi5/provision/astrodeck-provision-broker.py:1127-1143 | One such run: a window is open and current, nothing failed and the lock is free, and its access point is down, because the watcher of the window before was held up between closing and tearing down |
| LateWatcher.ReplacedWindowStillHasItsWatcher | orangepi5/provision/astrodeck-provision-broker.py:1127-1143 | Another: the watcher is held up before it closes its window, and the window has been replaced meanwhile |
| BrokerWindow.BrokerState.IsCurrent | orangepi5/provision/astrodeck-provision-broker.py:1088-1095 | A generation is current only while its own window is open and its deadline has not come |
| BrokerWindow.BrokerState.Snapshot | orangepi5/provision/astrodeck-provision-broker.py:1097-1107 | The credentials and positive remaining time of a current window, or refusal |
| BrokerWindow.BrokerState.MarkClosed | orangepi5/provision/astrodeck-provision-broker.py:1109-1120 | Closing one generation leaves a later window alone; what is closed is scrubbed and its generation used up |
| BrokerWindow.BrokerState.Arm | orangepi5/provision/astrodeck-provision-broker.py:1161-1185 | A new window has a fresh generation, its own terms and no scan result |
| BrokerWindow.BrokerState.Publish | orangepi5/provision/astrodeck-provision-broker.py:1222-1232 | A scan result is stored only in the window it was made for |
| SetupIdentity.AuthorizationIsConserved | orangepi5/provision/astrodeck-provision-broker.py:529-654 | Over any life whose rotations are not dated before the commissioning the identity stays valid, its generation counts rotations and recoveries, and uses plus the remaining permission never exceed one per commissioning or recovery |
| SetupIdentity.LiveKeepsInv | orangepi5/provision/astrodeck-provision-broker.py:557-654 | Each operation keeps validity and both balances |
| SetupIdentity.RotationKeepsValidIff | orangepi5/provision/astrodeck-provision-broker.py:557-570 | A rotated identity is valid if and only if the rotation is not dated before the commissioning |
| SetupIdentity.EarlyRotationIsFinal | orangepi5/provision/astrodeck-provision-broker.py:426-478 | After an earlier-dated rotation no sequence of operations changes the stored identity any more |
| SetupIdentity.IdentityStore.Read | orangepi5/provision/astrodeck-provision-broker.py:494-521 | A missing or invalid document is an error and a valid one is returned as it is |
| SetupIdentity.IdentityStore.Commission | orangepi5/provision/astrodeck-provision-broker.py:529-554 | The first commissioning stores a valid armed identity; a second one refuses and changes nothing |
| SetupIdentity.IdentityStore.Rotate | orangepi5/provision/astrodeck-provision-broker.py:557-570 | The new password is the first generated one that is neither active nor factory, and nothing else changes but generation and date |
| SetupIdentity.IdentityStore.Consume | orangepi5/provision/astrodeck-provision-broker.py:573-584 | True once per permission, and then the permission is gone |
| SetupIdentity.IdentityStore.RecordShortBoot | orangepi5/provision/astrodeck-provision-broker.py:600-644 | A repeated id is not counted, an expired or malformed gesture restarts, and the third different boot restores the factory password and arms the hotspot |
| SetupIdentity.IdentityStore.ClearShortBoots | orangepi5/provision/astrodeck-provision-broker.py:647-654 | Only the counter is emptied |
| SetupIdentity.IdentityStore.LiveThrough | orangepi5/provision/astrodeck-provision-broker.py:529-654 | Any sequence of operations on the store leaves the identity, and gives the answers, of the life that the theorems speak of |
| IdentityHistory.RecoveryRestoresFactoryPassword | orangepi5/provision/astrodeck-provision-broker.py:600-644 | In every life, whichever operation adds a recovery is a boot, and after it the factory password of the beginning is in force and the hotspot allowed for recovery from that boot's time |
| IdentityHistory.FoundationIsForLife | orangepi5/provision/astrodeck-provision-broker.py:529-654 | No operation ever changes SSID, factory password or commissioning date |
| IdentityHistory.PasswordInForce | orangepi5/provision/astrodeck-provision-broker.py:557-644 | The active password of any life is the first one, the password of the last rotation, or the factory one when a recovery came last; nothing else changes it |
| IdentityHistory.PermissionInForce | orangepi5/provision/astrodeck-provision-broker.py:573-644 | The hotspot is allowed exactly when no consumption came after the permission was last given, by the start or by a recovery, and since that recovery's time |
| IdentityHistory.WhatOneChanges | orangepi5/provision/astrodeck-provision-broker.py:557-654 | Each kind of success of one operation changes just what is its own: rotation, recovery, consumption, or the counter alone |
| IdentityHistory.LifeBeginsAllowed | orangepi5/provision/astrodeck-provision-broker.py:529-554 | A commissioned identity is valid, has the given password in force, and its hotspot permission can be used at once |
| BootGesture.CounterRefinesHistory | orangepi5/provision/astrodeck-provision-broker.py:587-654 | In every life whose rotations are not dated before the commissioning, each operation recovers if and only if it completes the gesture of the whole history, and in between the stored two-id counter holds that gesture's ids in order and its first time |
| BootGesture.GestureIsOne | orangepi5/provision/astrodeck-provision-broker.py:600-654 | The gesture is what it is called: different boots in order, in one window, nothing cleared since the first, and with every boot since |
| BootGesture.ThreeBootsInAWindowRecover | orangepi5/provision/astrodeck-provision-broker.py:600-644 | From an empty counter at any point of a life, whatever rotations and consumptions come between, boots inside 180 seconds of the first recover exactly at the one that makes three differ |
| BootGesture.RecoveryNeedsThreeBoots | orangepi5/provision/astrodeck-provision-broker.py:600-654 | Every recovery in a life has two earlier boots with different ids behind it, in one window, with nothing cleared since |
| BootGesture.CounterHasWitnesses | orangepi5/provision/astrodeck-provision-broker.py:401-423 | In any such life the ids in the counter are those of earlier boots of that life, in order, uncleared and within the window |
| ViewerEgress.NoSilentLoss | relay/relay/proxy.py:113-162 | Each event that arrives is in exactly one place: delivered, in flight, queued, replaced by a newer preview or sequence event of its own type, dropped, or abandoned when the viewer closed |
| ViewerEgress.DropsAreAnnounced | relay/relay/proxy.py:399-470 | A gap frame is owed exactly while a drop is unannounced, something is then queued to announce it ahead of, and a gap frame starts before any event taken after the drop is sent |
| ViewerEgress.GapsOnlyAfterDrops | relay/relay/proxy.py:434-455 | No gap frame without a drop since the last one, and nothing is sent that was not taken from the buffer |
| ViewerEgress.BoundedAndOrdered | relay/relay/proxy.py:139-156 | The buffer never exceeds its bound, and events of one type, as well as all events that are never replaced, are delivered in arrival order |
| ViewerEgress.RunKeepsInv | relay/relay/proxy.py:399-470 | Conservation, order, bound and gap accounting hold after every sequence of arrivals, pump pieces and closes |
| ViewerPolicy.OverflowDropsTheExpendable | relay/relay/proxy.py:426-432 | An arrival at a full buffer that replaces nothing costs exactly one event, the oldest that is neither preview nor sequence, or the oldest of all when every one is; it is queued last and a gap frame is owed |
| ViewerPolicy.ExpendableIsOne | relay/relay/proxy.py:405-411 | There is never more than one event that the policy allows to go |
| ViewerPolicy.CoalescingDropsNothing | relay/relay/proxy.py:426-428 | A preview or sequence with one of its type queued takes the newest such slot; nothing moves, is dropped or owed |
| ViewerPolicy.RoomForAll | relay/relay/proxy.py:418-422 | Below the bound an arrival of any type is queued last at no cost |
| ViewerPolicy.DisconnectsIff | relay/relay/proxy.py:459-466 | A browser is disconnected after a delivery exactly when the buffer is at its bound and has overflowed without being drained since |
| ViewerPolicy.WithoutOverflowAllComeInOrder | relay/relay/proxy.py:399-470 | Until the buffer overflows, delivered, in flight and queued together are all arrivals in order |
| ViewerPolicy.QueueIsDelivered | relay/relay/proxy.py:434-467 | A browser whose sends return gets the whole queue in order behind the gap frame it is owed, in two pieces of the pump for each event and one for the frame |
| ViewerPolicy.NoneAbandonedWhileRunning | relay/relay/proxy.py:434-470 | No event is abandoned while the viewer's pump runs |
| Viewer.EgressBuffer.ReplaceNewest | relay/relay/proxy.py:139-147 | The newest queued event of the type, if there is one, gives up its slot and no other moves |
| Viewer.EgressBuffer.DropOldest | relay/relay/proxy.py:149-156 | The oldest event outside the kept types goes, and the others keep their order |
| Viewer.EgressBuffer.PopLeft | relay/relay/proxy.py:158-162 | The oldest event leaves |
| Viewer.WsViewer.Enqueue | relay/relay/proxy.py:399-432 | An arrival in the model's sense, with the overflow policy |
| Viewer.WsViewer.TakeNext | relay/relay/proxy.py:434-447 | The pump takes the oldest event and sends an owed gap frame first |
| Viewer.WsViewer.GapSendReturned | relay/relay/proxy.py:444-458 | After the gap frame the event itself is sent; a failed send closes the viewer |
| Viewer.WsViewer.EventSendReturned | relay/relay/proxy.py:448-467 | A sent event is delivered; a viewer that overflowed and is full again is disconnected |
| Viewer.WsViewer.BrowserCloseReturned | relay/relay/proxy.py:459-464 | After the disconnect the viewer leaves the tables, unless that close itself raised |
| FanOut.ViewersDoNotInterfere | relay/relay/proxy.py:369-467 | A viewer ends any run exactly as it ends the run of its own frames and pump pieces alone |
| FanOut.EveryViewerIsARun | relay/relay/proxy.py:272-295 | Each viewer of a multiplexer has made exactly its own share of the steps since it opened, so everything proved of one viewer's runs holds of it |
| FanOut.IdsAreNeverReused | relay/relay/registry.py:76-85 | Stream ids and ws ids of a registration strictly increase from 1 |
| FanOut.TunnelMultiplexer.OpenWs | relay/relay/proxy.py:272-295 | A new viewer under the next ids, with every other viewer untouched |
| FanOut.TunnelMultiplexer.OnWsData | relay/relay/proxy.py:369-385 | A frame reaches the viewer it names and no other; one for a viewer that is gone changes nothing |
| FanOut.TunnelMultiplexer.CloseWs | relay/relay/proxy.py:297-310 | The viewer leaves the tables with its pump stopped, and the others are untouched |
| FanOut.TunnelMultiplexer.ResumePump | relay/relay/proxy.py:434-470 | One piece of one viewer's pump, and nothing of any other viewer |
| HttpExchange.CallbacksComeInOrder | relay/relay/proxy.py:334-367 | For every stream of every run: at most one head, data only after it, and no callback starts after eof, abort, failed open or shutdown |
| HttpExchange.LiveAndAbortedAreDisjoint | relay/relay/proxy.py:210-268 | Exchanges and request routes always have the same ids, no id is both live and remembered as aborted, and at most 1024 are remembered |
| HttpExchange.LateReplyIff | relay/relay/proxy.py:334-367 | A reply to a stream that is not live is discarded if its id is among the last 1024 put in memory, and otherwise ends the reader |
| HttpExchange.LateReplyDiscardedIff | relay/relay/proxy.py:241-269 | Where no id is aborted twice, as in the relay, a late reply to an aborted id is discarded if fewer than 1024 aborts came after its own, and otherwise ends the reader |
| HttpExchange.RememberedLongEnough | relay/relay/proxy.py:241-263 | A remembered id survives any continuation that leaves fewer than 1024 aborts after it |
| HttpExchange.AbortingAgainDoesNotRefresh | relay/relay/proxy.py:245-263 | Of the method alone, whose caller never does so: an id aborted twice keeps its first place in memory and can be forgotten after one further abort |
| HttpExchange.PhaseMeans | relay/relay/proxy.py:72-84 | The phase automaton read off a trace rejects exactly the disorders it is meant to: what it accepts has one head, data after it and nothing after the end |
| HttpExchange.RunKeepsInv | relay/relay/proxy.py:210-367 | Tables, memory and the phase of every stream agree after every sequence of events |
| HttpProgress.ReplyIsPassedOn | relay/relay/proxy.py:334-367 | In every reachable state the reply to an open exchange without a head, if in order, is passed on whole however long it is; then the exchange is gone from both tables and nothing else has changed |
| HttpProgress.LiveBetweenFramesIff | relay/relay/proxy.py:210-268 | Between frames an exchange is in the tables exactly when its id was given to a request and no eof, abort, failed open or shutdown has come |
| HttpProgress.HeadIsPassedOnOnce | relay/relay/proxy.py:334-349 | The head for such an exchange is passed on if none was before, and otherwise ends the reader and is not |
| HttpProgress.DataIsPassedOnAfterHead | relay/relay/proxy.py:351-364 | Data for it is passed on if its head was, and otherwise ends the reader and is not |
| HttpProgress.DeadHearsNothing | relay/relay/proxy.py:314-332 | After a frame out of order, or a callback that raised, no callback starts any more |
| HttpMux.HttpMultiplexer.OpenRequest | relay/relay/proxy.py:210-223 | A fresh stream id with a fresh exchange in both tables |
| HttpMux.HttpMultiplexer.OpenSendReturned | relay/relay/proxy.py:224-233 | A failed send takes the exchange back out of both tables |
| HttpMux.HttpMultiplexer.AbortRequest | relay/relay/proxy.py:245-263 | The exchange goes and its id is remembered, the oldest ids making room |
| HttpMux.HttpMultiplexer.OnRespHead | relay/relay/proxy.py:334-349 | The callback starts for a live stream without a head; a duplicate head, an orphan and a late reply are told apart |
| HttpMux.HttpMultiplexer.OnRespData | relay/relay/proxy.py:351-364 | The callback starts for a live stream with a head; data before a head, an orphan and a late reply are told apart |
| HttpMux.HttpMultiplexer.DataCallbackReturned | relay/relay/proxy.py:364-367 | Only after the eof callback has returned does the exchange leave the tables |
| HttpMux.HttpMultiplexer.Shutdown | relay/relay/proxy.py:487-495 | No exchange and no route is left |
| Registry.RollbackUndoesRegister | relay/relay/registry.py:247-298 | Registering and rolling back restores the home table, the tunnels and all earlier registrations |
| Registry.HomeRegistry.Register | relay/relay/registry.py:247-271 | Refused without effect unless newer than the entry it would replace; otherwise the entry with the former one behind it |
| Registry.HomeRegistry.Commit | relay/relay/registry.py:273-287 | Only the current entry commits; the tunnel directly behind it is fenced then and no other |
| Registry.HomeRegistry.Rollback | relay/relay/registry.py:289-301 | Only the current entry is rolled back, to the one behind it or to none |
| Registry.HomeRegistry.Unregister | relay/relay/registry.py:307-315 | The entry goes exactly when it is still this tunnel's |
| Registry.HomeRegistry.EvictHome | relay/relay/registry.py:146-162 | The entry goes and its tunnel is fenced |
| Registry.Accept | relay/relay/server.py:451-455 | A home that dials in gets an open tunnel of its own and a connection that is not registered |
| Registry.ScopeConnection.HandleHello | relay/relay/connection.py:53-78 | Accepted exactly for a hello frame of the right version with a known token and a newer generation; a refusal changes nothing |
| Registry.ScopeConnection.CommitRegistration | relay/relay/connection.py:79-86 | Committed exactly when its registration is still the entry |
| Registry.ScopeConnection.Close | relay/relay/connection.py:143-153 | The tunnel is shut, and the registration withdrawn if committed or rolled back if not |
| Fencing.FencedIffGuarded | relay/relay/registry.py:273-287 | A run has, at every moment, each home's live connection at the end of its entry's chain, if and only if no commit skips a live connection and no eviction leaves one behind |
| Fencing.StepFencesIff | relay/relay/registry.py:146-162 | The same for one step; hellos and closes never break the fence |
| Fencing.OrderlyRunsHaveOneLive | relay/relay/registry.py:247-287 | If no hello or eviction falls into another handshake of the home, at most one connection per home is live at any time |
| Fencing.OverlapLeavesTwoLive | relay/relay/registry.py:273-287 | Of the registry alone, without the server's lock: three connections whose handshakes overlap leave the first and the third live for one home |
| OneLivePerHome.OneLiveIffClashFree | relay/relay/registry.py:273-287 | A run has at most one live connection per home at every moment if and only if no open connection commits beside a live one of its home that is not directly behind it |
| HandshakeLock.LockedIsFencedIff | relay/relay/server.py:456-488 | With the lock around each hello and its commit or close, a run is fenced throughout if and only if no eviction meets a handshake of its home that has a live connection behind it |
| HandshakeLock.EvictionBreaksTheFence | relay/relay/registry.py:146-162 | A run that respects the lock and in which such an eviction leaves a connection live with no entry leading to it |
| HandshakeLock.OverlapIsNotLocked | relay/relay/server.py:456-488 | The overlapping handshakes do not respect the lock |
| Fencing.CommittedGenerationsGrow | relay/relay/registry.py:247-287 | In every run, overlapping or not, each commit for a home that stayed in the table has a greater generation than the commit before |
| Fencing.CloseTouchesOwnEntry | relay/relay/connection.py:143-153 | In every reachable state the closing connection's own entry goes back to the one behind it or is withdrawn, and every other entry stays, so a fenced one never removes the winner |
| Fencing.CloseShutsOwnTunnel | relay/relay/connection.py:143-153 | It shuts its own tunnel and no other |
| Fencing.FencedIsOneLive | relay/relay/registry.py:47-50 | The fence implies at most one live connection per home |
| Fencing.NextIsSane | relay/relay/connection.py:53-153 | Every step keeps each connection's registration its own and a committed one without a pending predecessor |
| Handshakes.HandshakeTakesOver | relay/relay/registry.py:247-287 | At any moment of any run, a newer home that completes its handshake is live and the entry with its own generation, the connection that was the entry is fenced, every other is as live as before, and other homes are untouched |
| Handshakes.HelloFencesNobody | relay/relay/registry.py:247-271 | Until its acknowledgement has arrived it is the entry but not live, and whoever was live still is |
| Handshakes.AbandonedHandshakeIsUndone | relay/relay/connection.py:143-153 | A handshake that is refused or abandoned leaves every home's entry and everyone's liveness as they were |
| Handshakes.StaleHelloIsRefused | relay/relay/registry.py:247-271 | A hello that is not newer changes nothing |
| Handshakes.ClosingFreesHome | relay/relay/connection.py:143-153 | When the live entry of a home closes, any generation is accepted next, and other homes are untouched |
| FrameCodec.RoundTrip | relay/relay/protocol.py:150-220 | Decoding an encoded frame gives it back with its type reduced to a byte, hence unchanged exactly for types 0 to 255 |
| FrameCodec.EncodeIsInjective | relay/relay/protocol.py:150-170 | Frames with the same encoding differ at most in their type beyond its byte |
| FrameCodec.WireSizeIsBounded | relay/relay/protocol.py:55-62 | Encoding succeeds exactly within the limits, and nothing larger than the wire limit is produced or accepted |
| FrameCodec.ReencodingIsFaithfulIff | relay/relay/protocol.py:187-220 | An accepted buffer is reproduced by encoding its frame exactly when its header is in printed form |
| FrameCodec.FieldsOfEncoded | relay/relay/protocol.py:40-54 | Type, stream id, header and payload are where the decoder looks |
| FrameCodec.UnpackedPacked | relay/relay/protocol.py:40-54 | Big-endian packing is undone by unpacking, at any width that holds the number |
| FrameCodec.PackedUnpacked | relay/relay/protocol.py:40-54 | And unpacking by packing |
| FrameCodec.DecodeOfWire | relay/relay/protocol.py:187-220 | The decoder's answer to every buffer with a whole prefix, told from the fields it was put together from: each refusal, the order in which they are tried, and the frame |
| FrameCodec.EveryBufferIsWire | relay/relay/protocol.py:187-220 | Every such buffer is put together in that way |
| FrameCodec.MostSignificantFirst | relay/relay/protocol.py:40-54 | The first byte of a number is the most significant |
| RateLimit.RateIsBoundedIff | relay/relay/ratelimit.py:42-67 | In every stretch of every run with a monotone clock, prunes included, a client is granted at most capacity plus rate times the stretch, if and only if the idle limit refills a bucket |
| RateLimit.RateIsBounded | relay/relay/ratelimit.py:42-57 | The bound holds in a stretch of a run if that stretch has no prunes, or if the idle limit refills a bucket |
| RateLimit.GrantedIsPaidFor | relay/relay/ratelimit.py:42-57 | Under the same condition, what is granted from a moment on is covered by the level then and the refill since |
| RateLimit.PruningIsUnobservableIff | relay/relay/ratelimit.py:59-67 | Prunes anywhere in a run leave all decisions as they were if and only if the idle limit refills a bucket |
| RateLimit.PruningIsObservable | relay/relay/ratelimit.py:59-67 | With a shorter idle limit some run is decided differently |
| RateLimit.SameLevelsSameDecisions | relay/relay/ratelimit.py:42-67 | When the idle limit refills a bucket, tables in which every client has the same level decide alike for ever, prunes aside |
| RateLimit.CallCosts | relay/relay/ratelimit.py:42-57 | A refused call costs its client nothing at any later time, an allowed one exactly its cost, and no other client notices either |
| RateLimit.WaitingIsEnough | relay/relay/ratelimit.py:42-67 | A refused client whose call fits the capacity is served as soon as it has waited for the refill of what it lacked, whatever others do and whatever is pruned |
| RateLimit.RateLimiter.Allow | relay/relay/ratelimit.py:42-57 | Allowed exactly when the refilled level covers the cost, which is then spent |
| RateLimit.RateLimiter.Prune | relay/relay/ratelimit.py:59-67 | Exactly the buckets idle beyond the limit go, and their number is returned |
| Layout.SafeVersions | supervisor/protocol.py:45-49 | The accepted versions are the plain ones without two dots in a row, and those with one newline behind |
| Layout.SafeVersionsStayInside | supervisor/protocol.py:43-49 | An accepted version has no separator or drive and is neither the directory nor its parent |
| Layout.PointerRoundTrip | supervisor/protocol.py:131-161 | A version comes back from its pointer exactly when it is non-empty, trimmed and does not begin with a byte-order mark |
| Layout.SafeVersionRoundTrip | supervisor/protocol.py:151-161 | For an accepted version that is exactly when it does not end in a newline |
| Layout.BomIsIgnored | supervisor/protocol.py:131-149 | A byte-order mark in front of a trimmed version is not part of it |
| Supervisor.DiskMirrorsMemory | supervisor/supervisor.py:124-179 | At every turn of every run, errors included, `current` and `last-good` hold what was written for, or read as, the version to launch and the version to fall back to |
| Supervisor.PointersReadBack | supervisor/supervisor.py:124-199 | If the starting versions are trimmed and unmarked and no accepted request ends in a newline, both pointers read back as those versions at every turn, errors included |
| Supervisor.ProbedVersionIsOnDiskIff | supervisor/supervisor.py:187-199 | During a probe `current` reads as the version launched exactly when that has no newline at its end |
| Supervisor.RestartResumes | supervisor/supervisor.py:64-71 | A supervisor started on the disk of one that died between turns launches the same version with the same fallback, without a probe |
| Supervisor.AwaitHealth | supervisor/supervisor.py:72-82 | True exactly when some poll before the deadline finds the server healthy and it had not exited by then |
| SupervisorHistory.OnlyTrustedVersionsRunUnprobed | supervisor/supervisor.py:124-199 | In every run, errors included, a version launched without a probe was there at the start or has passed a probe, and the fallback is the version committed last |
| SupervisorHistory.EveryFailureFallsBack | supervisor/supervisor.py:164-179 | A failed probe is followed by its report, the attempt to restore the snapshot found, and the unprobed launch of the version committed last, in every run without an error on that way |
| SupervisorHistory.EachVersionFailsOnce | supervisor/supervisor.py:164-199 | In those runs no version fails two probes, and there are at most as many rollbacks as versions ever staged |
| SupervisorHistory.AVersionCanFailTwice | supervisor/supervisor.py:164-179 | From an ordinary start, a run with one error while marking the failed version in which that version fails two probes |
| SupervisorHistory.ErrorRepeatsTheProbe | supervisor/supervisor.py:164-179 | After an error anywhere on the way back from a failed probe, the next failing probe is of the same version |
| SupervisorHistory.EveryRequestIsAnsweredOnce | supervisor/supervisor.py:152-219 | The reports name the requested versions one for one and in order, each before the next request is taken up; only the version under probe is still open |
| SupervisorHistory.BalancedThroughoutIff | supervisor/supervisor.py:152-219 | A whole run keeps requests and reports matched at every turn if and only if in no turn an error comes between a request and its report |
| SupervisorHistory.BalancedIff | supervisor/supervisor.py:152-219 | The same of one turn |
| SupervisorReports.ReportsCanBeTrusted | supervisor/supervisor.py:152-219 | In every run, errors included, each report is about the last request, names the version that was running when it was made, and is positive exactly right after that version's commit; the result file holds the last report; a probe is given its own request's time |
| SupervisorReports.BackoffDoubles | supervisor/supervisor.py:221-234 | A version that cannot be launched or crashes soon is launched again each time, with a wait that doubles up to the cap |
| SupervisorReports.BackoffIsBounded | supervisor/supervisor.py:221-234 | Every wait lies between the smaller and the larger of one second and the cap |
| SupervisorTurns.ProbeLastsAsRequested | supervisor/supervisor.py:72-82 | In every run, a probe without an error commits its version exactly when some poll is healthy and every poll up to it came before the start plus the window and found the server running; the window is the last request's own time when given and not zero, else the configured one |
| SupervisorTurns.RequestOutcome | supervisor/supervisor.py:187-219 | A request is probed next exactly when its version is safe, has not failed and is staged; otherwise the same version runs on and the report gives the first of those faults |
| SupervisorTurns.StartResolves | supervisor/supervisor.py:124-129 | Target and fallback at the start, in terms of both pointers and the initial version, and what is written of them |
| SupervisorTurns.StopsOnCleanExit | supervisor/supervisor.py:181-185 | An unprobed server's exit stops the supervisor exactly when it is clean |
| SupervisorTurns.OnlyCleanExitsStop | supervisor/supervisor.py:181-185 | Nothing else ever stops it, errors included |
| SupervisorTurns.StableRunForgivesCrashes | supervisor/supervisor.py:221-230 | A crash after a run longer than the cap waits like the first; after a shorter one the wait doubles |
| SupervisorTurns.SnapshotIsUsedUp | supervisor/supervisor.py:99-121 | After a rollback or a refused request no dependency snapshot is left, unless it could not be read or removed |
| SupervisorLoop.Watchdog.RunForever | supervisor/supervisor.py:124-234 | The loop ends in the state, and with the answer, that the model's run over the same environment gives |
| SupervisorLoop.Watchdog.Begin | supervisor/supervisor.py:124-129 | The starting version and fallback, written to disk where they were missing; nothing to start without either |
| SupervisorLoop.Watchdog.ApplyNow | supervisor/supervisor.py:187-219 | The pending request is taken once and then probed, or refused with the reason of the first check it fails, or lost when looking it up raises |
| SupervisorLoop.Watchdog.CommitNow | supervisor/supervisor.py:152-162 | A healthy version becomes last-good before the server is told |
| SupervisorLoop.Watchdog.RollBackNow | supervisor/supervisor.py:164-179 | Marked failed, reported, dependencies restored, and only then back to last-good |
| SupervisorLoop.Watchdog.RestoreVenv | supervisor/supervisor.py:99-121 | The snapshot found is tried; it is gone afterwards even if that raised, but stays when it could not be read or removed |
| Glob.CompilerPreservesMeaning | deploy/reverse-proxy/check_build_contexts.py:60-75 | The expression built for an accepted pattern matches a joined path in full if and only if the pattern matches the path segment by segment |
| Glob.PathPattern | deploy/reverse-proxy/check_build_contexts.py:60-75 | Exactly the supported patterns are compiled, and the two kinds of refusal are told apart |
| Glob.AcceptedIsCompilable | deploy/reverse-proxy/check_build_contexts.py:60-75 | What `path_pattern` accepts is within the theorem about meaning |
| Glob.HitsBySegments | deploy/reverse-proxy/check_build_contexts.py:78-92 | A rule hits a path exactly when its pattern means one of the path's leading runs of segments |
| Glob.DescendantsStayIgnored | deploy/reverse-proxy/check_build_contexts.py:78-92 | What lies under an ignored directory is ignored unless a later `!` rule hits it below that directory |
| Glob.LastRuleDecides | deploy/reverse-proxy/check_build_contexts.py:78-92 | Adding a rule changes the answer only for the paths it hits, and then to the rule's own sense |
| Glob.SkippedRule | deploy/reverse-proxy/check_build_contexts.py:78-92 | A rule that hits neither the path nor an ancestor leaves the answer as it was |
| Glob.Ignored | deploy/reverse-proxy/check_build_contexts.py:78-92 | The answer of the last rule that hits the path or an ancestor, unless some rule is not supported |
| IgnoreRules.CommentsChangeNothing | deploy/reverse-proxy/check_build_contexts.py:84-86 | A line that is blank, begins with `#` or is `.`, anywhere in the file and with any white space around it, changes no answer and is no error |
| IgnoreRules.PlainRuleIgnores | deploy/reverse-proxy/check_build_contexts.py:84-92 | Any other line without `!`, with any white space and slashes around its pattern, adds to what is ignored exactly the paths of which some leading run matches the pattern segment by segment |
| IgnoreRules.NegatedRuleSpares | deploy/reverse-proxy/check_build_contexts.py:87-92 | A line with `!` takes exactly those away |
| IgnoreRules.NoRules | deploy/reverse-proxy/check_build_contexts.py:82-92 | Without rules nothing is ignored |
| IgnoreRules.AcceptedSegmentwise | deploy/reverse-proxy/check_build_contexts.py:60-75 | A pattern is supported exactly when each part is: a proper name without backslash and brackets, with `**` only as the whole part |
| IgnoreRules.RefusedForItsParts | deploy/reverse-proxy/check_build_contexts.py:84-90 | A line is an error exactly when some part of its pattern is not supported |
| Png.UndoFiltering | scripts/flows_visual_check.py:126-155 | Reconstruction of any image filtered with any choice of filters per row returns the image |
| Png.Reconstruct | scripts/flows_visual_check.py:126-155 | When every filter byte is good the loop returns the picture whose filtered form the data is; otherwise it names the first bad row and its byte |
| Png.PictureIsUnique | scripts/flows_visual_check.py:126-155 | Filtered rows are the filtered form of one picture only |
| Png.UnfilterRow | scripts/flows_visual_check.py:132-151 | Filtering the reconstructed row again gives the row that was there |
| Png.FilteringIsInjective | scripts/flows_visual_check.py:126-155 | The filtered bytes determine filters and image |
| Png.PaethIsNearest | scripts/flows_visual_check.py:89-94 | The predictor is the neighbour nearest to left plus up minus upper left, ties going to left and then up |
| Png.EncodedByteIs | scripts/flows_visual_check.py:126-151 | Every byte of the filtered form, in numbers and for all five filter types of section 9.2 of the PNG specification: the filter byte of each row, and each pixel byte less what the type predicts from its neighbours, modulo 256 |

## Left out

- BrokerMachine.HotspotNeverOutlivesWindow: starting a watcher thread is taken to succeed, and a teardown that raises is the exception the statement names.
- Png.Reconstruct: the decompressed data is taken to be as long as the header promises; chunks, zlib and shorter data are not modelled.
- Glob.PathPattern: expressions are syntax trees, so the escaping into text and the parsing by `re` are not modelled, and a path is given by its parts.
- Registry.ScopeConnection.HandleHello: the token table is an answer of the environment; provisioning, revocation and rotation of tokens appear only as the eviction they cause. A generation that is not a number is not modelled.
- RateLimit.RateIsBounded: tokens and time are real numbers, so floating-point rounding is not modelled.
- FrameCodec.RoundTrip: JSON is a printer and a parser that lose nothing.
- HttpMux.HttpMultiplexer.OnRespHead: status, headers and payload bytes are passed on unread and so not part of the state; request bodies are forwarded without state.
- SupervisorReports.BackoffIsBounded: a negative cap, with which the loop would ask to sleep for less than no time.
- Fencing.OverlapLeavesTwoLive: the server's own table of connections, and its closing of the one that a commit replaces, are not modelled.
- SupervisorLoop.Watchdog.RunForever: a run is finite, as with `max_iterations`, and one call a turn can raise (errors the supervisor swallows aside); a probe window that is not a number, newline translation in text files and log lines are not modelled. The server is taken to leave `current`, `last-good` and the failed markers alone.
- Identity of relay objects is modelled as their place in a list that only grows; tunnels, registrations and viewers are never reclaimed.
- The type of a `/ws` event is given with the event; parsing it out of the payload is not modelled.
- `FanOut` has no shutdown of the whole multiplexer; `HttpExchange` has one for the HTTP side.
- File permissions, atomic replacement, fsync, process control, sockets, TLS, OIDC and cryptography are outside the models.
- Header rewriting in the relay (`relay/relay/headers.py`) is per-call string work without state.
- The sequence engine, the flows compiler, the gallery index, sync and release scripts are not modelled.
