# linux-lab in Dafny

A model of the parts of linux-lab that decide something, and proofs about them.

**The station tracker of wlinkd** is the main part. A heap-allocated linked list holds the connected stations. Two
sources change it: NEW_STATION / DEL_STATION events and a periodic refresh, which reads an interface dump and a station
dump, adds and updates what the dump names, and then removes what its first 64 entries do not name. Every change is
reported on an IPC channel that drives an LED and on a TCP channel that names the station.

- `StationLists.dfy` is the list as a value and as a finite map; `StationManager.dfy` is the pointer list, with `free`
  made explicit, refined to that value.
- `Libnl.dfy` is one netlink exchange; `Tracker.dfy` gives each handler's effect as a function of the state and of
  what the kernel, `malloc` and the clock answer; `TrackerDaemon.dfy` is the handlers as wlinkd runs them, on the
  pointer list, proved equal to those functions.
- `TrackerRuns.dfy` proves what every run keeps between the list and the two logs; `TrackerEffects.dfy` and
  `TrackerRefresh.dfy` prove exactly what each kernel event, each dump message and a refresh does, and when it may
  remove a station; `MacKeys.dfy` proves that keys made of text are as good as
  addresses.
- `Led.dfy` is the subscriber thread and the driver's pins; `Subscribers.dfy` runs the tracker together with the push
  server of `Ipc.dfy` and says what the pins of a subscriber show. `Watchers.dfy` does the same for the TCP channel and
  the broadcast of `Monitor.dfy`: what a monitoring client can know about the stations.

**The other parts**: `Monitor.dfy` is the TCP monitor broadcast, interleaved statement by statement; `Ipc.dfy` the push
subscribers and the ownership of their descriptors; `Status.dfy` the bounded status printer, `StatusReader.dfy` its
text read back, and `AccessPoint.dfy` the record of the interface it prints; `Bmp280.dfy` the
fixed-point temperature compensation and its printing; `Pio.dfy` the chunked SPI read; `SplitLine.dfy` the tokenizer;
`Wps.dfy` the button flag; `Bssids.dfy` and `Text.dfy` the text forms they share.

Conventions. Strings stand for C strings, so they hold no NUL. A packet total is the sum of two 32-bit counters in an
`unsigned long` of 64 bits. A right shift of a negative int rounds down, and a 32-bit int that overflows wraps
around. The answers of `malloc`, `time`, `send`, `accept` and of the netlink socket are parameters. The
valid-message callbacks of a dump never touch the receive loop's `err`, so the model applies them in order once the
loop has delivered their messages. The request socket is unicast (wlinkd/src/wlan_libnl.c:56), so the replies to the
interface request carry no station events; the results that need this say so (`InterfaceOnly`). An interface name is
one of Linux, at most 15 characters without white space.

Where code and documentation differ the model follows the code: wlinkd/README.md:152 says `sta_leave` is pushed when
the last station leaves, but a DEL_STATION also pushes it when no station was listed (`LeavePushedExactlyWhen`,
failing in `LeavePushedOnEmptyList`). More expectations are false as stated; each comes with its exact condition and a
lemma at an input where it fails:

- the pins of a subscriber show whether a station is listed exactly when something was pushed since it registered or
  they happened to be right (`PinsShowStationsExactlyWhen`; `LateSubscriberStaysDark` is the start-up case, where the
  first refresh runs before anyone can subscribe);
- when messages are received together, the pins of a subscriber show whether a station is listed exactly when the
  first and the last message of the final chunk agree (`PinsShowLogExactlyWhen`, `SessionShowsStationsExactlyWhen`,
  `CoalescedPinsWrong`); and messages that arrive together with the reply to the subscription are swallowed, so with no
  later chunk the pins are right exactly when they were before (`ReplySwallowsJoin`);
- a temperature prints correctly exactly when it is not negative or a whole degree (`PrintedExactlyWhen`,
  `FrostPrintedWrong`);
- the monitor's sequence test misses unread events exactly when their number is a multiple of 2^64
  (`TestSeesNothingExactlyWhen`, `TestCanMiss`).

## Model

| member | source | states |
|---|---|---|
| `TrackerRuns.RunKeeps` | wlinkd/src/wlan_nl80211.c:98-313 | over every run of events and refreshes, complete, failed, interrupted or non-AP: the IPC log says lit exactly when the list is non-empty; keys are unique; a station is listed exactly when the last TCP event naming it is its join, and joins only when it is not; its traffic reports since its last leave equal the strict rises of its stored totals |
| `TrackerRuns.NetdevKeeps` | wlinkd/src/wlan_nl80211.c:95-144 | one interface or station message keeps all of that, whatever it carries |
| `TrackerRuns.StaKeeps` | wlinkd/src/wlan_nl80211.c:239-274 | one dump message keeps all of that, also when memory runs out |
| `TrackerRuns.RemoveStaKeeps` | wlinkd/src/wlan_nl80211.c:277-313 | removal during the traversal keeps all of that for any keep-list, and re-establishes the LED claim that single removals break |
| `TrackerRuns.RefreshKeeps` | wlinkd/src/wlan_nl80211.c:421-469 | a whole refresh keeps all of that on each of its exits |
| `TrackerRuns.JoinsAlternateOverRuns` | wlinkd/src/wlan_nl80211.c:99-115 | over every run, any two joins of a station in the TCP log have a leave of it between them |
| `TrackerRuns.ReplayGivesStations` | wlinkd/src/wlan_sta_mgr.c:158-172 | over every run, a client that adds on join and removes on leave ends up with exactly the listed stations |
| `TrackerRuns.ArrivalStartsAtZero` | wlinkd/src/wlan_nl80211.c:99-105 | a station a kernel event adds has the totals [0] and no traffic report |
| `TrackerRuns.DumpedStartsAtTotal` | wlinkd/src/wlan_nl80211.c:239-265 | a station a dump message adds has that message's total as its only one and no traffic report |
| `TrackerRuns.EveryJoinLeft` | wlinkd/src/wlan_sta_mgr.c:158-172 | in any TCP log, a station whose last event is not a join has left after each of its joins |
| `TrackerEffects.ArrivalLists` | wlinkd/src/wlan_nl80211.c:99-105 | for every list, NEW_STATION adds exactly its station as a map entry with zero signal and packets and pushes `sta_join` on both channels, unless it is listed or memory runs out, and then changes nothing |
| `TrackerEffects.DepartureUnlists` | wlinkd/src/wlan_nl80211.c:106-116 | for every list, DEL_STATION removes exactly its station from the map, pushes its leave on TCP, and `sta_leave` on IPC if and only if nobody is left |
| `TrackerEffects.ForeignChangesNothing` | wlinkd/src/wlan_nl80211.c:87-97 | a message of another interface, or a station event without an address, changes nothing |
| `TrackerEffects.ReportSetsMode` | wlinkd/src/wlan_nl80211.c:131-144 | an interface report changes the mode and nothing else: set for AP and P2P GO, cleared for any other type, kept without one |
| `TrackerEffects.DumpMessageStores` | wlinkd/src/wlan_nl80211.c:203-257 | for every list, a dump message leaves in its station's record the signal byte as a signed number and the sum of both packet counters, absent ones counting 0, adding the record if need be |
| `TrackerEffects.DumpMessageReports` | wlinkd/src/wlan_nl80211.c:258-273 | it pushes a join for a station it adds, and `traffic` for a listed one if and only if the sum of its counters exceeds the stored total |
| `TrackerEffects.RefreshListsExactly` | wlinkd/src/wlan_nl80211.c:421-469 | after any run, exactly who is listed after a refresh and in which mode, on each of its exits: a station dump that is not confirmed still adds the stations it named |
| `TrackerEffects.KeepsFirst64` | wlinkd/src/wlan_nl80211.c:186-190 | the names kept are the first 64 of the dump |
| `TrackerRefresh.CompleteRefresh` | wlinkd/src/wlan_nl80211.c:421-469 | after any run, a refresh that completes in AP mode leaves exactly those of the first min(64, n) dumped stations that were listed or found memory; without allocation failure exactly those first min(64, n) |
| `TrackerRefresh.CompleteRefreshRecords` | wlinkd/src/wlan_nl80211.c:248-257 | if the interface replies carry no station events, each record then holds the signal and total of the last message naming it, and survivors keep their association time |
| `TrackerRefresh.RemovedExactlyWhen` | wlinkd/src/wlan_nl80211.c:439-468 | if the interface replies carry no station events, a refresh removes a listed station if and only if the interface dump was confirmed and either reported no AP mode, or the station dump was confirmed and its first 64 entries omit the station |
| `TrackerRefresh.FailedDumpOnlyGrows` | wlinkd/src/wlan_nl80211.c:461-464 | if the interface replies carry no station events and report AP mode, a station dump that fails, is interrupted or never ends removes nobody |
| `TrackerRefresh.OverflowingStationFlaps` | wlinkd/src/wlan_nl80211.c:186-190 | a station dumped only beyond the first 64 is reported as joined and then as left by the same refresh |
| `TrackerRefresh.KeptAreFirst` | wlinkd/src/wlan_nl80211.c:186-190 | the keep-list is the first 64 names of the dump, in order, however long the dump is |
| `TrackerRefresh.FoldStaKeys` | wlinkd/src/wlan_nl80211.c:234-257 | a dump adds exactly the named stations for which some message found memory |
| `TrackerRefresh.FoldStaReported` | wlinkd/src/wlan_nl80211.c:255-257 | after a dump a record holds the last report naming it and its old association time; unnamed records are untouched |
| `TrackerRefresh.InterfacesOnlySetMode` | wlinkd/src/wlan_nl80211.c:131-144 | an interface dump without station events changes nothing but the mode, to what the last report of our interface says |
| `TrackerRefresh.SyncLeavesEntries` | wlinkd/src/wlan_sta_mgr.c:95-113 | with memory available, synchronising any list with an array leaves exactly the array's non-empty entries |
| `TrackerRefresh.SyncAgreesWithRefresh` | wlinkd/src/wlan_sta_mgr.c:95-113 | for a dump of at most 64 stations it leaves the same stations as the refresh |
| `TrackerRefresh.LeavePushedExactlyWhen` | wlinkd/src/wlan_nl80211.c:106-116 | after any run, a kernel event pushes `sta_leave` just when the last station goes, if and only if it is not a DEL_STATION on an empty list |
| `TrackerRefresh.RefreshPushesLeaveExactlyWhen` | wlinkd/src/wlan_nl80211.c:293-312 | after any run, a refresh whose interface replies carry no station events pushes `sta_leave` if and only if it reported a leave and left nobody |
| `TrackerRefresh.LeavePushedOnEmptyList` | wlinkd/src/wlan_nl80211.c:112-113 | the input on which the documented rule fails |
| `TrackerDaemon.PollLoop` | wlinkd/src/main.c:177-198 | the daemon on its pointer list, driven by any sequence of handler calls, is in the state the run says, and so meets every run invariant |
| `TrackerDaemon.Daemon.constructor` | wlinkd/src/wlan_core.c:26-33 | starts with no station, no event and no AP mode |
| `TrackerDaemon.Daemon.NetdevInfo` | wlinkd/src/wlan_nl80211.c:75-148 | the interface callback on the pointer list has exactly the effect of `OnNetdev`, events in order |
| `TrackerDaemon.Daemon.StationArrived` | wlinkd/src/wlan_nl80211.c:99-105 | a join is reported only for a station that was really added |
| `TrackerDaemon.Daemon.StationGone` | wlinkd/src/wlan_nl80211.c:106-116 | the leave is reported, the first station so called goes, and an empty list is reported |
| `TrackerDaemon.Daemon.UpdateStation` | wlinkd/src/wlan_nl80211.c:239-274 | add, find, store and report on the pointer list have exactly the effect of `UpdateSta` |
| `TrackerDaemon.Daemon.Report` | wlinkd/src/wlan_nl80211.c:255-271 | the record is stored through the found pointer; join for a new one, traffic only for a rise |
| `TrackerDaemon.Daemon.GetLinkSignal` | wlinkd/src/wlan_nl80211.c:153-236 | one dump message, with the keep-list kept in a 64-entry array that is never overrun |
| `TrackerDaemon.Daemon.SweepMissing` | wlinkd/src/wlan_nl80211.c:298-308 | the saved-next traversal visits every original node once, touches none that is freed, keeps exactly the listed stations in order and reports the others |
| `TrackerDaemon.Daemon.SweepAll` | wlinkd/src/wlan_nl80211.c:284-292 | the same for a mode change, which keeps nobody |
| `TrackerDaemon.Daemon.RemoveStations` | wlinkd/src/wlan_nl80211.c:277-313 | both variants have exactly the effect of `RemoveSta`, including when the empty list is reported |
| `TrackerDaemon.Daemon.ReadInterfaces` | wlinkd/src/wlan_nl80211.c:438-442 | the replies to the interface request are applied in order |
| `TrackerDaemon.Daemon.ReadStations` | wlinkd/src/wlan_nl80211.c:456-464 | the replies to the station request are applied in order, and the array holds the keep-list |
| `TrackerDaemon.Daemon.DumpStations` | wlinkd/src/wlan_nl80211.c:449-468 | removal follows only a successful station dump, with its keep-list |
| `TrackerDaemon.Daemon.RefreshAll` | wlinkd/src/wlan_nl80211.c:421-469 | the refresh on the pointer list has exactly the effect of `Refresh`, on every exit |
| `Libnl.SendAndRecv` | wlinkd/src/wlan_libnl.c:60-113 | the receive loop returns the code and hands over the messages of `Outcome`, for every sequence of buffers |
| `Libnl.HandleBuffer` | wlinkd/src/wlan_libnl.c:27-52 | the callbacks' effect on `err` over one buffer, with NL_STOP abandoning the rest of it |
| `Libnl.SuccessMeansConfirmed` | wlinkd/src/wlan_libnl.c:89-112 | success is returned if and only if the request was sent and the first round with a verdict was a FINISH or ACK that no interrupted dump spoiled |
| `Libnl.ReceiveHandsOver` | wlinkd/src/wlan_libnl.c:89-112 | for every sequence of buffers and every outcome, the messages handed over are those of the rounds read, each up to its first ACK or error: the rounds up to the first that decides, whose code is returned, or all of them while the exchange still waits |
| `Libnl.UnsentFails` | wlinkd/src/wlan_libnl.c:65-88 | a request that could not be sent fails and hands over nothing |
| `Libnl.DumpDeliversAll` | wlinkd/src/wlan_libnl.c:97-108 | a successful dump hands over, in order, every message of the rounds up to the confirming one and none of a later round |
| `StationManager.StaMgr.constructor` | wlinkd/src/wlan_sta_mgr.h:16-19 | the list starts empty, nothing freed |
| `StationManager.StaMgr.Find` | wlinkd/src/wlan_sta_mgr.c:115-125 | the first node with the key, or null |
| `StationManager.StaMgr.Count` | wlinkd/src/wlan_sta_mgr.c:82-93 | the length of the list, which is the size of the map |
| `StationManager.StaMgr.Add` | wlinkd/src/wlan_sta_mgr.c:37-59 | list and return code of `AddTo`; the list stays acyclic and holds no freed node |
| `StationManager.StaMgr.UnlinkNamed` | wlinkd/src/wlan_sta_mgr.c:61-80 | exactly the first node with the key is unlinked and freed |
| `StationManager.StaMgr.Remove` | wlinkd/src/wlan_sta_mgr.c:61-80 | list of `RemoveFrom` and its return code; every node that leaves the list is freed |
| `StationManager.StaMgr.StoreReport` | wlinkd/src/wlan_nl80211.c:255-257 | writing through a found pointer changes that station and no other |
| `StationManager.StaMgr.Prune` | wlinkd/src/wlan_sta_mgr.c:106-112 | removing the current node during the traversal visits every original node once and leaves exactly the listed stations in order |
| `StationManager.StaMgr.SyncFromList` | wlinkd/src/wlan_sta_mgr.c:95-113 | additions in array order, then the removal of what is not in the array |
| `StationManager.StaMgr.Clear` | wlinkd/src/wlan_sta_mgr.c:23-35 | every node is freed, each read before it is freed |
| `StationManager.FindSta` | wlinkd/src/wlan_utils.c:73-91 | finds the key if and only if it is in the array |
| `StationLists.AddRefinesMap` | wlinkd/src/wlan_sta_mgr.c:37-59 | adding is a map insertion at the head of the list, refused exactly for an empty key, a known key or a failed malloc |
| `StationLists.RemoveRefinesMap` | wlinkd/src/wlan_sta_mgr.c:61-80 | removing is map removal, and keys stay unique |
| `StationLists.StoreRefinesMap` | wlinkd/src/wlan_nl80211.c:255-257 | storing a report is a map update of one key |
| `StationLists.RetainConcat` | wlinkd/src/wlan_sta_mgr.c:106-112 | pruning keeps the order of the list |
| `StationLists.FindAfterAdd` | wlinkd/src/wlan_sta_mgr.c:44-55 | an added station can be found again if and only if its key fits the 17 characters strncpy keeps |
| `StationLists.RunRefinesMap` | wlinkd/src/wlan_sta_mgr.c:37-93 | every sequence of additions, reports and removals gives what a dictionary would, of the same size |
| `Bssids.FormatIs` | wlinkd/src/wlan_utils.c:45-54 | each byte in order as two upper-case hexadecimal digits, colons between |
| `Bssids.ParseOfFormat` | wlinkd/src/wlan_utils.c:45-54 | the six bytes can be read back from the text |
| `Bssids.FormatInjective` | wlinkd/src/wlan_utils.c:45-54 | two addresses have the same text only if they are equal |
| `MacKeys.TextKeysAsGood` | wlinkd/src/wlan_sta_mgr.c:37-93 | for every sequence of additions, reports and removals of addresses, the list keyed by their texts holds an address exactly when a dictionary keyed by address does, with the same record, and the two have the same size |
| `MacKeys.RunKeyedByMac` | wlinkd/src/wlan_nl80211.c:95-313 | over every run each key of the list is the text of an address |
| `Led.Driver.Write` | drivers/led_gpio.c:78-128 | the pins after a written command, and for traffic each pin state passed through: right dark, both dark, left lit, both lit; an unknown command changes nothing |
| `Led.WireIs` | wlinkd/src/wlan_sta_mgr.c:158-184 | the three texts pushed |
| `Led.FirstMessageRules` | src/core/worker.c:405-424 | of messages received together only the first reaches the pins |
| `Led.PinsShowLogExactlyWhen` | src/core/worker.c:405-424 | however the messages were coalesced, the pins show what the log says if and only if the first and last message of the final chunk agree |
| `Led.CoalescedPinsWrong` | src/core/worker.c:405-424 | a run, one join and one departure, whose messages received together leave the pins lit with nobody listed |
| `Subscribers.LoopIsRun` | wlinkd/src/main.c:177-198 | however connections come in between, the tracker is where its own handler calls take it |
| `Subscribers.SubscriptionTurn` | wlinkd/src/main.c:185-187 | a subscription made while fewer than 8 are registered is registered, whoever is listed |
| `Subscribers.StaysSubscribed` | wlinkd/src/ipc.c:77-93 | a subscriber stays registered through every handler whose sends to it succeed and through every connection |
| `Subscribers.SubscriberReads` | wlinkd/src/ipc.c:77-93 | over every run of handlers and connections, a registered subscriber was sent exactly the tracker's messages since it registered, in order |
| `Subscribers.PinsShowStationsExactlyWhen` | src/core/worker.c:388-424 | over every such run, the pins of a subscriber that reads one message at a time show whether a station is listed if and only if something was pushed since it registered or they already did; from dark pins, if and only if something was pushed or nobody is listed |
| `Subscribers.LateSubscriberStaysDark` | wlinkd/src/main.c:118-175 | one station listed, then a subscription: its pins stay dark |
| `Subscribers.SessionShowsStationsExactlyWhen` | src/core/worker.c:382-424 | over every run, however many messages came with the reply and however the others were coalesced into whole-message chunks, the pins of a registered subscriber show whether a station is listed if and only if the first and last message of the final chunk agree, or, with no chunk, they already did |
| `Subscribers.RefusedStartsNothing` | src/core/worker.c:382-386 | exactly the replies that begin with `OK` start a session, and a full server's reply does not |
| `Subscribers.ReplySwallowsJoin` | src/core/worker.c:382-386 | a join pushed since the subscription but read together with its reply leaves the pins dark with a station listed |
| `Watchers.WatcherKnowsStations` | wlinkd/src/wlan_sta_mgr.c:158-172 | a monitoring client that skipped nothing has read the tracker's TCP log since it began, up to at most one waiting event; replaying that on the stations listed when it began gives exactly the listed stations, with the waiting event if there is one |
| `Watchers.AttentiveWatcherKnows` | wlinkd/src/tcp_server.c:61-99 | the same for a client that finishes a copy or starts its session between any two broadcasts |
| `Watchers.DecodeOfText` | wlinkd/src/tcp_server.c:193-193 | the broadcast text of an event can be read back, verb and station |
| `Monitor.RunKeeps` | wlinkd/src/tcp_server.c:61-110 | mutual exclusion and the buffer and client invariants hold in every state of every interleaving |
| `Monitor.MonitorSafe` | wlinkd/src/tcp_server.c:61-99 | a client's events come after its command, with strictly rising numbers and untorn text; read, overwritten and waiting add up to all pushed since |
| `Monitor.SentIsRead` | wlinkd/src/tcp_server.c:94-97 | under every interleaving a client was sent exactly one `event:` line per reading, in order, but for the reading in hand |
| `Monitor.SessionBegins` | wlinkd/src/tcp_server.c:61-67 | a session starts after the events pushed so far, with nothing read |
| `Monitor.SessionGoesOnOverRuns` | wlinkd/src/tcp_server.c:71-110 | over any further run, only a failed send or the client's own input ends its session; what it read stays read |
| `Monitor.SessionEnds` | wlinkd/src/tcp_server.c:96-110 | either of these does end it |
| `Monitor.CanCatchUp` | wlinkd/src/tcp_server.c:77-110 | from every state of every run with the lock free, a client with unread events, not a multiple of 2^64, can read the newest by its own steps without ending its session |
| `Monitor.IdleClient` | wlinkd/src/tcp_server.c:78-100 | a sleeper with nothing to read goes back to sleep when woken early and gets to poll its socket when the wait timed out |
| `Monitor.IdleSleeps` | wlinkd/src/tcp_server.c:77-80 | a client with nothing to read goes to sleep instead of polling |
| `Monitor.CanFollow` | wlinkd/src/tcp_server.c:61-110 | for every sequence of pushes there is a run in which one session reads all of them, in order and whole |
| `Monitor.ReadsNewest` | wlinkd/src/tcp_server.c:87-92 | what a client copies is the newest event, whole |
| `Monitor.SleeperHasSeenAll` | wlinkd/src/tcp_server.c:78-85 | no lost wake-up: with the lock free, a sleeper nobody signalled has no unread event, up to a multiple of 2^64 |
| `Monitor.TestSeesNothingExactlyWhen` | wlinkd/src/tcp_server.c:88-92 | the sequence test finds nothing new if and only if the number of unread events is a multiple of 2^64 |
| `Monitor.NothingSkippedExactlyWhen` | wlinkd/src/tcp_server.c:87-92 | a client's numbers are consecutive and at most one event waits if and only if no push overwrote an unread event |
| `Monitor.KeepingUpSkipsNothing` | wlinkd/src/tcp_server.c:187-199 | a client that finishes a copy or starts its session between any two pushes made while it monitors has read the events numbered start + 1, start + 2, ... without a gap, and at most one waits |
| `Monitor.BehindSince` | wlinkd/src/tcp_server.c:87-92 | a client with an unread event has been monitoring since a push after which it has not looked |
| `Monitor.CanBeBehind` | wlinkd/src/tcp_server.c:187-199 | for every sequence of pushes there is a run that leaves a monitoring client behind all of them |
| `Monitor.TestCanMiss` | wlinkd/src/tcp_server.c:88-92 | a run with 2^64 unread events, joins and leaves of one station, that the sequence test does not see |
| `Monitor.PushedWholeExactlyWhen` | wlinkd/src/tcp_server.c:193-193 | an event is pushed uncut if and only if it fits 1022 characters |
| `Ipc.PushServer.Push` | wlinkd/src/ipc.c:77-93 | the two-index compaction sends the message once to each registered descriptor, slot by slot, keeps exactly those whose send succeeded, in order, and closes the others |
| `Ipc.PushServer.Handle` | wlinkd/src/ipc.c:118-168 | an accepted descriptor is registered, when it subscribes and there is room, or closed |
| `Ipc.PushServer.Close` | wlinkd/src/ipc.c:100-116 | every registered descriptor is closed and none stays registered |
| `Ipc.PushServer.constructor` | wlinkd/src/ipc.c:28-30 | nobody is registered at the start |
| `Ipc.SubscribeRegisters` | wlinkd/src/ipc.c:143-153 | a subscription is registered, last, if and only if fewer than 8 are, and is closed otherwise; nobody else is affected |
| `Ipc.OthersAreClosed` | wlinkd/src/ipc.c:132-166 | any other connection is closed and registers nobody |
| `Ipc.PushKeepsReached` | wlinkd/src/ipc.c:77-93 | after a push exactly those registered whose send succeeded are registered, and the others are closed |
| `Ipc.ReachedConcat` | wlinkd/src/ipc.c:81-91 | the compaction keeps the order of the array |
| `Ipc.DescriptorsConserved` | wlinkd/src/ipc.c:77-167 | over every run each accept is matched by one close or one registration, no descriptor is registered twice, at most 8 are, and after a shutdown all are closed |
| `Ipc.SubscribersServed` | wlinkd/src/ipc.c:77-93 | over every run in which accept returns no open descriptor, a subscriber still registered was sent exactly the messages pushed since it registered, each once and in order |
| `Status.BuildStatus` | wlinkd/src/wlan_core.c:73-114 | for every list and buffer size the buffer holds the first min(length, size - 1) characters of the full rendering and a terminator, and nothing beyond size changes |
| `Status.PrintBlocks` | wlinkd/src/wlan_core.c:104-113 | the list walk prints the remaining blocks, cut to fit |
| `Status.Snprintf` | wlinkd/src/wlan_core.c:98-102 | cuts to the room left, terminates, returns the uncut length |
| `Status.CountsMatchBlocks` | wlinkd/src/wlan_core.c:88-114 | for every text in the fields: read back line by line, both count lines give the number of stations, and the block openings number that many plus those inside fields, so equally many if and only if no field holds one |
| `Status.CountsMatchBlocksOverRuns` | wlinkd/src/wlan_core.c:88-114 | whatever the daemon has written about its interface and over every run of the tracker, the block openings number exactly the stations, and the ninth and eleventh line give that number |
| `StatusReader.StatusReadsBack` | wlinkd/src/wlan_core.c:88-114 | whatever was written about the interface and over every run, a reader of the text gets back the record of the interface, the number of stations twice, and the whole list with every signal, packet total and association time |
| `StatusReader.LinesOfStatus` | wlinkd/src/wlan_core.c:88-114 | its lines are those of the interface, the two of the station part and five per station, in list order |
| `StatusReader.BlockLinesAre` | wlinkd/src/wlan_core.c:105-108 | the five lines of a station, key by key |
| `StatusReader.ApLinesAre` | wlinkd/src/wlan_core.c:88-94 | the nine lines of the interface, key by key |
| `AccessPoint.ResetLeaves` | wlinkd/src/wlan_nl80211.c:408-418 | a reset leaves the name, perhaps the address, and nothing else |
| `AccessPoint.ReportLeaves` | wlinkd/src/wlan_nl80211.c:118-146 | a report stores what it carries, the mode by its three names, and keeps the rest |
| `AccessPoint.LinkLeaves` | wlinkd/src/wlan_nl80211.c:211-231 | a station's report changes the signal, and the rate if it carries one |
| `AccessPoint.ChannelBelow3` | wlinkd/src/wlan_utils.c:63-66 | frequencies 2412 to 2472 in steps of 5 are channels 1 to 13, and 2484 is 14 |
| `AccessPoint.ChannelAbove5` | wlinkd/src/wlan_utils.c:67-68 | frequencies from 5000 on in steps of 5 are channels 0 to 179 |
| `AccessPoint.NoChannel` | wlinkd/src/wlan_utils.c:69-70 | any other frequency is shown in MHz |
| `AccessPoint.InfoProduced` | wlinkd/src/wlan_nl80211.c:118-146 | after any sequence of resets, interface reports and station reports the record holds one of the three modes, a channel and an address as formatted or `N/A`, and an interface name |
| `AccessPoint.ProducedOneLine` | wlinkd/src/wlan_utils.c:57-71 | none of these texts holds a newline |
| `AccessPoint.ModeTextAgrees` | wlinkd/src/wlan_nl80211.c:131-144 | the mode text is `AP` exactly when the mode flag is set |
| `AccessPoint.TextsFit` | wlinkd/src/wlan_utils.c:57-71 | every channel and address text fits its buffer uncut |
| `Bmp280.InRangeIsExact` | drivers/sensor_spi.c:158-164 | for T3 in -8191..8191 and an offset within 65535 no 32-bit operation overflows, the driver computes the exact floor formula, and the result lies in -23039..23039 |
| `Bmp280.NoOverflowExactlyWhen` | drivers/sensor_spi.c:161-164 | for every reading and calibration, all intermediates fit if and only if the three products do, and then the driver computes the exact floor formula |
| `Bmp280.TemperatureMonotone` | drivers/sensor_spi.c:158-164 | with T2 at least 16384 as well, a larger reading never reports a lower temperature, despite the roundings |
| `Bmp280.MonotoneUpToOverflow` | drivers/sensor_spi.c:158-164 | nor does it anywhere on the whole region without overflow, when 23 T3 is at most 16384 times T2 / 2048 in size (T3 up to 5698 for T2 from 16384 on) |
| `Bmp280.OutOfRangeCanFall` | drivers/sensor_spi.c:161-164 | a calibration with T3 = 1000 and two readings where it does |
| `Bmp280.OverflowsBetween` | drivers/sensor_spi.c:161-164 | of those two the first does not overflow and the second does |
| `Bmp280.SecondOrderSign` | drivers/sensor_spi.c:162-164 | without overflow a positive T3 never lowers the temperature against T3 = 0, and a negative one never raises it |
| `Bmp280.DatasheetExample` | drivers/sensor_spi.c:158-164 | the datasheet's worked example, from the register bytes to 25.08 degrees |
| `Bmp280.RawBits` | drivers/sensor_spi.c:158-158 | the reading keeps two registers and the top half of the third |
| `Bmp280.DecodeOfEncode` | drivers/sensor_spi.c:407-424 | calibration words come back from their register bytes, signed and unsigned |
| `Bmp280.PrintedExactlyWhen` | drivers/sensor_spi.c:174-174 | the printed text is the decimal notation of the temperature if and only if it is not negative or is a whole degree |
| `Bmp280.FrostPrintedWrong` | drivers/sensor_spi.c:158-174 | a register reading and calibration that give -0.31 degrees, printed as `0.-31` |
| `Pio.PlanPio` | drivers/sensor_spi.c:119-134 | the loop fills slots 1 to ceil(target / 95) of the driver's array with the chunk plan and stays inside it |
| `Pio.ChunksTile` | drivers/sensor_spi.c:123-134 | the chunks are 1 to 95 bytes, all but the last 95, contiguous, cover the target and number ceil(target / 95) |
| `Pio.FitsExactlyWhen` | drivers/sensor_spi.c:80-80 | 14 slots suffice if and only if the target is at most 1235 bytes |
| `Pio.PioEqualsDma` | drivers/sensor_spi.c:102-135 | chunked and single transfers leave the same buffer, for every length |
| `SplitLine.Split` | src/utils/input.c:431-462 | one pointer per token, each to exactly its token and a terminator, then the NULL inside the array, through every growth; it gives up if and only if memory cannot hold the array |
| `SplitLine.StrTok` | src/utils/input.c:442-458 | the next token starts past the delimiters, ends at the first one, which becomes the terminator, and nothing else changes |
| `SplitLine.SpansAreRuns` | src/utils/input.c:442-459 | the tokens are maximal delimiter-free runs, in order |
| `SplitLine.SpansCover` | src/utils/input.c:442-459 | every character that is not a delimiter is in a token |
| `SplitLine.TokensAreSpans` | src/utils/input.c:442-459 | the token texts are the texts of those runs |
| `SplitLine.SplitOfJoin` | src/utils/input.c:431-462 | splitting words joined by single spaces gives the words back |
| `SplitLine.SplitOfSpread` | src/utils/input.c:431-462 | so does splitting words separated, led and followed by any runs of blanks, tabs, carriage returns, newlines and bells |
| `SplitLine.CapacityIs` | src/utils/input.c:449-451 | the array's length is the smallest multiple of 64 that holds the tokens and the NULL |
| `Wps.EverySignalAnswered` | src/core/worker.c:441-456 | under every interleaving launches never outnumber signals, and at a test of a clear flag every signal so far was followed by a launch |
| `Wps.SignalLeadsToLaunch` | src/core/worker.c:441-456 | under every interleaving a signal is followed by a launch once the watcher has made four more statements |

## Left out

- Netlink attribute parsing, socket set-up and libnl itself: a dump is a sequence of buffers of parsed messages.
- How the writes to the record of the interface interleave with the tracker's steps: they are two independent sequences.
- `wlan_core_build_status` called from a TCP thread while the poll thread changes the list: nothing in the code orders the two, so the printer is modelled as sequential.
- A stream message that one `recv` splits: chunks hold whole messages.
- A `send` on a push socket that accepts only part of a message: it counts as sent.
- The start-up `led_off()` and other writers of the pins: a subscriber's claims start from any state of the pins.
- Watchers.WatcherKnowsStations: is about moments at which the poll thread is between two handler calls, so that the server has broadcast the whole log.
- Wps.EverySignalAnswered: takes the flag as read and written in memory each time; it is declared neither volatile nor atomic.
- Overflow of the int-sized positions in the tokenizer and the printer: positions and sizes are unbounded.
- Accept loops, poll and timer plumbing, module init and exit, GPIO and IRQ registration: sequences of foreign calls.
- The demo kernel threads behind `wait_queue_flag`, the remaining CLI commands, `dumpstate`, shared memory, the launcher and directory watching: input/output or single calls.
- Width formatting, logging: easy members.
