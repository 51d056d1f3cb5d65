# hubhq: a verified model of its stateful core

This project models, in Dafny, the parts of hubhq whose correctness depends on every input, every
interleaving or every run, and proves what they promise.

- **DukaOne wire protocol.** The packet printer with its wrapping checksum, the response parser, the loop
  that folds datagrams into a device state, and the two compilers of attribute maps into write commands: the
  native one and the Python bridge, each against the table of words and octets.
  (`DukaPacket`, `DukaResponse`, `DukaRoundTrip`, `DukaRejection`, `DukaClient`, `DukaWrite`, `DukaWords`)
- **LLM disk cache.** A list with a time to live and a capacity, kept in memory and in a file, against a plain
  log of the puts over whole runs with restarts. (`LlmCache`, `LlmCacheLog`)
- **Cluster leader choice.** One registry, and any number of nodes that hear each other or do not.
  The two selectors of a leader, one for the automations and one for the list. (`Cluster`, `ClusterNetwork`,
  `ClusterSelectors`)
- **Automation runner.** The event path with its two maps behind a lock, and the scheduler with its run keys.
  (`EventRunner`, `Scheduler`)
- **Script host protocol.** The script's copy of the state and the host's store, requests and answers, guards,
  under every interleaving of the two processes and over sequences of runs. (`ScriptHost`, `ScriptRuns`)
- **WAV files.** The reader against the chunks a file is made of, and the tone writer against the reader.
  (`Wav`, `WavFormats`, `WavTone`)
- **Configuration files.** Three files, the single file of earlier versions, and saves that are cut off.
  (`HubConfig`, `HubConfigRoundTrip`)
- **Speaker resolution.** From the text of a request to the speakers it names.
  (`Speakers`, `SpeakerTargets`, `SpeakerSpelling`)

`Common` and `Text` hold what several modules share. Code that updates state in place is modelled by classes
and loops; each such method is proved equal to a function or a step relation, and the theorems are about those.

## Where the code parts from what one would expect

Each of these is proved, with the condition under which the expected property does hold.

- An extended DukaOne field shorter than its branch reads stops the program with an index fault instead of being
  refused; plain fields cannot be short (`DukaRoundTrip.FaultsExactlyOnShortExtendedField`).
- A device id or password over 255 bytes does not survive the wire: its length is one byte
  (`DukaRoundTrip.FrameReadsBack`).
- The native client and the bridge part on three kinds of input, and on no other: two reset keys that clash, flags
  spelled as texts (Python takes every text but the empty one for true, and refuses none), and modes or presets
  with one of four ASCII separators around them (`DukaWrite.NativeMatchesBridge`, `DukaWrite.NativeRefusesIff`).
- A cache file damaged by a write that failed part way makes the next process fail once, at its first access, a
  put included; its log then starts empty (`LlmCacheLog.DamagedFileFailsOnce`).
- Announcements carry no id and are stored under the hub key. An instance that hears its own one, and whose local
  probe does not find it and put an entry of its own in its place, does not lead when that key sorts before its id,
  even alone (`ClusterNetwork.EchoDecidesWhoLeads`). Of the announcements of one hub each instance keeps the one it
  heard last, so that two instances see each other only when each keeps the other's; when both keep the same one,
  both may lead, or neither (`ClusterNetwork.LastHeardDecidesWhoLeads`, `ClusterNetwork.SameLastHeard`).
- The list of instances shows another leader than the one that gates automations when an earlier peer shares the
  group key and not the mode, and, while ids tell starts, only then (`ClusterSelectors.SelectorsAgreeIff`). A bar
  or a space in a mode brings that about.
- A scheduled run is repeated exactly when its key comes back after another one, as it does when the clock is set
  back a day (`Scheduler.KeyRepeatsIffItComesBack`, `Scheduler.GoingBackRepeats`).
- The store of the scripts is a front part of what the script did except after a write that failed part way: an
  emptied store starts again from nothing, and a torn one leaves every later run without a state
  (`ScriptRuns.StoreFollowsScript`, `ScriptRuns.TornStoreStaysTorn`).
- Grants of one guard lie their seconds apart within a run, but the next run is bound by those that the store kept
  and by no others: it grants the guard if and only if the store can be read and the last grant kept is old enough
  (`ScriptRuns.NextRunGrantsIff`). So a grant is given again at once after a write that lost it or wiped it out
  (`ScriptRuns.LostGrantIsGivenAgain`, `ScriptRuns.WipedGrantIsGivenAgain`).
- A failed request with an empty error text resolves its promise (`ScriptRuns.AnswersReachTheirRequest`).
- Saving the configuration is not atomic: cut off after config.json, the migration of an old file loses exactly
  the tokens that only that file held (`HubConfigRoundTrip.CutOffMigrationKeepsTokensIff`). Without config.json
  the saved tokens are ignored and the next save drops them (`HubConfigRoundTrip.LoadThenSaveKeepsTokensIff`).
  Damage to a cache file that the next load removes as stale is the only damage that load does not report
  (`HubConfigRoundTrip.DamageIsReportedIff`).

## Model

| member | source | states |
|---|---|---|
| DukaPacket.Checksum | internal/dukaone/native/packet.go:117-123 | The uint16 accumulator ends as the plain sum of the covered bytes modulo 65536. |
| DukaPacket.SumAfterReplacing | internal/dukaone/native/packet.go:117-123 | Replacing one byte moves the plain sum by exactly the difference of the two bytes. |
| DukaPacket.BuildPacket | internal/dukaone/native/packet.go:99-115 | The grown buffer is header, two length-prefixed texts, function, parameters and little-endian checksum. |
| DukaPacket.PacketLayout | internal/dukaone/native/packet.go:99-123 | Octet by octet where each part of a packet lies: header FD FD 02, both texts behind their lengths, function, parameters, and the sum from the third octet on, low octet first. |
| DukaPacket.BuiltPacketsAreWellFramed | internal/dukaone/native/packet.go:99-135 | Every packet that is built passes the header and checksum tests of the receiver. |
| DukaPacket.WellFramedIsBuiltFromItsBody | internal/dukaone/native/packet.go:125-135 | Conversely, a packet that passes both tests is determined by what lies between header and checksum. |
| DukaPacket.OneAlteredByteIsDetected | internal/dukaone/native/packet.go:117-135 | Changing one byte of a framed packet, at any position and for any length, breaks the header test or the checksum test. |
| DukaResponse.DecodeResponse | internal/dukaone/native/response.go:13-105 | The parser walking `pos` through the bytes gives the outcome specified on the packet's parts: state, each kind of error in order, or an index fault. |
| DukaResponse.DecodeParameters | internal/dukaone/native/response.go:40-104 | The loop over the parameters gives what reading field after field from the front gives. |
| DukaResponse.ReadStringAt | internal/dukaone/native/response.go:107-117 | A text is read from its length byte, never past the checksum. |
| DukaResponse.ReadFieldAt | internal/dukaone/native/response.go:41-62 | One field, in its plain or its 0xFE form, with the errors for unknown, short and overrunning ones. |
| DukaResponse.StoreField | internal/dukaone/native/response.go:63-97 | A field replaces the component of its own parameter and no other. |
| DukaResponse.TrimNullAscii | internal/dukaone/native/response.go:119-125 | The shrinking loop drops exactly the trailing zero bytes. |
| DukaResponse.PlainFieldsAreComplete | internal/dukaone/native/response.go:5-11 | Every size in the table is enough for the branch that reads the value. |
| DukaResponse.SizesAreWhatIsRead | internal/dukaone/native/response.go:5-97 | Each parameter that is read has exactly the octets its branch reads, the unit type one more, and the search id 16. |
| DukaRoundTrip.FrameReadsBack | internal/dukaone/native/response.go:23-38 | Id, password, function and parameters read back exactly when both texts are at most 255 bytes. |
| DukaRoundTrip.FieldsAreConsumed | internal/dukaone/native/response.go:40-99 | Printed fields are consumed one by one whatever follows them. |
| DukaRoundTrip.ParamsPrintBack | internal/dukaone/native/response.go:40-99 | Whatever decodes or faults starts with the print of complete fields, and the rest is nothing or a short field. |
| DukaRoundTrip.PrintedResponsesDecode | internal/dukaone/native/response.go:13-105 | Decoding a printed response gives the reading of its fields. |
| DukaRoundTrip.AcceptedExactlyWhenPrinted | internal/dukaone/native/response.go:13-117 | A packet is accepted with a state exactly when it is the print of some id, password and complete fields with that reading. |
| DukaRoundTrip.PrintingIsUnique | internal/dukaone/native/packet.go:99-115 | No packet is the print of two different (id, password, fields). |
| DukaRoundTrip.FaultsExactlyOnShortExtendedField | internal/dukaone/native/response.go:44-97 | The parser runs past a value exactly when complete fields are followed by an extended field that is too short. |
| DukaRejection.RejectedExactlyFor | internal/dukaone/native/response.go:13-117 | Every error, from a short packet to a parameter that overruns, is given exactly under its own condition on the octets of the packet. |
| DukaRoundTrip.OneAlteredByteIsRejected | internal/dukaone/native/response.go:17-22 | An accepted packet with one byte changed is refused, by the header test in the first three bytes and the checksum test elsewhere. |
| DukaRoundTrip.LastIsTheLast | internal/dukaone/native/response.go:62-98 | The reference for "last field of a parameter" picks a field after which that parameter does not occur. |
| DukaRoundTrip.LastFieldWins | internal/dukaone/native/response.go:62-104 | The reading is, component by component, the last field of its parameter, by the number of that parameter, with speed off when the device is off. |
| DukaClient.ReadState | internal/dukaone/native/client.go:96-134 | The first event that is a socket failure, a faulting packet, or a packet of the device with a live reading decides the outcome by its kind; without one a firmware version makes a state and its absence no response. A returned state has the live readings of that one packet, and address, firmware and unit type as last told. |
| DukaClient.ReadStateHasOutcome | internal/dukaone/native/client.go:96-134 | The same for every device and every sequence of events. |
| DukaClient.MergeState | internal/dukaone/native/client.go:166-206 | Present readings replace, absent ones keep. |
| DukaClient.MergeKeepsStillnessIff | internal/dukaone/native/client.go:166-206 | Merging breaks "off means speed off" exactly when a bare speed meets a device known to be off. |
| DukaClient.MergeAloneCanBreakStillness | internal/dukaone/native/client.go:166-206 | Two genuine responses of one device do that. |
| DukaClient.ReadingComesFromOneDatagram | internal/dukaone/native/client.go:100-129 | The live readings returned are those of the first live response, never a mixture. |
| DukaClient.ReadStateIsStillWhenOff | internal/dukaone/native/client.go:96-134 | Whatever arrives, no returned state shows an off device with a speed that is not off. |
| DukaWrite.BuildWritePackets | internal/dukaone/native/client.go:245-318 | The packets are those of the native commands in order, or none at all with the first error; DukaWords.WritesAreAsSpelled says which these are. |
| DukaWrite.BridgeClient.ApplyMode | internal/dukaone/bridge.py:79-86 | The bridge issues at most one mode command, or raises before any later one. |
| DukaWrite.BridgeClient.ApplyAttrs | internal/dukaone/bridge.py:78-120 | The bridge issues its commands stage by stage and stops where it raises; DukaWords.BridgeIssuesWhatIsMeant says which these are. |
| DukaWrite.CommandReadsBack | internal/dukaone/native/packet.go:58-97 | Every command survives the wire. |
| DukaWrite.WritePacketsReadBack | internal/dukaone/native/client.go:245-318 | The packets of one write read back as its commands in order; manual speed is never cut to 8 bits. |
| DukaWrite.NativeMatchesBridge | internal/dukaone/native/client.go:245-318 | What the native client accepts the bridge accepts, and they issue the same commands if and only if both reset equally often (see ResetsAgreeIff) and the switch is not spelled as a text that means false. |
| DukaWrite.ResetsAgreeIff | internal/dukaone/native/client.go:283-300 | Both reset the filter timer equally often exactly when the key the bridge looks at, resetFilter if given, is spelled as a text that means false just when the other key asks native for a reset. |
| DukaWrite.KnownModeIsRefusedIff | internal/dukaone/native/client.go:320-331 | Of the modes the bridge knows, the native client refuses exactly those with a separator around them. |
| DukaWrite.KnownPresetIsRefusedIff | internal/dukaone/native/client.go:333-348 | The same for presets. |
| DukaWrite.NativeRefusesIff | internal/dukaone/native/client.go:245-318 | The native client refuses exactly what makes the bridge raise, what asks for nothing, padding by separators, and unknown spellings of booleans. |
| DukaWrite.SeparatorPaddingPartsThem | internal/dukaone/bridge.py:82-86 | Any separator in front of any mode: the bridge sets the mode, the native client refuses it. |
| DukaWords.FlagsAreMeant | internal/dukaone/native/client.go:363-376 | A boolean text is true or false exactly when it spells one of the eight words, in any case and with white space around it. |
| DukaWords.WritesAreAsSpelled | internal/dukaone/native/client.go:245-376 | The packets of a write are, octet by octet and read back, the commands that the words of the attributes spell, in their order; a write is refused for the first attribute that spells nothing, and for asking nothing. |
| DukaWords.BridgeIssuesWhatIsMeant | internal/dukaone/bridge.py:78-120 | The same for the bridge and for what it has issued already when it raises. |
| LlmCache.DiskCache.Load | internal/llm/cache.go:124-140 | The file is read at most once; a broken file leaves an empty list and an error once. |
| LlmCache.DiskCache.PruneExpired | internal/llm/cache.go:157-168 | The in-place filter keeps exactly the entries within the time to live, in order. |
| LlmCache.DiskCache.Get | internal/llm/cache.go:71-91 | Memory is pruned, the file is not written, the first entry of the key answers. |
| LlmCache.DiskCache.Put | internal/llm/cache.go:93-155 | At any time, what is left is a front part of the young entries of other keys and the new one, newest first; in a list of older entries without equal times that is the new entry in front of the younger others. The file then holds that list, or what a failed write left. |
| LlmCache.SortedListIsUnique | internal/llm/cache.go:115-117 | With no two equal times the unstable sort has one possible outcome. |
| LlmCacheLog.FreshIsAPrefix | internal/llm/cache.go:157-168 | Pruning a list that is newest first cuts off its tail. |
| LlmCacheLog.PruningAgrees | internal/llm/cache.go:157-168 | Pruning keeps the list in agreement with the log at any later time. |
| LlmCacheLog.PuttingAgrees | internal/llm/cache.go:93-122 | Insert, dedupe and truncate on the short list agree with the same on the full list of latest entries. |
| LlmCacheLog.PositionOfLastPut | internal/llm/cache.go:104-120 | A key's latest entry stands behind exactly the keys put after it. |
| LlmCacheLog.RunKeepsInv | internal/llm/cache.go:71-168 | Every run of puts, gets, writes that fail before or after truncating the file, and restarts keeps memory and file in agreement with their logs. |
| LlmCacheLog.GetAgreesWithLog | internal/llm/cache.go:71-168 | In every reachable state a get returns the value of the latest put of its key exactly while its age is at most the time to live, if there is one, and fewer than maxEntries other keys were put since; it fails exactly as the first access to a damaged file. |
| LlmCacheLog.DamagedFileFailsOnce | internal/llm/cache.go:124-140 | A write that damages the file goes unnoticed by its process; the next process fails at its first access only, and its log starts empty. |
| LlmCacheLog.PutIsAlwaysReady | internal/llm/cache.go:93-122 | Every reachable list is newest first and older than the next put. |
| LlmCacheLog.RestartsAreInvisible | internal/llm/cache.go:75-90 | When saves succeed, two runs with the same puts answer alike, whatever restarts and gets lie between. |
| Cluster.BeforeIsAnOrder | internal/cli/cluster.go:186-191 | Ranking by start and id is a strict order, total up to equal (start, id). |
| Cluster.LexLessIff | internal/cli/cluster.go:186-191 | Ids are ranked by the first character in which they differ, and a shorter one before what it begins. |
| Cluster.FirstHasOneId | internal/cli/cluster.go:186-192 | All first candidates of a set share start and id, so ties do not matter. |
| Cluster.Registry.Refresh | internal/cli/cluster.go:135-146 | Views enter the peer map one by one, the last of an id wins, none is removed. |
| Cluster.Registry.Snapshot | internal/cli/cluster.go:195-212 | The snapshot holds exactly the peers. |
| Cluster.Registry.Leader | internal/cli/cluster.go:164-193 | The leader is a first one among the eligible peers and, for its own mode, the node itself. |
| Cluster.Registry.IsLeaderNow | internal/cli/cluster.go:148-154 | The gate depends on the set of candidates only, not on the order of the map. |
| ClusterNetwork.OwnIdIsInjective | internal/cli/cli.go:2655-2661 | The id an instance is built with tells its host, process and start. |
| ClusterNetwork.OwnIdTellsTheStart | internal/cli/cli.go:2655-2661 | Instances with one id have one start, and no id is empty. |
| ClusterNetwork.LeadsIffNobodyRanksBefore | internal/cli/cluster.go:148-193 | A node leads if and only if no candidate ranks before it. |
| ClusterNetwork.LeadsIffEarlierPeersAreStale | internal/cli/cluster.go:164-193 | A node leads if and only if every earlier-ranked peer of its group is out of the 15 s window. |
| ClusterNetwork.NotBothLead | internal/cli/cluster.go:148-193 | Two instances that see each other do not both lead, under whatever ids their entries are stored. |
| ClusterNetwork.EntryOfOtherStartIsSeen | internal/cli/cluster.go:171-182 | An eligible entry with the start of an instance started at another instant is enough to see it. |
| ClusterNetwork.BothLeadIff | internal/cli/cluster.go:148-154 | Two nodes with the same candidates both lead exactly when the first one has no id or the id of both. |
| ClusterNetwork.EchoDecidesWhoLeads | internal/cli/cluster.go:98-109 | An instance that stores its own announcement, unreplaced by the local probe, leads, alone, exactly when its hub key does not sort before its id. |
| ClusterNetwork.LastHeardDecidesWhoLeads | internal/cli/cluster.go:135-146 | Two instances of one hub that hear announcements of both, in any order and number: who leads and who sees whom is decided by the announcement each heard last, so that one, both or none lead. |
| ClusterNetwork.SameLastHeard | internal/cli/cluster.go:135-154 | When both keep the later one's announcement, the earlier one leads, and the later one as well exactly when the key does not sort before its id; when both keep the earlier one's, the later one does not lead, nor does the earlier one when the key sorts before its id. |
| ClusterNetwork.RunsKeepInv | internal/cli/cluster.go:135-146 | Over any run of time steps and refreshes, with entries seen at any time before, a node forgets no peer, and an entry under the own id of an instance has its start. |
| ClusterNetwork.AtMostOneStarter | internal/cli/cli.go:2497-2523 | In every reachable state at most one of the instances of a mode that all see each other starts an automation. |
| ClusterNetwork.ReachableLeader | internal/cli/cluster.go:164-193 | In every reachable state a node leads exactly when every entry of its mode and group, under any id, that started earlier or at the same time with a lesser id was last seen more than 15 s ago. |
| ClusterSelectors.GroupViews | internal/cli/cluster.go:448-455 | Grouping keeps exactly the active members of each group key. |
| ClusterSelectors.OneGroupIff | internal/cli/cluster.go:471-476 | For plain modes two instances are in one group exactly when mode and hub key, or host where the key is blank, are the same but for case. |
| ClusterSelectors.LeaderByGroup | internal/cli/cluster.go:447-469 | The list shows one leader for each group with an active member, the first of its members. |
| ClusterSelectors.SelectorsAgreeIff | internal/cli/cluster.go:164-212 | The gate and the list choose the same id, in whatever order the peers come, when no active member of the group key with another mode ranks before the choice of the gate, and only then while ids tell starts. |
| ClusterSelectors.SelectorsAgree | internal/cli/cluster.go:447-476 | For modes without padding and bar they always agree. |
| ClusterSelectors.OtherModePartsThem | internal/cli/cluster.go:447-476 | An earlier peer of the same group key and another mode leads the list and not the gate. |
| ClusterSelectors.BarInModePartsThem | internal/cli/cluster.go:471-476 | A bar in the mode of a peer makes that happen to an automation runner. |
| ClusterSelectors.PaddedModePartsThem | internal/cli/cluster.go:471-476 | So does a space before the mode, which the group key trims and the gate does not. |
| EventRunner.Runner.Trigger | internal/cli/cli.go:2510-2523 | The locked section starts a spec unless it runs or was started less than 2 s ago, and records it. |
| EventRunner.Runner.Finish | internal/cli/cli.go:2531-2535 | A goroutine that ends frees its spec only. |
| EventRunner.StepKeepsInv | internal/cli/cli.go:2510-2535 | Waiting, events, endings and reloads keep the invariant of maps, goroutines and history. |
| EventRunner.EventRunsAreSafe | internal/cli/cli.go:2414-2416 | Over any run with reloads the map is exactly the running specs, none runs twice at once, any two starts of one spec are 2 s apart. |
| EventRunner.EventStartsIff | internal/cli/cli.go:2510-2523 | In every reachable state an event starts its spec if and only if no goroutine of it lives and all its starts are 2 s old. |
| Scheduler.SpecScheduler.RunScheduledSpecs | internal/cli/cli.go:2899-2950 | One pass over the store, with failures that are passed over and an output failure that ends the pass. |
| Scheduler.SpecsAreIndependent | internal/cli/cli.go:2905-2948 | Each spec that a pass comes to is run as if it were alone in the store; one behind an output failure is left alone. |
| Scheduler.PassRunsExactly | internal/cli/cli.go:2899-2950 | A pass executes a spec, once and under its id and the local minute, exactly when it is active, its time of day or its sun event is this minute, it has not run under this minute, and no earlier spec ended the pass; only success is remembered. |
| Scheduler.PassIsAVisit | internal/cli/cli.go:2909-2931 | For one spec a pass comes down to one visit with a key and an outcome. |
| Scheduler.PassesAreVisits | internal/cli/cli.go:2899-2950 | Over any sequence of passes, cut short or not, the scheduler executes and succeeds with a spec exactly in the visits that say so. |
| Scheduler.LastSuccessIsTheLast | internal/cli/cli.go:2916-2931 | The remembered key is that of the latest success. |
| Scheduler.AttemptedIffNotYetDone | internal/cli/cli.go:2916-2931 | With run keys that do not go back, a due spec is executed exactly when its key has not succeeded: failures are retried, successes not repeated. |
| Scheduler.DatesKeepKeysInOrder | internal/cli/cli.go:3190-3206 | Passes over the whole store whose local dates never go back, whatever their times of day do and whatever fails, have run keys of a daily time that never go back. |
| Scheduler.KeyRepeatsIffItComesBack | internal/cli/cli.go:2916-2931 | Some key succeeds twice if and only if a key under which the spec is due with a working script comes back after another such key. |
| Scheduler.DueKeySucceedsOnce | internal/cli/cli.go:2909-2931 | A key that is due while its script works succeeds exactly once. |
| Scheduler.GoingBackRepeats | internal/cli/cli.go:3198-3206 | At any time of day, passes on one day, on another and on the first again execute the run of the first day twice. |
| Scheduler.MinuteFiresIffMet | internal/cli/cli.go:2884-2950 | With local dates that do not go back, a working script and working output, whatever the other specs do, a matching minute gets exactly one success when some pass falls into it, and none otherwise. |
| Scheduler.EveryMinuteFiresOnce | internal/cli/cli.go:2884-2950 | With passes at most a minute apart every matching minute that is reached gets exactly one success, an hour that the local clock repeats included. |
| Scheduler.SunFiresIffMet | internal/cli/cli.go:3207-3236 | With a sun event, a minute gets exactly one success when the event of its date is in it and some pass falls into it, and none otherwise. |
| ScriptHost.StateStore.Set | internal/cli/cli.go:5280-5330 | The whole store is read, one key replaced and the file written; a store that does not parse is left alone, and a failed write may empty or tear the file. |
| ScriptHost.StateStore.Delete | internal/cli/cli.go:5291-5330 | The same for a key that is removed. |
| ScriptHost.Host.HandleMessage | internal/script/javascript.go:434-605 | One line changes the store, writes one response, or ends the run, a request whose answer cannot be written included. |
| ScriptHost.Host.Execute | internal/script/javascript.go:90-119 | The file is what the lines handled make of it one after the other, and the loop ends at the first line that fails, with what that one did. |
| ScriptHost.HandledIsReplayed | internal/cli/cli.go:5280-5330 | Lines that were all handled leave a readable store with all their operations replayed. |
| ScriptHost.ScriptSide.SetState | internal/script/javascript.go:291-295 | The copy of the script changes and the same change is printed for the host. |
| ScriptHost.ScriptSide.DeleteState | internal/script/javascript.go:296-300 | The key leaves the copy and its removal is printed for the host. |
| ScriptHost.ScriptSide.GuardOnce | internal/script/javascript.go:306-325 | A guard is granted unless its key holds an instant less than `seconds` old, and a grant is recorded and printed. |
| ScriptHost.ScriptSide.SendRequest | internal/script/javascript.go:384-388 | A request takes the next number, becomes pending and is printed. |
| ScriptHost.ScriptSide.OnResponse | internal/script/javascript.go:391-408 | A response settles its pending request once, and any other response is ignored. |
| ScriptHost.CallChangesItsKey | internal/script/javascript.go:289-326 | A state call gives its own key the value it says, removes it, or under a guard that is old enough the instant, and leaves every other key alone. |
| ScriptRuns.StoreFollowsScript | internal/script/javascript.go:289-301 | Under every interleaving the copy is the replay of all lines printed; the store is the replay of those handled if and only if the run was not given up for a write that tore the file or emptied one that held something; drained, the two are equal. |
| ScriptRuns.StateIsWhatWasCalled | internal/script/javascript.go:289-326 | In every reachable state the copy is what the calls of the run make of the store it found; the store is what a front part of them makes of it, and drained all of them. |
| ScriptRuns.LinesAreWhatWasCalled | internal/script/javascript.go:289-388 | The lines printed are those of the calls in order: operations, texts, and requests numbered from one. |
| ScriptRuns.TornStoreStaysTorn | internal/cli/cli.go:5302-5318 | Once the file is torn no run reads or writes it any more. |
| ScriptRuns.PendingIsUnsettled | internal/script/javascript.go:380-388 | Request ids never repeat, and pending is exactly what was asked and is not settled. |
| ScriptRuns.AnswersReachTheirRequest | internal/script/javascript.go:391-474 | Every request the host handled has one answer, which is settled in its own promise, on its way, or lost because the script had closed; an error rejects it if and only if its text is not empty. |
| ScriptRuns.GrantsAreSpaced | internal/script/javascript.go:305-326 | Over any sequence of runs, the grants of a key that the store still holds or that are on the way lie at least their seconds apart. |
| ScriptRuns.GrantedIffOldEnough | internal/script/javascript.go:305-326 | In every reachable state a guard is granted if and only if the run has a state and the latest grant of the key, from this run or kept from an earlier one, is at least the seconds old; otherwise the grants stay as they are. |
| ScriptRuns.NextRunGrantsIff | internal/script/javascript.go:305-326 | After any sequence of runs, the next one grants a guard if and only if its store can be read and the last grant of the key that the store kept, or without one the instant found there at the origin, is at least the seconds old; grants that were not kept do not count, however recent. |
| ScriptRuns.OriginIsFound | internal/cli/cli.go:5302-5318 | What a key held before all grants is what the first run found in the store, or nothing since the file was emptied. |
| ScriptRuns.LostGrantIsGivenAgain | internal/script/javascript.go:101-105 | A run whose grant is lost with its write, and a next run that is granted the same guard however soon it starts. |
| ScriptRuns.WipedGrantIsGivenAgain | internal/cli/cli.go:5320-5330 | The same for a grant that reached the store, after a write of another key emptied the file. |
| Wav.DecodeWav | internal/cli/cli.go:6477-6529 | The offset loop ends and gives what walking the chunks from the front gives, with each error in its order. |
| Wav.FileReadsBack | internal/cli/cli.go:6477-6529 | A file of any chunks with PCM formats, padded after odd sizes, is judged by its last format and its last samples alone. |
| Wav.AcceptedExactlyWhenHeld | internal/cli/cli.go:6477-6529 | A sound is accepted exactly when the file is made of chunks that hold it as last format and last samples, with supported parameters. |
| Wav.WalkFindsChunks | internal/cli/cli.go:6488-6514 | Every walk that succeeds went over a list of chunks, the last pad byte possibly missing. |
| Wav.WalkFailsAt | internal/cli/cli.go:6488-6514 | A walk that fails reports the first chunk that is cut short or holds a format it refuses. |
| Wav.LastCalledIsAChunk | internal/cli/cli.go:6497-6509 | The reference for the last chunk of a name picks one after which the name does not occur. |
| WavFormats.FormatIsRead | internal/cli/cli.go:6494-6507 | Every payload of a format chunk gives the rate, channels and bits its octets hold, or its own error. |
| WavFormats.PcmFileReadsBack | internal/cli/cli.go:6477-6529 | A file of one printed PCM format and samples is accepted as these exactly for a rate, one or two channels, 8 or 16 bits and samples, and otherwise refused for the first of these that fails. |
| WavFormats.HeaderIsRefusedIff | internal/cli/cli.go:6478-6483 | Too small is what has fewer than 44 octets, and a bad header lacks the marks of RIFF or WAVE. |
| WavTone.SampleFits | internal/cli/cli.go:6152-6168 | Whatever the tones add up to, the value stays within int16, the first sample is silent and the last one at most 121. |
| WavTone.SampleSoundsAs | internal/cli/cli.go:6152-6168 | The value of a sample is what the tones add up to, limited and faded, times 32767, cut towards zero; in the middle of a tone 26868 beyond the limit. |
| WavTone.WriteTone | internal/cli/cli.go:5996-6069 | The file is the 44-byte header and the samples, two bytes each. |
| WavTone.ToneHeader | internal/cli/cli.go:6017-6059 | The 44 octets in front of the samples: sizes, coding 1, one channel, 22050 Hz, 44100 octets a second, 16 bits. |
| WavTone.ToneReadsBack | internal/cli/cli.go:5996-6069 | Every tone whose size fits 32 bits reads back as 22050 Hz mono of 16 bits, each sample what the tones add up to there, limited to 0.82 and faded over the first 4 and the last 10 ms, without its fraction; only the empty tone is refused. |
| HubConfig.Config.LoadLegacyEmbeddedData | internal/config/config.go:476-501 | Embedded tokens fill in those that are missing, and the embedded cache an empty one, in whatever order the map is walked. |
| HubConfig.Config.LoadTokens | internal/config/config.go:394-416 | Saved tokens replace, and a token of no known hub makes a hub. |
| HubConfigRoundTrip.HubsAsSet | internal/config/config.go:225-233 | Over any sequence of hubs set, the default stays a known hub, it is the last one asked for, else the one there was, else the first one set, and each id has the hub last set under it. |
| HubConfigRoundTrip.DefaultHubIsFound | internal/config/config.go:214-233 | After any sequence of hubs set, a save and a load, the default hub is found as last set; it is missing exactly when none was ever chosen. |
| HubConfig.Disk.Load | internal/config/config.go:135-172 | Three files give one configuration or the error of the first file that fails; only a stale cache is removed. |
| HubConfig.Disk.Save | internal/config/config.go:174-212 | The files are written in order up to the first failure, config.json without tokens and cache. |
| HubConfig.Disk.SaveTokens | internal/config/config.go:418-438 | Exactly the tokens that are not empty are written. |
| HubConfigRoundTrip.SavedIsLoaded | internal/config/config.go:174-212 | Any configuration that is saved is loaded as it was over any earlier files, its cache unless invalidated. |
| HubConfigRoundTrip.MigrationLosesNothing | internal/config/config.go:135-212 | From any files, load, save and load give the first load again, and config.json no longer holds tokens or cache. |
| HubConfigRoundTrip.LoadedHubs | internal/config/config.go:394-416 | Every loaded hub and token comes from a file, tokens.json before the embedded ones. |
| HubConfigRoundTrip.LoadFailsIff | internal/config/config.go:135-172 | A load fails exactly for the first file in order that cannot be read or parsed; without config.json it gives the empty configuration. |
| HubConfigRoundTrip.LoadRemovesOnlyAStaleCache | internal/config/config.go:150-172 | A load removes a stale cache, once the other two files are read, and nothing else. |
| HubConfigRoundTrip.CutOffMigrationKeepsTokensIff | internal/config/config.go:202-211 | Cut off after config.json, the hubs survive exactly when no token was held by the old file alone, and the cache exactly when there was none to move. |
| HubConfigRoundTrip.CutOffSaveIsLoaded | internal/config/config.go:202-211 | For every way a save fails, what the next load returns: the error of the damaged file, the old cache behind a save cut off before it, or the files as they were. |
| HubConfigRoundTrip.DamageIsReportedIff | internal/config/config.go:202-211 | Damage makes the next load fail except when it is to a cache file which that load removes as stale. |
| HubConfigRoundTrip.LoadThenSaveKeepsTokensIff | internal/config/config.go:145-149 | Load and save keep the saved tokens exactly when config.json exists or there are none. |
| Speakers.NormalizeIsIdempotent | internal/cli/cli.go:3778-3782 | Normalising a name twice is normalising it once. |
| Speakers.SplitsAtCommas | internal/cli/cli.go:3737-3738 | The parts joined with commas are the request, and no part holds one. |
| Speakers.SplitSpeakerQueries | internal/cli/cli.go:3737-3750 | The trimmed parts that are not blank, or the request itself when there is none. |
| Speakers.DedupeSpeakerTargets | internal/cli/cli.go:3752-3767 | The loop with its set of seen keys gives the deduplicated list. |
| Speakers.DedupedKeepsTheFirst | internal/cli/cli.go:3752-3767 | That list is the first entry of every key, in the original order, and no key is lost. |
| Speakers.KeysAreDistinct | internal/cli/cli.go:3752-3767 | No two kept entries share a key. |
| SpeakerTargets.ResolveSpeakerTargets | internal/cli/cli.go:3680-3735 | The two shortcuts and the loop over the parts give what resolving part by part gives, with the first error. |
| SpeakerTargets.FilterFindsOne | internal/cli/cli.go:3702-3711 | Exactly one match is collected if and only if one entry matches and no other does. |
| SpeakerTargets.PartIsItsShare | internal/cli/cli.go:3696-3729 | A part stands for everyone, for its one exact match, or only without exact matches for its one match within a name. |
| SpeakerTargets.PartIsRefusedIff | internal/cli/cli.go:3712-3728 | A part is ambiguous or unknown exactly for the number of entries it matches. |
| SpeakerTargets.ResolvedExactlyWhenAsked | internal/cli/cli.go:3680-3735 | The targets are returned if and only if they are not empty and are the first of each key among the shares of the parts in order. |
| SpeakerTargets.ResolvedIsRefusedFor | internal/cli/cli.go:3680-3735 | A request is refused for naming no speaker where there is not just one, for its first part that is refused, or for asking everyone where there is nobody. |
| SpeakerSpelling.NormalizedAlikeIff | internal/cli/cli.go:3778-3782 | Two texts are normalised alike exactly when they hold the same words in order but for case, whatever white space, hyphens, underscores and dots stand between. |
| SpeakerSpelling.MatchesIff | internal/cli/cli.go:3702-3722 | A part matches exactly the entries whose name or id is alike, and within those whose normalised name holds it. |
| SpeakerSpelling.AllIff | internal/cli/cli.go:3690-3699 | Everyone is asked for by the words speaker all in any spelling, and by nothing else. |
| SpeakerSpelling.OneSpeakerIff | internal/cli/cli.go:3752-3767 | Two entries count as one exactly when their trimmed ids are the same or, without ids, their names are alike and their kinds the same. |
| SpeakerSpelling.NamesReadBack | internal/cli/cli.go:3737-3750 | Names joined by commas and any white space are the parts of the request, in order. |

## Left out

- Sockets, mDNS, HTTP, subprocesses, file watching and the LLM call: what they deliver are inputs of the models.
- Discovery of DukaOne devices (internal/dukaone/native/client.go:20-73): the same parser and merge, no harder property.
- JSON text: saved files are the records they hold, so a cached value that does not fit its target, the spacing of `raw_home` and time zones of saved instants are not seen.
- Letters outside ASCII: case folding and trimming are modelled for ASCII texts.
- DukaWrite.BuildWritePackets: manual speed is an integer, so texts and floats that the source converts are not modelled, nor are null values and numbers given for texts or booleans.
- DukaWrite.BridgeClient.ApplyAttrs: the same types of attributes.
- LlmCacheLog.GetAgreesWithLog: for strictly increasing put times, because the sort is not stable and has no tie-break; a cache file was written by this program, in full or in part.
- ClusterNetwork.AtMostOneStarter: for instances that see each other; that they come to do so is not claimed, since announcements of one hub overwrite each other at the receiver, and ClusterNetwork.LastHeardDecidesWhoLeads says when two of them do.
- ClusterNetwork.RunsKeepInv: an entry under the own id of a running instance is taken to carry its start; entries under all other ids are arbitrary.
- Cluster.Registry.Snapshot: the order of the list (internal/cli/cluster.go:202-210) is not stated; no result depends on it.
- Removing a stale cache because the executable is newer is an input; errors of looking at the file times are not modelled.
- EventRunner.EventRunsAreSafe: each locked section is one atomic step; the lock itself is created anew by each reload.
- Schedulers that overlap across a reload: passes come one after the other.
- Sun events: the time of the event on each date is an input, as is the local minute in the zone of each spec.
- Scheduler.PassRunsExactly: that a spec is active, which depends on its status, source text and support (internal/cli/cli.go:2906, internal/cli/cli.go:2952-2959), is an input.
- ScriptRuns.GrantsAreSpaced: not for grants that the store did not keep; ScriptRuns.NextRunGrantsIff says exactly when those are given again.
- ScriptRuns.StoreFollowsScript: values are immutable, so an object that the script changes in place after storing it, which alters its copy without a line, is not modelled.
- ScriptHost.ScriptSide.SetState: a value is never undefined; the source prints such a value without one and stores null.
- Scripts that start other scripts, script runs that overlap and share the state file, and state keys that are names of the JavaScript object prototype.
- Halves of a response that could not be written: the script ignores them.
- WavTone.ToneReadsBack: the tones are any real numbers, rounding of floating point is not modelled, and sizes of 4 GiB and more are excluded.
- The speaker lists themselves, table layout, command dispatch, automation storage and printing.
