# OpenZWave on Z-Way: driver bookkeeping and command classes in Dafny

This project models the sequential core of the OpenZWave port onto the Z-Way library
(`ozway`). It covers three parts.

The first is the bookkeeping that `Driver` keeps:
- the table of 256 node slots (`InitNode`, `InitAllNodes`, `GetNode`, `Start`);
- the notification queue and the DNS/HTTP event queue;
- the XML cache and its reloading (`ReadCache`, `WriteCache`, `ReloadNode`);
- the poll ledger (`EnablePoll`, `DisablePoll`, `isPolled`, `SetPollIntensity`);
- the button map file;
- configuration-revision reconciliation against the OpenZWave database;
- network-key parsing;
- the driver thread's retry schedule;
- `TestNetwork`.

The second is the decision logic of three command classes: `SwitchBinary`,
`SwitchMultilevel` and `ManufacturerSpecific`. The third is the `LogCall` call tracer.

The modules, in dependency order:

| file | module | what it holds |
|---|---|---|
| wrappers.dfy | Wrappers | `Option`, `Result` |
| zwave_types.dfy | ZWave | integer widths and their wrap-around conversions, value ids, values, value stores, nodes, notifications |
| ctext.dfy | CText | the C library behaviour the source relies on: `snprintf` hex/decimal, `strtoul`, `strtol`, `atol`, `sscanf("%x")`, upper-casing, splitting and trimming |
| registry.dfy | Registry | the node table and the notification queue as values |
| cache_doc.dfy | CacheDocument | the cache and button documents as records, with their writers and readers |
| config_revision.dfy | ConfigRevision | lookup names and URLs, DNS answers, download gates, the reload policy |
| network_key.dfy | NetworkKey | `GetNetworkKey` and `isNetworkKeySet` |
| driver_state.dfy | DriverState | the driver's whole state as a value, with one specification function per operation |
| driver.dfy | OzwDriver | `class Driver` over an `array<Option<Node>>` of 256 slots, with one method per operation |
| cc_common.dfy | CommandClasses | request flags, Z-Way change types, the Z-Way commands a class issues, value creation |
| switch_binary.dfy | SwitchBinaryCC | `class SwitchBinary` and its specification |
| switch_multilevel.dfy | SwitchMultilevelCC | `class SwitchMultilevel` and its specification |
| manufacturer_specific.dfy | ManufacturerSpecificCC | `class ManufacturerSpecific` and its specification |
| logcall.dfy | LogCalls | `class LogCall`, with the static depth as a `Trace` object |

The imperative code keeps its form. `Driver`'s slots are an array that is overwritten in
place. The queues are `seq` fields that are pushed and drained in `while` loops. Each
command class is a class whose methods update the node's value store. Each method is
proved against a specification function of the old state. `DriverState.InitNodeSpec` is
one example; `SwitchMultilevelCC.SetValueSpec` is another. The properties the source
promises are then lemmas about those functions.

Several things are modelled rather than called.
- **Z-Way commands** (`zway_cc_*`) are recorded as `ZWayCall` values. Their success is a
  parameter.
- **XML documents** are records. A file is a `map` from path to content.
- **Option lookups** (`Options::Get()`) are fields of a `Setup` record.
- **Database calls** (`ManufacturerSpecificDB`) are recorded as `MfsCall` values.

## Model

| member | source | states |
|---|---|---|
| ZWave.Lookup | cpp/src/Driver.cpp:1519-1528 | a value is found exactly when some value of the store has the key, and what is found has it |
| ZWave.Refresh | cpp/src/command_classes/SwitchBinary.cpp:127-130 | `OnValueRefreshed` changes the payload of the values with the key and no other value, and keeps the length |
| ZWave.SetIntensity | cpp/src/Driver.cpp:761 | `SetPollIntensity` on a value changes only that value's intensity |
| ZWave.RefreshKeepsKeys | cpp/src/command_classes/SwitchBinary.cpp:127-130 | a refresh keeps the store's keys distinct and present, and the refreshed value reads back with the new payload |
| ZWave.SetIntensityKeepsKeys | cpp/src/Driver.cpp:872 | setting an intensity keeps the store's keys, and the value reads back with the new intensity |
| ZWave.LookupUnique | cpp/src/Driver.cpp:1519-1528 | in a store with distinct keys, the value found is the one at the key's position |
| ZWave.Int32RoundTrip | cpp/src/command_classes/ManufacturerSpecific.cpp:324-335 | an unsigned revision stored as a signed 32-bit value reads back unchanged |
| Registry.ValueAt | cpp/src/Driver.cpp:1519-1528 | `Driver::GetValue` finds only a value of the node its id names, with the id's key |
| Registry.Deliver | cpp/src/Driver.cpp:1851-1888 | the watchers never receive more notifications than were queued |
| Registry.DeliverAppend | cpp/src/Driver.cpp:1851-1888 | delivery is FIFO: draining `a + b` delivers what `a` delivers, then what `b` delivers |
| Registry.DeliverMembers | cpp/src/Driver.cpp:1860-1882 | a notification reaches the watchers if and only if it was queued and is not a value notification whose value has gone |
| Registry.DeliverNonValueNotes | cpp/src/Driver.cpp:1860-1882 | a queue without `ValueAdded`/`ValueChanged`/`ValueRefreshed` notifications is delivered whole, in order |
| Registry.WithIntensity | cpp/src/Driver.cpp:863-876 | a poll intensity set on one value changes only that value's node slot |
| Registry.WithIntensityEffect | cpp/src/Driver.cpp:863-876 | a set intensity keeps the table's invariant; the value reads back with the new intensity, or stays absent |
| Registry.WithIntensityOthers | cpp/src/Driver.cpp:863-876 | every value with another id, on any node, is unchanged by a set intensity |
| Registry.SetIntensityOtherKey | cpp/src/Driver.cpp:863-876 | within one node's store, other keys keep their values |
| Registry.SameIntensityNoChange | cpp/src/Driver.cpp:561-573 | setting a value's intensity to what it already holds changes nothing |
| Registry.ReplayKeepsTable | cpp/src/Driver.cpp:561-573 | re-enabling a stored value's poll with its own intensity on reload leaves the table as it was |
| Registry.StorePollNotesMembers | cpp/src/Driver.cpp:566-571 | a store's replay queues one `PollingEnabled` per value with a non-zero intensity, and nothing else |
| Registry.TablePollNotesMembers | cpp/src/Driver.cpp:561-573 | the replay over the table queues one `PollingEnabled` per polled value of an occupied slot, and nothing else |
| Registry.NewNode | cpp/src/Driver.cpp:926-947 | `InitNode` builds a fresh node with the given id and `addingNode` flag and no values, keeping `length` bytes of protocol info; it is secured only when length > 0, the network key is set and `secure` holds |
| Registry.DiscoveredTable | cpp/src/Driver.cpp:291-322 | `Start`'s loop keeps the table's size |
| Registry.DiscoveredTableFacts | cpp/src/Driver.cpp:291-322 | after `Start` every reported id 1-232 has a node; a known node keeps everything but its query stage; ids outside 1-232 or not reported are left alone |
| Registry.DiscoverNotesMembers | cpp/src/Driver.cpp:308-319 | the notifications `Start` queues are exactly `NodeNew` and `NodeAdded` for each reported id whose slot was empty |
| Registry.DiscoverNotesCount | cpp/src/Driver.cpp:308-319 | each new id contributes exactly two notifications |
| Registry.Repeat | cpp/src/Driver.cpp:1635-1638 | the inner loop sends `count` no-ops, each to the same node |
| Registry.AllTargetsFacts | cpp/src/Driver.cpp:1614-1631 | the broadcast form never addresses the controller or an empty slot, and sends nothing for count 0 |
| Registry.NoOpTargetsFacts | cpp/src/Driver.cpp:1611-1640 | `TestNetwork` never addresses the controller or an empty slot. With a node id it addresses only that node, exactly `count` times. A count of 2^31 or more sends nothing, because of the `(int)` cast |
| CText.StrToULReadsHex | cpp/src/Driver.cpp:478 | `strtoul(s, &p, 0)` reads back the home id that `snprintf("0x%.8x")` wrote (line 613) |
| CText.StrToLReadsDec | cpp/src/Driver.cpp:2024 | `strtol(s, &p, 0)` reads back the decimal button target that `snprintf("%d")` wrote (line 1929) |
| CText.HexFacts | cpp/src/Driver.cpp:2197-2199 | `%.4x` of a value below 16^4 is four lower-case hex digits that denote the value |
| CText.ToUpper | cpp/src/Driver.cpp:2344 | upper-casing keeps the length and maps each character |
| CacheDocument.LoadChildren | cpp/src/Driver.cpp:533-556 | the reader's loop over the cache's children keeps the table's size |
| CacheDocument.UnsignedVersionCompare | cpp/src/Driver.cpp:461 | `(uint32) intVal != c_configVersion` rejects exactly the versions other than 5, negative ones included |
| CacheDocument.WrittenHeaderAccepted | cpp/src/Driver.cpp:453-505 | the header `WriteCache` writes passes every check of `ReadCache`: xmlns, version, home id, node id |
| CacheDocument.WrittenRevisionSeen | cpp/src/Driver.cpp:468-471 | the reader hands the written database revision to `setLatestRevision` |
| CacheDocument.WrittenSettingsRestored | cpp/src/Driver.cpp:507-529 | the reader restores the written capabilities, poll interval and `poll_interval_between`, whatever the driver held before |
| CacheDocument.WrittenButtonsAccepted | cpp/src/Driver.cpp:1970-1991 | the button file `SaveButtons` writes has the root and version `ReadButtons` requires |
| CacheDocument.LoadCachedChildren | cpp/src/Driver.cpp:533-556 | loading the cache records `WriteCache` wrote puts back exactly the cached nodes in their slots and leaves the other slots alone |
| CacheDocument.LoadCachedNotes | cpp/src/Driver.cpp:546-548 | the reader queues one `NodeAdded` per cached node, in slot order |
| CacheDocument.LoadChildrenNotes | cpp/src/Driver.cpp:546-548 | the notifications the reader queues do not depend on what the table held |
| CacheDocument.CachedChildNotes | cpp/src/Driver.cpp:634-648 | the records written for slots from `k` on yield one `NodeAdded` each, in slot order |
| CacheDocument.RemoveFirstNode | cpp/src/Driver.cpp:2416-2436 | `ReloadNode` removes at most one child from the cache |
| CacheDocument.FirstNodeIndex | cpp/src/Driver.cpp:2416-2436 | the position found is that of the first `Node` child with the id, and none means there is no such child |
| CacheDocument.RemoveFirstNodeSpec | cpp/src/Driver.cpp:2416-2436 | `ReloadNode` removes exactly the first `Node` child with the id, and nothing when there is none |
| CacheDocument.ReadOwnEntries | cpp/src/Driver.cpp:2009-2038 | reading back a map's saved `Button` elements into whatever map the node holds writes each saved entry over it (`m_buttonMap[buttonId] = nodeId`), keeps every other entry, and queues one `CreateButton` per saved entry, in key order |
| CacheDocument.ReadOneButton | cpp/src/Driver.cpp:2012-2035 | one `Button` element with an id and a decimal target stores that entry and queues its `CreateButton` before the reader goes on |
| CacheDocument.SkipNodeElement | cpp/src/Driver.cpp:1997-2006 | the button reader passes over the element of any other node |
| CacheDocument.TakeNodeElement | cpp/src/Driver.cpp:1999-2039 | the button reader loads the requested node's element into its map and goes on with the rest from the updated map |
| CacheDocument.ReadSavedNodes | cpp/src/Driver.cpp:1993-2042 | over the saved button file, the requested node gets its own saved entries written over the map it holds, with their notifications, and nothing from any other node |
| CacheDocument.PassSavedNodes | cpp/src/Driver.cpp:1997-2006 | the saved elements of the nodes above the requested one change neither the map nor the queue |
| CacheDocument.ButtonsRoundTrip | cpp/src/Driver.cpp:1894-2043 | reading the saved button file for node `id` into any map gives that map with the saved buttons written over it; a node holding no buttons gets exactly the saved map, and one holding the saved map keeps it; either way one `CreateButton` per saved button, in id order |
| ConfigRevision.TripleShape | cpp/src/Driver.cpp:2197-2199 | the id triple is 14 characters: three 4-digit hex fields, separated by dots, that denote productId, productType and manufacturerId |
| ConfigRevision.TripleInjective | cpp/src/Driver.cpp:2197-2199 | different devices get different triples |
| ConfigRevision.NameAndUrlAgree | cpp/src/Driver.cpp:2197-2199 | the lookup name is the triple followed by `.db.openzwave.com`. The URL is `http://download.db.openzwave.com/`, the same triple and `.xml` (see lines 2315-2318) |
| ConfigRevision.NodeRevisionRequest | cpp/src/Driver.cpp:2191-2204 | `CheckNodeConfigRevision` asks for a revision lookup of the device's name, as that node |
| ConfigRevision.MfsRevisionRequest | cpp/src/Driver.cpp:2206-2213 | `CheckMFSConfigRevision` asks for a revision lookup of the database name, as node 0 |
| ConfigRevision.ConfigDownload | cpp/src/Driver.cpp:2311-2325 | `startConfigDownload` requests the device's URL into the given file, as a config download for the node |
| ConfigRevision.MfsDownload | cpp/src/Driver.cpp:2327-2337 | `startMFSDownload` requests the database URL into the given file, as node 0 |
| ConfigRevision.DeviceAnswer | cpp/src/Driver.cpp:2221-2246 | a node's answer sets its latest revision. `Alert_ConfigOutOfDate` is queued if and only if file < latest. An update is requested if and only if file < latest and auto-update is also on |
| ConfigRevision.VanishedNode | cpp/src/Driver.cpp:2223-2229 | an answer for a node that has gone changes nothing |
| ConfigRevision.DatabaseAnswer | cpp/src/Driver.cpp:2247-2276 | the database answer sets the latest database revision. If it is newer, `Alert_MFSOutOfDate` is queued and either an update or an initialisation check is requested. Otherwise the config files are checked and nothing is queued |
| ConfigRevision.NegativeAnswerIsNewer | cpp/src/Driver.cpp:2250-2256 | a negative database answer wraps to a huge unsigned value and always reads as newer |
| ConfigRevision.FailedLookup | cpp/src/Driver.cpp:2217-2300 | a failed lookup or one of another kind queues `DNSError` (only on failure) and requests the initialisation check |
| ConfigRevision.DownloadGates | cpp/src/Driver.cpp:2476-2521 | either download starts, asking for the update and queuing nothing, if and only if 0 < local < latest. Otherwise it queues `ConfigFileDownloadFailed` |
| ConfigRevision.DownloadCompletion | cpp/src/Driver.cpp:2444-2474 | a download the driver started is reported back to the database with the file and node it was started with: a device file through `configDownloaded`, the database file through `mfsConfigDownloaded`, with the success flag passed on; `ConfigFileDownloadFailed` is queued exactly on failure, and the revision counters are untouched |
| ConfigRevision.RefreshPolicyCases | cpp/src/Driver.cpp:2339-2390 | the reload policy by case. `NEVER` raises the reload alert and `IMMEDIATE` reloads, both answering true. `AWAKE` reloads a listening node but answers false, and reloads an awake sleeping node answering true. It queues a reload for an asleep node and answers false. Without a wake-up class it does nothing. Any other text does nothing and answers false |
| ConfigRevision.RefreshIgnoresCase | cpp/src/Driver.cpp:2344 | the policy match ignores case |
| NetworkKey.Conversions | cpp/src/Driver.cpp:2159-2172 | one conversion per key piece |
| NetworkKey.ConvertedSpec | cpp/src/Driver.cpp:2159-2172 | the loop converts exactly the leading run of pieces that convert, and stops at the first that does not |
| NetworkKey.Bytes | cpp/src/Driver.cpp:2169 | one byte per converted piece |
| NetworkKey.BytesSpec | cpp/src/Driver.cpp:2169 | byte `i` is piece `i`'s value `& 0xFF` |
| NetworkKey.BytesOfConversions | cpp/src/Driver.cpp:2159-2172 | conversions that all succeed give exactly their bytes |
| NetworkKey.ParseNetworkKeySpec | cpp/src/Driver.cpp:2147-2172 | with the corrected test, the key is accepted if and only if it has exactly 16 pieces that all convert, and byte `i` is piece `i`'s value. Another count fails with that count; a bad piece fails at the first bad index |
| NetworkKey.ParseKeySpec | cpp/src/Driver.cpp:2149-2172 | the same, for any sequence of conversions |
| NetworkKey.ConvertPieces | cpp/src/Driver.cpp:2159-2172 | the loop, with the corrected test, fills `keybytes` with the converted prefix and leaves the rest of the static array unchanged |
| NetworkKey.ParsePieces | cpp/src/Driver.cpp:2149-2172 | the count check and the loop, with the corrected test, give the parse of the conversions: the bytes on success, the converted prefix written before a bad piece, nothing written on a wrong count |
| NetworkKey.PieceByte | cpp/src/Driver.cpp:2162 | one `sscanf("%x")` of piece `i`, read with the corrected test that refuses every result but 1: a run of hex digits denoting a byte gives that byte, a piece blank after trimming gives none |
| NetworkKey.BlankByte | cpp/src/Driver.cpp:2162 | a piece blank after trimming converts to no byte with the corrected test |
| NetworkKey.KeyStore.constructor | cpp/src/Driver.cpp:2142-2144 | the static key bytes start as sixteen zeros and the key is not set |
| NetworkKey.KeyStore.GetNetworkKey | cpp/src/Driver.cpp:2137-2176 | a key already set is returned unchanged. Otherwise the result is the parse of the option with the corrected test, the key becomes set exactly on success, and a failure leaves the bytes it did not reach unchanged |
| NetworkKey.UnsetKeyFails | cpp/src/Driver.cpp:2178-2189 | when `isNetworkKeySet` is false, the key has no pieces and cannot be read |
| NetworkKey.SplitJoined | cpp/src/Driver.cpp:2148 | non-empty, comma-free pieces survive a join and a split |
| NetworkKey.ByteOfHex | cpp/src/Driver.cpp:2162 | `sscanf("%x")` reads a byte back from its 2-digit hex text |
| NetworkKey.KeyTextRoundTrip | cpp/src/Driver.cpp:2147-2172 | sixteen bytes written as comma-separated hex read back as the same key |
| NetworkKey.ConversionsAsWritten | cpp/src/Driver.cpp:2162-2169 | the as-written loop, where only a `sscanf` result of 0 counts as failure, gives one conversion per piece |
| NetworkKey.BlankPieceAsWritten | cpp/src/Driver.cpp:2162-2169 | as written, a piece that is blank after trimming yields whatever `tempkey[i]` held, and a `"0"` piece yields 0 |
| NetworkKey.BlankAndZero | cpp/src/Driver.cpp:2162-2169 | a blank piece fails as intended but is accepted as written; `"0"` is 0 both ways |
| NetworkKey.BlankKeyPieces | cpp/src/Driver.cpp:2148 | the key `" ,0,…,0"` splits into a blank piece and fifteen zeros |
| NetworkKey.BlankByteRejected | cpp/src/Driver.cpp:2162-2166 | read as intended, the key with a blank first piece is rejected at index 0 |
| NetworkKey.BlankByteAccepted | cpp/src/Driver.cpp:2162-2169 | read as written, that key is accepted, and its first byte is uninitialised stack memory |
| DriverState.Delays | cpp/src/Driver.cpp:365-388 | one wait per failed attempt |
| DriverState.ThreadStartsAtOnce | cpp/src/Driver.cpp:349-352 | a thread whose `Init` succeeds starts at once without waiting |
| DriverState.ThreadNeverStartsAfterExit | cpp/src/Driver.cpp:396-411 | once the driver is exiting, the thread never starts the driver |
| DriverState.UnlimitedNeverGivesUp | cpp/src/Driver.cpp:356-363 | with `maxAttempts == 0` the thread never gives up |
| DriverState.ThreadGivesUp | cpp/src/Driver.cpp:349-389 | with a limit, the thread gives up after exactly `maxAttempts` attempts. It waits 5 s after each of the first 24 failures and 30 s after each later one |
| DriverState.GivesUpFrom | cpp/src/Driver.cpp:349-389 | the same from any attempt count below the limit |
| DriverState.WriteKeepsFilesValid | cpp/src/Driver.cpp:582-657 | `WriteCache` changes neither the table nor the queue, and keeps the invariant |
| DriverState.WriteCacheIdempotent | cpp/src/Driver.cpp:582-657 | writing the cache twice gives what writing it once gives |
| DriverState.CachedChildrenIds | cpp/src/Driver.cpp:634-648 | every record written is the node of the slot its id names, at stage `CacheLoad` or later |
| DriverState.CachedChildrenDistinct | cpp/src/Driver.cpp:634-648 | every written record keeps its values' keys distinct |
| DriverState.LoadChildrenValid | cpp/src/Driver.cpp:533-556 | loading records with distinct keys keeps the table's invariant |
| DriverState.PollsStep | cpp/src/Driver.cpp:747-780 | each poll the replay re-enables queues its notification and rewrites the cache |
| DriverState.PollsConcat | cpp/src/Driver.cpp:561-573 | re-enabling two runs of polls one after the other is re-enabling the joined run |
| DriverState.ReplayStep | cpp/src/Driver.cpp:566-571 | re-enabling a stored value's poll finds the value, keeps the table, queues `PollingEnabled` and rewrites the cache |
| DriverState.ReadCacheValid | cpp/src/Driver.cpp:432-576 | `ReadCache` keeps the invariant |
| DriverState.ReadCacheRejected | cpp/src/Driver.cpp:446-505 | a rejected cache changes nothing, except the latest database revision when the header carries one |
| DriverState.CacheRoundTrip | cpp/src/Driver.cpp:432-657 | a cache `WriteCache` wrote is accepted. Reading it restores the settings and every cached node slot, and sets the latest database revision to the written one. It queues one `NodeAdded` per cached node and one `PollingEnabled` per polled value |
| DriverState.EnablePollEffect | cpp/src/Driver.cpp:747-780 | with the value present, its intensity is set and `PollingEnabled` is queued. Otherwise nothing changes. Values with other ids are untouched |
| DriverState.EnableThenPolled | cpp/src/Driver.cpp:747-857 | after `EnablePoll(v, n)` on a present value, `isPolled(v)` holds if and only if n ≠ 0 |
| DriverState.DisableKeepsPolled | cpp/src/Driver.cpp:786-857 | `DisablePoll` does not change what `isPolled` answers for any value |
| DriverState.SetPollIntensityEffect | cpp/src/Driver.cpp:863-876 | `SetPollIntensity` queues nothing, sets the present value's intensity and leaves every other value alone |
| DriverState.RemoveValid | cpp/src/Driver.cpp:912-923 | removing a node empties exactly its slot |
| DriverState.InitNodeEffect | cpp/src/Driver.cpp:909-949 | after `InitNode(id)` the slot holds a fresh node with no values and no other slot changes. The queue gains `NodeRemoved` (only if the slot was occupied) and then `NodeAdded`. Only a removal rewrites the cache |
| DriverState.ReloadForgetsNode | cpp/src/Driver.cpp:2396-2442 | after `ReloadNode`, the node is fresh and the saved cache no longer holds a record for it (or had its first record for it removed) |
| DriverState.ReloadTableOnly | cpp/src/Driver.cpp:2396-2442 | `ReloadNode` keeps the invariant |
| DriverState.CacheWithoutValid | cpp/src/Driver.cpp:2410-2438 | dropping a record from the cache file keeps the invariant |
| DriverState.RemoveFirstNodeKeeps | cpp/src/Driver.cpp:2429 | removing a record keeps the others' keys distinct |
| DriverState.StartEffect | cpp/src/Driver.cpp:278-325 | after `Start` every reported id 1-232 has a node, and the invariant holds |
| DriverState.DiscoverFirst | cpp/src/Driver.cpp:291 | `Start`'s loop starts from the state it is given |
| DriverState.DiscoverNext | cpp/src/Driver.cpp:291-322 | each id takes the loop one step further |
| DriverState.DiscoverLast | cpp/src/Driver.cpp:291-322 | the loop ends where `Start`'s specification does |
| DriverState.DiscoverPrefixValid | cpp/src/Driver.cpp:291-322 | every prefix of the loop keeps the invariant |
| DriverState.QueuedReloadEffect | cpp/src/Driver.cpp:2365-2373 | a queued reload appends one `ReloadNode` item to the node's wake-up queue and changes nothing else |
| DriverState.RefreshValid | cpp/src/Driver.cpp:2339-2390 | `refreshNodeConfig` keeps the invariant |
| DriverState.ProcessConfigRevisionValid | cpp/src/Driver.cpp:2215-2301 | a DNS answer changes, at most, the answered node's latest revision |
| DriverState.ReadButtonsValid | cpp/src/Driver.cpp:1950-2043 | `ReadButtons(id)` changes only node `id`'s button map |
| DriverState.ButtonsSaveRead | cpp/src/Driver.cpp:1894-2043 | `ReadButtons(id)` after `SaveButtons` leaves the table as it was, and queues one `CreateButton` per saved button of the node |
| DriverState.ButtonsSaveInitRead | cpp/src/Driver.cpp:1950-2043 | after `SaveButtons`, re-creating node `id` with `InitNode` leaves it no buttons, and `ReadButtons(id)` then restores exactly the map it had when saved, changes nothing else in the table, and queues one `CreateButton` per saved button |
| DriverState.CacheNameIsNotButtonName | cpp/src/Driver.cpp:1942 | the cache file (named at line 653) and `zwbutton.xml` are different files, so rewriting the cache keeps the saved buttons |
| DriverState.ReadButtonsFrom | cpp/src/Driver.cpp:1950-2043 | an accepted button file updates exactly node `id`'s map and the queue |
| DriverState.WithButtonsValid | cpp/src/Driver.cpp:2031 | changing a button map keeps the invariant |
| OzwDriver.Driver.constructor | cpp/src/Driver.cpp:99-111 | the driver starts with all 256 slots empty, empty queues and the lock free |
| OzwDriver.Driver.Lock | cpp/src/Driver.cpp:295 | taking the node mutex |
| OzwDriver.Driver.Unlock | cpp/src/Driver.cpp:558 | releasing the node mutex |
| OzwDriver.Driver.GetNode | cpp/src/Driver.cpp:682-696 | without the node mutex held the answer is none; with it, the answer is `GetNodeUnsafe`'s |
| OzwDriver.Driver.InitAllNodes | cpp/src/Driver.cpp:886-903 | every slot is emptied and nothing else changes |
| OzwDriver.Driver.InitNode | cpp/src/Driver.cpp:909-949 | the new state is `InitNodeSpec` |
| OzwDriver.Driver.RemoveNode | cpp/src/Driver.cpp:912-923 | the removal half of `InitNode` |
| OzwDriver.Driver.AddNode | cpp/src/Driver.cpp:925-947 | the slot takes `NewNode`, and `NodeAdded` is queued |
| OzwDriver.Driver.Start | cpp/src/Driver.cpp:278-325 | the new state is `StartSpec`: the driver is reported ready, the cache read and the reported ids discovered |
| OzwDriver.Driver.DiscoverNodes | cpp/src/Driver.cpp:291-322 | the loop over ids 1-232 ends in `DiscoverSpec` |
| OzwDriver.Driver.DiscoverNode | cpp/src/Driver.cpp:293-321 | one id of the loop is `DiscoverStep` |
| OzwDriver.Driver.TestNetwork | cpp/src/Driver.cpp:1611-1640 | the no-ops sent are `NoOpTargets` |
| OzwDriver.Driver.SendNoOps | cpp/src/Driver.cpp:1635-1638 | the loop sends `count` no-ops to the node, or none for a count that is negative as an `int` |
| OzwDriver.Driver.QueueNotification | cpp/src/Driver.cpp:1841-1845 | the notification joins the back of the queue and the ready event is set |
| OzwDriver.Driver.NotifyWatchers | cpp/src/Driver.cpp:1851-1888 | the queue is emptied and the watchers receive `Deliver` of the old queue, in FIFO order |
| OzwDriver.Driver.WriteCache | cpp/src/Driver.cpp:582-657 | the new state is `WithCacheWritten` |
| OzwDriver.Driver.CachedNodes | cpp/src/Driver.cpp:634-648 | the loop writes the records of `CachedChildren` |
| OzwDriver.Driver.ReadCache | cpp/src/Driver.cpp:432-576 | the new state is `ReadCacheSpec` and the answer is whether the cache passed every check |
| OzwDriver.Driver.LoadCache | cpp/src/Driver.cpp:507-573 | an accepted cache loads settings, then nodes, then polls |
| OzwDriver.Driver.LoadNodes | cpp/src/Driver.cpp:533-556 | the loop over the cache's children ends in `LoadChildren` |
| OzwDriver.Driver.ReplayPolls | cpp/src/Driver.cpp:561-573 | the replay ends in `ReplaySpec` |
| OzwDriver.Driver.ReplayNode | cpp/src/Driver.cpp:563-572 | one slot of the replay |
| OzwDriver.Driver.ReplayStore | cpp/src/Driver.cpp:565-571 | the replay over one store |
| OzwDriver.Driver.ReplayValue | cpp/src/Driver.cpp:568-570 | one value of the replay |
| OzwDriver.Driver.EnablePoll | cpp/src/Driver.cpp:747-780 | the new state is `EnablePollSpec`, and the answer is whether the value exists |
| OzwDriver.Driver.EnableValuePoll | cpp/src/Driver.cpp:758-771 | the branch for a present value |
| OzwDriver.Driver.SetIntensityAt | cpp/src/Driver.cpp:761 | `value->SetPollIntensity` on a present value |
| OzwDriver.Driver.DisablePoll | cpp/src/Driver.cpp:786-807 | the new state is `DisablePollSpec`, and the answer is always false |
| OzwDriver.Driver.IsPolled | cpp/src/Driver.cpp:822-857 | the answer is `Polled`: the node exists and the value has a non-zero intensity |
| OzwDriver.Driver.SetPollIntensity | cpp/src/Driver.cpp:863-876 | the new state is `SetPollIntensitySpec` |
| OzwDriver.ButtonElements | cpp/src/Driver.cpp:1922-1934 | the loop writes one `Button` element per map entry, in key order |
| OzwDriver.Driver.SaveButtons | cpp/src/Driver.cpp:1894-1945 | the new state is `SaveButtonsSpec` |
| OzwDriver.Driver.ButtonNodeElements | cpp/src/Driver.cpp:1910-1937 | the loop writes one `Node` element per occupied slot 1-255 with a non-empty map |
| OzwDriver.Driver.ReadButtons | cpp/src/Driver.cpp:1950-2043 | the new state is `ReadButtonsSpec` |
| OzwDriver.Driver.ReadButtonNodeElements | cpp/src/Driver.cpp:1993-2042 | the loop over `Node` elements ends in `ReadButtonNodes` |
| OzwDriver.Driver.ReadButtonElements | cpp/src/Driver.cpp:2009-2038 | the loop over `Button` elements ends in `ReadButtonList`, and reports an abort on a malformed element |
| OzwDriver.Driver.ReadButton | cpp/src/Driver.cpp:2012-2036 | one child element is read as the list reader reads a one-element list: a `Button` with id and text is stored and announced, one missing either aborts with nothing changed, any other element is skipped |
| OzwDriver.Driver.AddButton | cpp/src/Driver.cpp:2031-2035 | one button is stored and `CreateButton` is queued |
| OzwDriver.Driver.RefreshNodeConfig | cpp/src/Driver.cpp:2339-2390 | the new state is `RefreshSpec`, and the answer is the policy's, with the node mutex released afterwards |
| OzwDriver.Driver.RefreshLocked | cpp/src/Driver.cpp:2341-2389 | the body under the mutex |
| OzwDriver.Driver.RefreshAwake | cpp/src/Driver.cpp:2358-2388 | the `AWAKE` branch |
| OzwDriver.Driver.ReloadNode | cpp/src/Driver.cpp:2396-2442 | the new state is `ReloadSpec` |
| OzwDriver.Driver.RemoveCachedNode | cpp/src/Driver.cpp:2404-2438 | the cache file loses its first record for the node, and is saved even when it failed to load |
| OzwDriver.Driver.CheckNodeConfigRevision | cpp/src/Driver.cpp:2191-2204 | the lookup for the device's name is sent, and the answer is the DNS thread's |
| OzwDriver.Driver.CheckMfsConfigRevision | cpp/src/Driver.cpp:2206-2213 | the lookup for the database is sent |
| OzwDriver.Driver.StartConfigDownload | cpp/src/Driver.cpp:2311-2325 | the device's download is started |
| OzwDriver.Driver.StartMfsDownload | cpp/src/Driver.cpp:2327-2337 | the database download is started |
| OzwDriver.Driver.ProcessConfigRevision | cpp/src/Driver.cpp:2215-2301 | the new state is `ProcessConfigRevisionSpec` |
| OzwDriver.Driver.ProcessMfsRevision | cpp/src/Driver.cpp:2247-2276 | the database branch |
| OzwDriver.Driver.ApplyDatabaseRevision | cpp/src/Driver.cpp:2250-2274 | the database branch once the answer is read |
| OzwDriver.Driver.ProcessNodeRevision | cpp/src/Driver.cpp:2221-2246 | the device branch, under the node mutex |
| OzwDriver.Driver.ApplyDeviceRevision | cpp/src/Driver.cpp:2230-2245 | the device branch for a present node |
| OzwDriver.Driver.ProcessDownload | cpp/src/Driver.cpp:2444-2474 | the new state is that of `ConfigRevision.ProcessDownload` |
| OzwDriver.Driver.DownloadConfigRevision | cpp/src/Driver.cpp:2476-2500 | the new state and the answer are those of the device's download gate |
| OzwDriver.Driver.DownloadMfsRevision | cpp/src/Driver.cpp:2501-2521 | the new state and the answer are those of the database's download gate |
| OzwDriver.Driver.SubmitEventMsg | cpp/src/Driver.cpp:2523-2528 | the event joins the back of the event queue and the queue event is set |
| OzwDriver.Driver.ProcessEventMsg | cpp/src/Driver.cpp:2530-2552 | the front event is handled as `EventSpec` and removed; the queue event stays set if and only if events remain |
| OzwDriver.Driver.Init | cpp/src/Driver.cpp:396-411 | `Init` succeeds exactly when the driver is not exiting |
| OzwDriver.Driver.DriverThreadProc | cpp/src/Driver.cpp:345-390 | the loop's run is `RunThread` |
| CommandClasses.IsUpdateCases | cpp/src/command_classes/SwitchBinary.cpp:169 | masking out `PhantomUpdate` accepts exactly `Updated` and `Updated \| PhantomUpdate` |
| CommandClasses.ZWayInstanceShift | cpp/src/command_classes/SwitchBinary.cpp:72 | `_instance - 1` is one below the instance, and instance 0 wraps to 255 |
| CommandClasses.GetValue | cpp/src/command_classes/SwitchBinary.cpp:94 | a value is found only when the node exists, and it has the requested key |
| CommandClasses.CreateAllKeys | cpp/src/command_classes/SwitchBinary.cpp:195-200 | after a run of `CreateValue*` every new key is present, a key already present keeps its value, and no other key appears |
| CommandClasses.CreateKeys | cpp/src/command_classes/SwitchBinary.cpp:195-200 | one `CreateValue*` makes the new key present and leaves every present key with its value; no other key appears, a fresh key reads back the new value, and the earlier values keep their order with at most one value added |
| SwitchBinaryCC.TargetValueCases | cpp/src/command_classes/SwitchBinary.cpp:141-156 | `SetState` sends 0xFF for on and 0 for off |
| SwitchBinaryCC.CreatedByVersion | cpp/src/command_classes/SwitchBinary.cpp:191-203 | `CreateVars` always creates Level, and creates Duration and TargetState only from version 2. No other value appears |
| SwitchBinaryCC.RequestStateIssues | cpp/src/command_classes/SwitchBinary.cpp:53-79 | a get to instance `_instance - 1` is sent if and only if `RequestFlag_Dynamic` is set and the device answers gets. The result is true exactly when it is sent and Z-Way succeeds |
| SwitchBinaryCC.SetValueDispatch | cpp/src/command_classes/SwitchBinary.cpp:85-115 | Level sends a set, if and only if the Level value exists. Duration only refreshes the value and answers true. Any other index does nothing and answers false |
| SwitchBinaryCC.SwitchBinary.constructor | cpp/src/command_classes/SwitchBinary.cpp:191-203 | a class with the node's values and no command issued |
| SwitchBinaryCC.SwitchBinary.RequestState | cpp/src/command_classes/SwitchBinary.cpp:53-61 | the commands and answer of `RequestStateSpec` |
| SwitchBinaryCC.SwitchBinary.RequestValue | cpp/src/command_classes/SwitchBinary.cpp:67-79 | the commands and answer of `RequestValueSpec`; the index is not consulted |
| SwitchBinaryCC.SwitchBinary.SetValue | cpp/src/command_classes/SwitchBinary.cpp:85-115 | the values, commands and answer of `SetValueSpec` |
| SwitchBinaryCC.SwitchBinary.SetValueBasic | cpp/src/command_classes/SwitchBinary.cpp:121-133 | index 0 is refreshed to `value != 0` when present |
| SwitchBinaryCC.SwitchBinary.SetState | cpp/src/command_classes/SwitchBinary.cpp:139-157 | one set to instance `_instance - 1` with target 0xFF or 0 |
| SwitchBinaryCC.SwitchBinary.Watcher | cpp/src/command_classes/SwitchBinary.cpp:163-184 | Level is refreshed only on an update, phantom or not, of the `level` path; anything else changes nothing |
| SwitchBinaryCC.SwitchBinary.CreateVars | cpp/src/command_classes/SwitchBinary.cpp:191-203 | with a node, the version's values are created and `level` is watched; without one, nothing changes |
| SwitchMultilevelCC.RefreshTyped | cpp/src/command_classes/SwitchMultilevel.cpp:146-185 | a refresh with a payload of the index's type keeps every value typed as created |
| SwitchMultilevelCC.CreateTyped | cpp/src/command_classes/SwitchMultilevel.cpp:382-405 | the same for a creation |
| SwitchMultilevelCC.CreateAllTyped | cpp/src/command_classes/SwitchMultilevel.cpp:382-405 | the same for a run of creations |
| SwitchMultilevelCC.CreatedValuesByVersion | cpp/src/command_classes/SwitchMultilevel.cpp:378-407 | `CreateVars` creates exactly the version's indices of the instance, each with its type |
| SwitchMultilevelCC.CreatedValuesShape | cpp/src/command_classes/SwitchMultilevel.cpp:382-405 | by version: 5, 6, 9 or 10 values. Level, Bright, Dim, IgnoreStartLevel and StartLevel come always. Duration is added from 2; Step, Inc and Dec from 3; TargetValue from 4 |
| SwitchMultilevelCC.CreateVarsKeys | cpp/src/command_classes/SwitchMultilevel.cpp:378-407 | afterwards every index of the version is on the node, and the only new values are those |
| SwitchMultilevelCC.RequestValueIssues | cpp/src/command_classes/SwitchMultilevel.cpp:75-89 | a get is sent if and only if the index is Level and the device answers gets; the answer is true exactly when it is sent and Z-Way succeeds |
| SwitchMultilevelCC.LevelChangeDefaults | cpp/src/command_classes/SwitchMultilevel.cpp:278-317 | absent values give ignoreStartLevel 1, startLevel 0 and duration 0xFFFFFFFF; the step is read only for Inc/Dec |
| SwitchMultilevelCC.StartLevelChangeSends | cpp/src/command_classes/SwitchMultilevel.cpp:274-322 | direction > 3 is refused without a command; any other sends one start with that direction, incDec 0 and step 0xFF, and answers Z-Way's result |
| SwitchMultilevelCC.ButtonsStartAndStop | cpp/src/command_classes/SwitchMultilevel.cpp:112-218 | a pressed Bright/Dim/Inc/Dec starts a change Up/Down/Inc/Dec; a released one stops it |
| SwitchMultilevelCC.SettingsAndOthers | cpp/src/command_classes/SwitchMultilevel.cpp:95-223 | IgnoreStartLevel, StartLevel, Duration and Step only refresh the value, when present, and answer true. TargetValue and unlisted indices answer false and change nothing |
| SwitchMultilevelCC.OldVersionDuration | cpp/src/command_classes/SwitchMultilevel.cpp:246-268 | a level set before version 2 sends the factory-default duration 0xFF |
| SwitchMultilevelCC.SetValueTyped | cpp/src/command_classes/SwitchMultilevel.cpp:95-223 | `SetValue` keeps the node's values typed |
| SwitchMultilevelCC.WatchersDiffer | cpp/src/command_classes/SwitchMultilevel.cpp:337-372 | the multilevel watcher tests `Updated` or `PhantomUpdate` literally: it ignores `Updated \| PhantomUpdate`, which the binary watcher accepts, and accepts a bare `PhantomUpdate` |
| SwitchMultilevelCC.SwitchMultilevel.constructor | cpp/src/command_classes/SwitchMultilevel.cpp:378-407 | a class with the node's typed values and no command issued |
| SwitchMultilevelCC.SwitchMultilevel.RequestState | cpp/src/command_classes/SwitchMultilevel.cpp:61-69 | the commands and answer of `RequestStateSpec` |
| SwitchMultilevelCC.SwitchMultilevel.RequestValue | cpp/src/command_classes/SwitchMultilevel.cpp:75-89 | the commands and answer of `RequestValueSpec` |
| SwitchMultilevelCC.SwitchMultilevel.SetValue | cpp/src/command_classes/SwitchMultilevel.cpp:95-223 | the values, commands and answer of `SetValueSpec`, and the values stay typed |
| SwitchMultilevelCC.SwitchMultilevel.SetValueBasic | cpp/src/command_classes/SwitchMultilevel.cpp:229-240 | Level is refreshed to 1 or 0, not to the raw byte |
| SwitchMultilevelCC.SwitchMultilevel.SetLevel | cpp/src/command_classes/SwitchMultilevel.cpp:246-268 | the set of `SetLevelSpec`, answering Z-Way's result |
| SwitchMultilevelCC.SwitchMultilevel.StartLevelChange | cpp/src/command_classes/SwitchMultilevel.cpp:274-322 | the commands and answer of `StartLevelChangeSpec` |
| SwitchMultilevelCC.SwitchMultilevel.StopLevelChange | cpp/src/command_classes/SwitchMultilevel.cpp:328-331 | one stop command, answering Z-Way's result |
| SwitchMultilevelCC.SwitchMultilevel.Watcher | cpp/src/command_classes/SwitchMultilevel.cpp:337-372 | Level is refreshed to the reported level as a byte on `Updated` or `PhantomUpdate`; anything else changes nothing |
| SwitchMultilevelCC.SwitchMultilevel.CreateVars | cpp/src/command_classes/SwitchMultilevel.cpp:378-407 | with a node, the version's values are created and `level` is watched; without one, nothing changes |
| ManufacturerSpecificCC.Get | cpp/src/command_classes/ManufacturerSpecific.cpp:329 | a value is found only when the node exists, and it has the key |
| ManufacturerSpecificCC.WithRevisionFrame | cpp/src/command_classes/ManufacturerSpecific.cpp:324-368 | a revision setter stores its counter. No other counter and nothing else of the class changes, except the mirrored value |
| ManufacturerSpecificCC.MirrorRevisionValues | cpp/src/command_classes/ManufacturerSpecific.cpp:324-368 | the instance-1 value with the setter's index, when present, reads back the new revision. No other value changes, nor the set of keys |
| ManufacturerSpecificCC.RefreshOtherKey | cpp/src/command_classes/ManufacturerSpecific.cpp:329-333 | refreshing one value leaves every other key's value alone |
| ManufacturerSpecificCC.UnknownNamesDecode | cpp/src/command_classes/ManufacturerSpecific.cpp:97-104 | the names are `Unknown: id=` plus 4 hex digits (16 characters) and `Unknown: type=` plus 4 digits, `, id=` and 4 digits (27 characters). The digits denote the ids |
| ManufacturerSpecificCC.ProductDetailsStored | cpp/src/command_classes/ManufacturerSpecific.cpp:87-121 | the node stores the three ids unchanged and the Unknown names, and nothing else changes |
| ManufacturerSpecificCC.LoadConfigGates | cpp/src/command_classes/ManufacturerSpecific.cpp:239-284 | loading succeeds if and only if the path is non-empty, the file exists and any xmlns is OpenZWave's. Only a success reads. The device protocol is read if and only if the stage is `ManufacturerSpecific1` or no report has arrived yet. Command classes and metadata are always read on success |
| ManufacturerSpecificCC.ProductIdEffects | cpp/src/command_classes/ManufacturerSpecific.cpp:139-172 | `NodeNaming` is always queued, even without a node. With a node, the truncated ids and Unknown names are stored, the static request is cleared and the report is marked received. The protocol is read only at `ManufacturerSpecific1` |
| ManufacturerSpecificCC.HexByte | cpp/src/command_classes/ManufacturerSpecific.cpp:208 | `%02x` of a byte is 2 lower-case hex digits that denote it |
| ManufacturerSpecificCC.SerialRoundTrip | cpp/src/command_classes/ManufacturerSpecific.cpp:203-210 | n bytes give 2n lower-case hex digits, from which the bytes read back in order |
| ManufacturerSpecificCC.SerialHexAppend | cpp/src/command_classes/ManufacturerSpecific.cpp:205-209 | each byte appends its two digits |
| ManufacturerSpecificCC.SerialStored | cpp/src/command_classes/ManufacturerSpecific.cpp:220-227 | a non-empty id with a node is stored in the SerialNumber value, created only if absent. Otherwise nothing changes |
| ManufacturerSpecificCC.WatcherIgnores | cpp/src/command_classes/ManufacturerSpecific.cpp:178-232 | the watcher ignores every change but an update, and every path but `productId` and `serialNumber` |
| ManufacturerSpecificCC.CreateVarsEffects | cpp/src/command_classes/ManufacturerSpecific.cpp:299-318 | only instance 1 with a node does anything. It creates the three revision values, watches `productId` and `serialNumber` and queues `NodeNaming` |
| ManufacturerSpecificCC.CreateRevisionValues | cpp/src/command_classes/ManufacturerSpecific.cpp:303-308 | each absent revision value is created with the counter's value |
| ManufacturerSpecificCC.RevisionPosition | cpp/src/command_classes/ManufacturerSpecific.cpp:303-308 | each counter has one of the three created values |
| ManufacturerSpecificCC.Init | cpp/src/command_classes/ManufacturerSpecific.cpp:73-85 | `Init` succeeds whether or not the device answers gets |
| ManufacturerSpecificCC.RequestState | cpp/src/command_classes/ManufacturerSpecific.cpp:67-71 | `RequestState` succeeds without a request |
| ManufacturerSpecificCC.ManufacturerSpecific.constructor | cpp/src/command_classes/ManufacturerSpecific.cpp:57-61 | the three counters start at 0 and the static value request is set |
| ManufacturerSpecificCC.ManufacturerSpecific.RefreshRevision | cpp/src/command_classes/ManufacturerSpecific.cpp:329-333 | the instance-1 value is refreshed to the revision when present |
| ManufacturerSpecificCC.ManufacturerSpecific.SetLatestConfigRevision | cpp/src/command_classes/ManufacturerSpecific.cpp:324-335 | the new state is `WithRevision` for the latest counter |
| ManufacturerSpecificCC.ManufacturerSpecific.SetFileConfigRevision | cpp/src/command_classes/ManufacturerSpecific.cpp:342-352 | the new state is `WithRevision` for the file counter |
| ManufacturerSpecificCC.ManufacturerSpecific.SetLoadedConfigRevision | cpp/src/command_classes/ManufacturerSpecific.cpp:359-368 | the new state is `WithRevision` for the loaded counter |
| ManufacturerSpecificCC.ManufacturerSpecific.SetProductDetails | cpp/src/command_classes/ManufacturerSpecific.cpp:87-121 | the node takes `ProductDetails` |
| ManufacturerSpecificCC.ManufacturerSpecific.LoadConfigXML | cpp/src/command_classes/ManufacturerSpecific.cpp:239-284 | the reads are those of `LoadConfig`, and the answer is its success |
| ManufacturerSpecificCC.ManufacturerSpecific.ReLoadConfigXML | cpp/src/command_classes/ManufacturerSpecific.cpp:290-293 | the same load, answer dropped |
| ManufacturerSpecificCC.ManufacturerSpecific.SetManufacturerProductId | cpp/src/command_classes/ManufacturerSpecific.cpp:129-172 | the new state is `ProductIdSpec` |
| ManufacturerSpecificCC.ManufacturerSpecific.SerialDeviceId | cpp/src/command_classes/ManufacturerSpecific.cpp:197-218 | the loop builds `DeviceId`: the bytes' hex for a binary serial, the text for a string one, empty otherwise |
| ManufacturerSpecificCC.ManufacturerSpecific.Watcher | cpp/src/command_classes/ManufacturerSpecific.cpp:178-232 | the new state is `WatcherSpec` |
| ManufacturerSpecificCC.ManufacturerSpecific.StoreSerial | cpp/src/command_classes/ManufacturerSpecific.cpp:220-227 | the serial value is created if absent and refreshed, for a non-empty id with a node |
| ManufacturerSpecificCC.ManufacturerSpecific.CreateVars | cpp/src/command_classes/ManufacturerSpecific.cpp:299-318 | the new state is `CreateVarsSpec` |
| LogCalls.BaseName | cpp/src/LogCall.cpp:12-13 | the part after the last '/', or the whole path when it has none; it holds no '/' and ends the path |
| LogCalls.Indent | cpp/src/LogCall.cpp:16-17 | `2·depth` spaces |
| LogCalls.FileNameShape | cpp/src/LogCall.cpp:12-14 | the stored name has no directory part, and only its last four characters are dropped |
| LogCalls.BaseNameOfJoin | cpp/src/LogCall.cpp:12-13 | the base name of `dir/name` is `name` |
| LogCalls.IndentShared | cpp/src/LogCall.cpp:16-27 | entry and exit lines at one depth begin with the same tab and indent |
| LogCalls.Trace.constructor | cpp/src/LogCall.cpp:6 | the static depth starts at 0 |
| LogCalls.LogCall.constructor | cpp/src/LogCall.cpp:8-20 | `func` is the name passed in, `file` is the trimmed base name, the entry line is written at the old depth and the depth grows by 1 |
| LogCalls.LogCall.Destroy | cpp/src/LogCall.cpp:22-28 | the depth drops by 1 and the exit line is written at the new depth |
| LogCalls.TracedCall | cpp/src/LogCall.cpp:8-28 | a constructor/destructor pair leaves the depth unchanged and writes entry and exit lines with the same indent |

## Left out

- Threads, mutexes and events are left out: this is concurrency. The node mutex is a counter (`lockCount`), the ready events are booleans, and the DNS, HTTP and timer threads are not modelled.
- `zway_*` and `zdata_*` calls are left out because Z-Way is a foreign library. Commands are recorded as `ZWayCall`. Whether a device's data exists is a parameter (the `present` set of `Start`, `Setup.nodePresent`). The `zdata` locks around `Start` and `SetManufacturerProductId` are left out.
- TinyXML parsing and `LoadFile`/`SaveFile` are I/O. Documents are records, and a missing or unreadable file is an absent map entry.
- `Node::ReadXML`/`WriteXML`, `Node`'s constructor and its other internals are not part of this model. A node's cache record is a snapshot of the node's fields. A fresh node's query stage is an assumed constant.
- `Options`, `Manager`, `Log::Write` and `printf` are not part of this model. Option values are fields of `Setup`, and logging is dropped.
- `ManufacturerSpecificDB` is not part of this model. Its calls are recorded as `MfsCall` values and its revision counters are fields.
- `encodeDuration` is not part of this model; a multilevel duration is recorded as `Encoded(seconds)`.
- The numeric values of `ValueID` indices, `RequestFlag_Dynamic` and `ZWDataChangeType` come from headers that are not part of this model. They are constants here.
- `Value` reference counting (`Release`) and the `delete value` in the watchers' `Deleted` branch are left out, because memory is not modelled.
- The product-descriptor lookup is commented out in the source, so the descriptor is always absent (ManufacturerSpecific.cpp:93). Only the "Unknown" branch is modelled.
- `LogDriverStatistics`, `GetDriverStatistics` and `GetNodeStatistics` are left out: they are wall-clock timing and field copying.
- `SendMsg` only logs, and `RequestNodeNeighbors` relies on unseen transport. Both are left out.
- The `GetNode*`/`SetNode*` one-line delegations to `Node` are left out.
- The controller commands (`SwitchAllOn`, associations, configuration parameters) are left out, since they delegate to unseen command classes.
- `GetNodeUnsafe` is a plain slot read and carries no contract; `OzwDriver.Driver.GetNode` states its relation to it.
- OzwDriver.Driver.Init: the attempt count and the controller interface are not modelled; `Init` only fails when the driver is exiting.
- OzwDriver.Driver.ReadCache: a cache without `xmlns` would pass a null pointer to `strcmp` (Driver.cpp:453-454), which is undefined behaviour. It is modelled as a rejection.
- SwitchMultilevelCC.SwitchMultilevel.Watcher: the source looks the level value up with the binary switch's Level index 0, which equals the multilevel Level index. The model uses the multilevel index.
- ManufacturerSpecificCC.ManufacturerSpecific.SetManufacturerProductId: the lock wrapper and `_SetManufacturerProductId` are modelled as one method.
- ManufacturerSpecificCC.ManufacturerSpecific.SetProductDetails, ManufacturerSpecificCC.ManufacturerSpecific.LoadConfigXML: the source dereferences the node without a check, so the model requires one.
- SwitchBinaryCC.SwitchBinary.Watcher, SwitchMultilevelCC.SwitchMultilevel.Watcher: the source dereferences the looked-up value without a check, so the model requires it to exist when it is used.
- NetworkKey.PieceByte: models the corrected test, which refuses any `sscanf` result but 1. The source refuses only 0, so for a piece that is blank after trimming (`EOF`) it stores `tempkey[i] & 0xFF`. That as-written path is `NetworkKey.ConversionsAsWritten` (see Findings).
- NetworkKey.ConvertPieces: the loop uses the corrected test, so it stops at a blank piece where the source stores an uninitialised byte and goes on.
- NetworkKey.ParsePieces: uses the corrected conversions, so the key `" ,0,…,0"` fails here where the source accepts it.
- NetworkKey.ParseNetworkKeySpec: states the parse with the corrected test. As written, a blank piece counts as converted and the key above is accepted (`NetworkKey.BlankByteAccepted`).
- NetworkKey.KeyStore.GetNetworkKey: returns `Failure(BadByte(0))` for the key above, where the source sets `keySet` and returns bytes whose first is uninitialised stack memory.
- ConfigRevision.RefreshPolicy, ConfigRevision.RefreshPolicyCases: `AWAKE` calls `GetNode(_nodeId)->IsListeningDevice()` without checking the node (Driver.cpp:2360-2361), so the model requires a node for that option.
- DriverState.RefreshSpec, DriverState.RefreshValid: the same requirement, for the `AWAKE` option.
- OzwDriver.Driver.RefreshNodeConfig, OzwDriver.Driver.RefreshLocked, OzwDriver.Driver.RefreshAwake: the same requirement, for the `AWAKE` option.
- SwitchBinaryCC.SwitchBinary.SetValue, SwitchBinaryCC.SwitchBinary.SetState: from version 2, `SetState` dereferences the `Duration` value without a check (SwitchBinary.cpp:145-146), so the model requires that value (`SetStateReady`).
- SwitchMultilevelCC.SwitchMultilevel.SetValue, SwitchMultilevelCC.SwitchMultilevel.SetLevel: from version 2, `SetLevel` dereferences the `Duration` value without a check (SwitchMultilevel.cpp:250-253), so the model requires that value (`SetLevelReady`, `SetValueReady`).
- ManufacturerSpecificCC.ManufacturerSpecific.ReLoadConfigXML: it calls `LoadConfigXML`, which dereferences the node without a check, so it requires a node as well.
- OzwDriver.Driver.ReplayStore: a store is a sequence in creation order, while the source walks the `ValueStore` map in the order of its keys (Driver.cpp:566-571). The `PollingEnabled` notifications of one node are the same, but their order can differ from the source's.
- DriverState.ReplaySpec: the same creation order as `ReplayStore`, so the model does not promise the source's order of a node's `PollingEnabled` notifications after a cache load.

## Findings

| source | as written | input that shows it | evidently intended | confidence | as-written member | corrected member |
|---|---|---|---|---|---|---|
| cpp/src/Driver.cpp:2162-2169 | a key byte is refused only when `sscanf` returns 0. On a piece that is blank after trimming, `sscanf` returns `EOF`, so the `else` branch stores `tempkey[i] & 0xFF`, an uninitialised stack word | `NetworkKey` option `" ,0,0,0,0,0,0,0,0,0,0,0,0,0,0,0"` | a piece that does not convert is refused (`sscanf(...) != 1`) | not executed | NetworkKey.BlankByteAccepted | NetworkKey.BlankByteRejected |

`NetworkKey.ConversionsAsWritten` models the loop as written. `NetworkKey.Conversions` is the
corrected loop, and `NetworkKey.KeyStore.GetNetworkKey` uses it.
