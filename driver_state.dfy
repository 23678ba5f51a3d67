/**
 * The driver's observable state as one record, and what each state-changing operation of
 * `Driver` makes of it, as functions. `OzwDriver.Driver` holds the same state in fields and
 * arrays; each of its methods is proved to leave `Snapshot()` equal to the function here
 * applied to the old snapshot, and the properties of the operations are lemmas about these
 * functions.
 */
module DriverState {
  import opened Wrappers
  import opened ZWave
  import opened CacheDocument
  import opened Registry
  import CText
  import CR = ConfigRevision
  import NetworkKey

  /** The options the driver reads. The option store is locked before a driver is built, so they
      are fixed for its lifetime; a missing string option reads as "", a missing flag as false
      and a missing number as 0. */
  datatype Options = Options(userPath: string, networkKey: Option<string>, reloadAfterUpdate: string,
                             autoUpdateConfigFile: bool, driverMaxAttempts: int32)

  /** What the driver holds fixed: the network's home id, the controller's node id, its options. */
  datatype Setup = Setup(homeId: uint32, controllerNodeId: uint8, options: Options)

  /** The node table, the notification queue, what the watchers have been given, the user
      directory, the settings the cache restores, the configuration database and `m_exit`. */
  datatype State = State(slots: seq<Option<Node>>, notes: seq<Notification>, delivered: seq<Notification>,
                         files: map<string, FileContent>, settings: CacheSettings, mfs: CR.MfsDb, exit: bool)

  /** Every cached snapshot keeps at most one value per key, as the value store it was saved
      from does. */
  predicate ChildrenDistinct(cs: seq<CacheChild>)
  {
    forall i :: 0 <= i < |cs| ==> DistinctKeys(cs[i].snapshot.values)
  }

  predicate FilesValid(files: map<string, FileContent>)
  {
    forall f :: f in files && files[f].CacheFile? ==> ChildrenDistinct(files[f].cache.children)
  }

  /** The invariant the driver keeps: slot `i` holds only node `i`, every value store has
      distinct keys, and so has every cached snapshot. */
  predicate StateValid(st: State)
  {
    SlotsValid(st.slots) && StoresDistinct(st.slots) && FilesValid(st.files)
  }

  // ------------------------------------------------------------------
  // The cache file
  // ------------------------------------------------------------------

  /** `WriteCache`: nothing is written without a home id or once the driver is exiting;
      otherwise the cache file is replaced by the document of the current table. */
  function WithCacheWritten(setup: Setup, st: State): State
    requires |st.slots| == 256
  {
    if setup.homeId == 0 || st.exit then st
    else st.(files := st.files[CacheFileName(setup.options.userPath, setup.homeId) :=
               CacheFile(CacheDocOf(setup.homeId, setup.controllerNodeId, st.settings, st.mfs.revision, st.slots))])
  }

  /** Whether `ReadCache` loads the file it finds under the cache name. */
  predicate CacheAccepted(setup: Setup, files: map<string, FileContent>)
  {
    var name := CacheFileName(setup.options.userPath, setup.homeId);
    name in files && files[name].CacheFile? &&
    HeaderCheck(files[name].cache, setup.homeId, setup.controllerNodeId).None?
  }

  /** The re-enabled polls of the table: a notification per polled value, and the cache
      rewritten when there was at least one, as each re-enabling `EnablePoll` does. */
  function ReplaySpec(setup: Setup, st: State): State
    requires |st.slots| == 256
  {
    WithPolls(setup, st, TablePollNotes(st.slots, setup.homeId, 256))
  }

  /** The state after re-enabling polls that queue `polls`: the notifications are appended and
      the cache is rewritten when there was at least one. */
  function WithPolls(setup: Setup, st: State, polls: seq<Notification>): State
    requires |st.slots| == 256
  {
    var st1 := st.(notes := st.notes + polls);
    if polls == [] then st1 else WithCacheWritten(setup, st1)
  }

  /** `ReadCache`: a file that is missing or not a cache is ignored; a cache with the right
      namespace and version hands its database revision on even when its ids are wrong; an
      accepted cache restores the settings and the saved nodes and then the saved polls. */
  function ReadCacheSpec(setup: Setup, st: State): State
    requires |st.slots| == 256
  {
    var name := CacheFileName(setup.options.userPath, setup.homeId);
    if name !in st.files || !st.files[name].CacheFile? then st
    else
      var doc := st.files[name].cache;
      var mfs := if RevisionSeen(doc).Some? then st.mfs.(latestRevision := RevisionSeen(doc).value) else st.mfs;
      if HeaderCheck(doc, setup.homeId, setup.controllerNodeId).Some? then st.(mfs := mfs)
      else
        var loaded := LoadChildren(st.slots, st.notes, doc.children, setup.homeId);
        ReplaySpec(setup, st.(mfs := mfs, settings := SettingsAfter(st.settings, doc),
                              slots := loaded.0, notes := loaded.1))
  }

  // ------------------------------------------------------------------
  // Polling
  // ------------------------------------------------------------------

  /** `EnablePoll`: a known value gets the intensity, `PollingEnabled` is queued and the cache
      is rewritten; an unknown value changes nothing. */
  function EnablePollSpec(setup: Setup, st: State, vid: ValueId, n: uint8): State
    requires |st.slots| == 256
  {
    if ValueAt(st.slots, vid).None? then st
    else WithCacheWritten(setup, st.(slots := WithIntensity(st.slots, vid, n),
                                     notes := st.notes + [PollNote(setup.homeId, vid)]))
  }

  function DisableNote(homeId: uint32, vid: ValueId): Notification
  {
    Notification(PollingDisabled, homeId, vid.nodeId, vid, 0, None)
  }

  /** `DisablePoll`: for a known node, `PollingDisabled` is queued and the cache rewritten; the
      value's intensity is left as it was. */
  function DisablePollSpec(setup: Setup, st: State, vid: ValueId): State
    requires |st.slots| == 256
  {
    if st.slots[vid.nodeId].None? then st
    else WithCacheWritten(setup, st.(notes := st.notes + [DisableNote(setup.homeId, vid)]))
  }

  /** `IsPolled`: the value exists and has a non-zero intensity. */
  predicate Polled(slots: seq<Option<Node>>, vid: ValueId)
    requires |slots| == 256
  {
    ValueAt(slots, vid).Some? && ValueAt(slots, vid).value.pollIntensity != 0
  }

  /** `SetPollIntensity`: a known value gets the intensity and the cache is rewritten. */
  function SetPollIntensitySpec(setup: Setup, st: State, vid: ValueId, n: uint8): State
    requires |st.slots| == 256
  {
    if ValueAt(st.slots, vid).None? then st
    else WithCacheWritten(setup, st.(slots := WithIntensity(st.slots, vid, n)))
  }

  // ------------------------------------------------------------------
  // Nodes
  // ------------------------------------------------------------------

  /** The first half of `InitNode` on an occupied slot: the slot is emptied, the cache is
      rewritten without the node and `NodeRemoved` is queued. */
  function RemoveSpec(setup: Setup, st: State, id: uint8): State
    requires |st.slots| == 256
  {
    var cleared := WithCacheWritten(setup, st.(slots := st.slots[id := None]));
    cleared.(notes := cleared.notes + [NodeNote(NodeRemoved, setup.homeId, id)])
  }

  /** `InitNode`: a node already in the slot is removed first (the cache is rewritten without
      it and `NodeRemoved` is queued); then the new node goes in and `NodeAdded` is queued. */
  function InitNodeSpec(setup: Setup, st: State, id: uint8, newNode: bool, secure: bool,
                        protocolInfo: seq<uint8>, length: uint8): State
    requires |st.slots| == 256 && length as int <= |protocolInfo|
  {
    var st1 := if st.slots[id].Some? then RemoveSpec(setup, st, id) else st;
    var node := NewNode(id, newNode, secure, protocolInfo, length,
                        NetworkKey.IsNetworkKeySet(setup.options.networkKey));
    st1.(slots := st1.slots[id := Some(node)], notes := st1.notes + [NodeNote(NodeAdded, setup.homeId, id)])
  }

  /** `Start` after the cache is read: each id the controller reports gets a node. */
  function DiscoverSpec(setup: Setup, st: State, present: set<uint8>, init: bool): State
    requires |st.slots| == 256
  {
    st.(slots := DiscoveredTable(st.slots, present, init),
        notes := st.notes + DiscoverNotes(st.slots, present, setup.homeId, 233))
  }

  /** One id of `Start`'s loop: a reported id whose slot is empty gets `NodeNew` and then
      `InitNode`; a known node goes back to the cache-load stage unless the driver is
      initialised. */
  function DiscoverStep(setup: Setup, st: State, id: uint8, present: set<uint8>, init: bool): State
    requires |st.slots| == 256
  {
    if id !in present then st
    else if st.slots[id].Some? then
      if init then st else st.(slots := st.slots[id := Some(st.slots[id].value.(stage := CacheLoad))])
    else
      InitNodeSpec(setup, st.(notes := st.notes + [NodeNote(NodeNew, setup.homeId, id)]), id, false, false, [], 0)
  }

  /** `Start`'s loop after the ids below `hi`. */
  function DiscoverPrefix(setup: Setup, st: State, present: set<uint8>, init: bool, hi: nat): State
    requires |st.slots| == 256 && hi <= 233
  {
    st.(slots := seq(256, i requires 0 <= i < 256 => if i < hi then Discovered(st.slots[i], i, present, init) else st.slots[i]),
        notes := st.notes + DiscoverNotes(st.slots, present, setup.homeId, hi))
  }

  function StartSpec(setup: Setup, st: State, present: set<uint8>, init: bool): State
    requires |st.slots| == 256
  {
    DiscoverSpec(setup, ReadCacheSpec(setup, st), present, init)
  }

  /** The user directory after `ReloadNode` edits the cache file: the node's first record is
      dropped from a loadable cache; anything else under the name becomes an empty document. */
  function CacheWithout(setup: Setup, files: map<string, FileContent>, id: uint8): map<string, FileContent>
  {
    var name := CacheFileName(setup.options.userPath, setup.homeId);
    files[name := if name in files && files[name].CacheFile?
                  then CacheFile(files[name].cache.(children := RemoveFirstNode(files[name].cache.children, id)))
                  else EmptyFile]
  }

  /** `ReloadNode`: the node's cache record goes, then the node is initialised afresh. */
  function ReloadSpec(setup: Setup, st: State, id: uint8): State
    requires |st.slots| == 256
  {
    InitNodeSpec(setup, st.(files := CacheWithout(setup, st.files, id)), id, false, false, [], 0)
  }

  /** A sleeping node's wake-up queue with a reload queued at its end. */
  function QueuedReload(node: Node, id: uint8): Node
    requires node.wakeUp.Some?
  {
    node.(wakeUp := Some(node.wakeUp.value.(pending := node.wakeUp.value.pending + [ReloadNodeItem(id)])))
  }

  /** `refreshNodeConfig`, after the configuration file of node `id` was replaced. */
  function RefreshSpec(setup: Setup, st: State, id: uint8): State
    requires |st.slots| == 256
    requires CText.ToUpper(setup.options.reloadAfterUpdate) == "AWAKE" ==> st.slots[id].Some?
  {
    var d := CR.RefreshPolicy(setup.options.reloadAfterUpdate, st.slots[id]);
    if d.step.RaiseReloadAlert? then st.(notes := st.notes + [AlertNote(NodeReloadRequired)])
    else if d.step.ReloadNow? then ReloadSpec(setup, st, id)
    else if d.step.QueueReload? && st.slots[id].Some? && st.slots[id].value.wakeUp.Some?
    then st.(slots := st.slots[id := Some(QueuedReload(st.slots[id].value, id))])
    else st
  }

  // ------------------------------------------------------------------
  // Configuration database answers
  // ------------------------------------------------------------------

  function ProcessConfigRevisionSpec(setup: Setup, st: State, r: CR.DnsResult): State
    requires |st.slots| == 256
  {
    var id := r.request.nodeId;
    var o := CR.ProcessConfigRevision(r, st.slots[id], st.mfs, setup.options.autoUpdateConfigFile, setup.homeId);
    st.(slots := st.slots[id := o.node], mfs := o.mfs, notes := st.notes + o.notes)
  }

  /** The events other threads submit to the driver: a DNS answer, or a finished download and
      whether it succeeded. */
  datatype EventMsg = DnsEvent(result: CR.DnsResult) | HttpEvent(download: CR.HttpDownload, ok: bool)

  /** `ProcessEventMsg` on event `e`: a DNS answer goes to `processConfigRevision`, a download
      to `processDownload`. */
  function EventSpec(setup: Setup, st: State, e: EventMsg): State
    requires |st.slots| == 256
  {
    match e
    case DnsEvent(r) => ProcessConfigRevisionSpec(setup, st, r)
    case HttpEvent(d, ok) => WithOutcome(st, CR.ProcessDownload(d, ok, st.mfs))
  }

  /** The database's outcome of an operation, applied to the driver's state. */
  function WithOutcome(st: State, o: CR.DownloadOutcome): State
  {
    st.(mfs := o.mfs, notes := st.notes + o.notes)
  }

  // ------------------------------------------------------------------
  // Buttons
  // ------------------------------------------------------------------

  function ButtonFilePath(setup: Setup): string
  {
    setup.options.userPath + ButtonFileName
  }

  /** `SaveButtons`: the button file is replaced by the document of the current table. */
  function SaveButtonsSpec(setup: Setup, st: State): State
    requires |st.slots| == 256
  {
    st.(files := st.files[ButtonFilePath(setup) := ButtonFile(ButtonDocOf(st.slots))])
  }

  /** `ReadButtons(id)`: with an accepted button file and a node in the slot, the node's
      button map is what the reader builds from it, and its notifications are queued. */
  function ReadButtonsSpec(setup: Setup, st: State, id: uint8): State
    requires |st.slots| == 256
  {
    var name := ButtonFilePath(setup);
    if name !in st.files || !st.files[name].ButtonFile? || !ButtonDocAccepted(st.files[name].buttons)
       || st.slots[id].None?
    then st
    else
      var r := ReadButtonNodes(st.slots[id], id, st.slots[id].value.buttonMap, st.notes,
                               st.files[name].buttons.nodes, setup.homeId);
      WithButtons(st, id, r)
  }

  /** The state where node `id` has the button map, and the queue the notifications, of `b`. */
  function WithButtons(st: State, id: uint8, b: ButtonLoad): State
    requires |st.slots| == 256 && st.slots[id].Some?
  {
    st.(slots := st.slots[id := Some(st.slots[id].value.(buttonMap := b.buttons))], notes := b.notes)
  }

  /** A second change of a node's buttons overrides the first. */
  lemma WithButtonsAgain(st: State, id: uint8, a: ButtonLoad, b: ButtonLoad)
    requires |st.slots| == 256 && st.slots[id].Some?
    ensures WithButtons(WithButtons(st, id, a), id, b) == WithButtons(st, id, b)
  {
    var n := st.slots[id].value;
    assert st.slots[id := Some(n.(buttonMap := a.buttons))][id := Some(n.(buttonMap := b.buttons))]
        == st.slots[id := Some(n.(buttonMap := b.buttons))];
  }

  /** Writing back a node's own buttons and the pending notifications changes nothing. */
  lemma WithButtonsSame(st: State, id: uint8, aborted: bool)
    requires |st.slots| == 256 && st.slots[id].Some?
    ensures WithButtons(st, id, ButtonLoad(st.slots[id].value.buttonMap, st.notes, aborted)) == st
  {
    assert st.slots[id := Some(st.slots[id].value)] == st.slots;
  }

  /** Changing a node's button map keeps the invariant. */
  lemma WithButtonsValid(st: State, id: uint8, b: ButtonLoad)
    requires StateValid(st) && st.slots[id].Some?
    ensures StateValid(WithButtons(st, id, b))
  {
    PutNode(st.slots, id, Some(st.slots[id].value.(buttonMap := b.buttons)));
  }

  // ------------------------------------------------------------------
  // The driver thread
  // ------------------------------------------------------------------

  /** How `DriverThreadProc` ends: `Init` succeeded, the attempts ran out, the exit event was
      signalled during a wait, or (in the model) the scripted waits ran out. */
  datatype ThreadEnd = Started | GaveUp | ExitSignalled | NoMoreSignals

  datatype ThreadRun = ThreadRun(end: ThreadEnd, attempts: uint32, delays: seq<nat>)

  /** The wait before the next attempt: 5 seconds for the first 24 retries, 30 after. */
  function RetryDelay(attempts: nat): nat
  {
    if attempts < 25 then 5000 else 30000
  }

  /** The thread's loop: `Init` succeeds unless the driver is exiting; a failure counts an
      attempt, gives up once `DriverMaxAttempts` (read as unsigned, 0 meaning no limit) is
      reached, and otherwise waits. `signals[k]` says whether the exit event is signalled during
      the `k`-th wait. */
  function RunThread(exit: bool, maxAttempts: uint32, signals: seq<bool>, attempts: uint32,
                     delays: seq<nat>): ThreadRun
    decreases |signals|
  {
    if !exit then ThreadRun(Started, attempts, delays)
    else
      var a := ToUInt32(attempts + 1);
      if maxAttempts != 0 && a >= maxAttempts then ThreadRun(GaveUp, a, delays)
      else if signals == [] then ThreadRun(NoMoreSignals, a, delays)
      else if signals[0] then ThreadRun(ExitSignalled, a, delays + [RetryDelay(a)])
      else RunThread(exit, maxAttempts, signals[1..], a, delays + [RetryDelay(a)])
  }

  /** The waits of the first `n` retries. */
  function Delays(n: nat): (ds: seq<nat>)
    ensures |ds| == n
  {
    seq(n, i requires 0 <= i < n => RetryDelay(i + 1))
  }

  // ------------------------------------------------------------------
  // Lemmas
  // ------------------------------------------------------------------

  /** The snapshots the writer saves keep distinct keys. */
  lemma {:induction false} CachedChildrenDistinct(slots: seq<Option<Node>>, k: nat)
    requires StoresDistinct(slots)
    ensures ChildrenDistinct(CachedChildren(slots, k))
    decreases |slots| - k
  {
    if k < |slots| {
      CachedChildrenDistinct(slots, k + 1);
      var cs := CachedChildren(slots, k);
      var rest := CachedChildren(slots, k + 1);
      if Cached(slots[k]) {
        assert cs == [CacheChild("Node", Some(slots[k].value.id), slots[k].value)] + rest;
        forall i | 0 <= i < |cs| ensures DistinctKeys(cs[i].snapshot.values) {
          if i > 0 { assert cs[i] == rest[i - 1]; }
        }
      } else {
        assert cs == rest;
      }
    }
  }

  /** Every record the writer saves is the node of the slot its id names. */
  lemma {:induction false} CachedChildrenIds(slots: seq<Option<Node>>, k: nat)
    requires SlotsValid(slots)
    ensures forall c :: c in CachedChildren(slots, k) ==>
              c.id.Some? && 0 <= c.id.value < 256 && Cached(slots[c.id.value]) && c.snapshot == slots[c.id.value].value
    decreases 256 - k
  {
    if k < 256 {
      CachedChildrenIds(slots, k + 1);
    }
  }

  lemma WriteKeepsFilesValid(setup: Setup, st: State)
    requires StateValid(st)
    ensures StateValid(WithCacheWritten(setup, st))
    ensures WithCacheWritten(setup, st).slots == st.slots && WithCacheWritten(setup, st).notes == st.notes
  {
    CachedChildrenDistinct(st.slots, 0);
  }

  /** Writing the cache twice in a row gives what writing it once gives. */
  lemma WriteCacheIdempotent(setup: Setup, st: State)
    requires |st.slots| == 256
    ensures WithCacheWritten(setup, WithCacheWritten(setup, st)) == WithCacheWritten(setup, st)
  {
  }

  /** Putting a node with its own id and a store with distinct keys into a slot keeps the table
      invariant. */
  lemma PutNode(slots: seq<Option<Node>>, id: uint8, n: Option<Node>)
    requires SlotsValid(slots) && StoresDistinct(slots)
    requires n.Some? ==> n.value.id == id && DistinctKeys(n.value.values)
    ensures SlotsValid(slots[id := n]) && StoresDistinct(slots[id := n])
  {
  }

  /** Loading cache records with distinct keys keeps the table invariant. */
  lemma {:induction false} LoadChildrenValid(slots: seq<Option<Node>>, notes: seq<Notification>,
                                             children: seq<CacheChild>, homeId: uint32)
    requires SlotsValid(slots) && StoresDistinct(slots) && ChildrenDistinct(children)
    ensures SlotsValid(LoadChildren(slots, notes, children, homeId).0)
    ensures StoresDistinct(LoadChildren(slots, notes, children, homeId).0)
    decreases |children|
  {
    if children != [] {
      var c := children[0];
      assert DistinctKeys(c.snapshot.values);
      assert ChildrenDistinct(children[1..]) by {
        forall i | 0 <= i < |children[1..]| ensures DistinctKeys(children[1..][i].snapshot.values) {
          assert children[1..][i] == children[i + 1];
        }
      }
      if IsNodeTag(c.tag) && c.id.Some? {
        var id := ToUInt8(c.id.value);
        PutNode(slots, id, Some(RestoreNode(id, c.snapshot)));
        LoadChildrenValid(slots[id := Some(RestoreNode(id, c.snapshot))],
                          notes + [NodeNote(NodeAdded, homeId, id)], children[1..], homeId);
      } else {
        LoadChildrenValid(slots, notes, children[1..], homeId);
      }
    }
  }

  /** One more re-enabled poll: its notification is queued and the cache rewritten. */
  lemma PollsStep(setup: Setup, st: State, polls: seq<Notification>, n: Notification)
    requires |st.slots| == 256
    ensures var p := WithPolls(setup, st, polls);
            WithCacheWritten(setup, p.(notes := p.notes + [n])) == WithPolls(setup, st, polls + [n])
  {
    assert st.notes + polls + [n] == st.notes + (polls + [n]);
  }

  /** Re-enabling two runs of polls one after the other is re-enabling the joined run. */
  lemma PollsConcat(setup: Setup, st: State, a: seq<Notification>, b: seq<Notification>)
    requires |st.slots| == 256
    ensures WithPolls(setup, WithPolls(setup, st, a), b) == WithPolls(setup, st, a + b)
  {
    assert st.notes + a + b == st.notes + (a + b);
  }

  lemma PollsValid(setup: Setup, st: State, polls: seq<Notification>)
    requires StateValid(st)
    ensures StateValid(WithPolls(setup, st, polls)) && WithPolls(setup, st, polls).slots == st.slots
  {
    WriteKeepsFilesValid(setup, st.(notes := st.notes + polls));
  }

  /** Each poll the reload re-enables leaves the table as it was and re-writes the cache. */
  lemma ReplayStep(setup: Setup, st: State, i: uint8, j: nat)
    requires StateValid(st) && st.slots[i].Some? && j < |st.slots[i].value.values|
    ensures var v := st.slots[i].value.values[j];
            var vid := ValueId(setup.homeId, i, v.key);
            ValueAt(st.slots, vid).Some? &&
            EnablePollSpec(setup, st, vid, v.pollIntensity) ==
              WithCacheWritten(setup, st.(notes := st.notes + [PollNote(setup.homeId, vid)]))
  {
    var vs := st.slots[i].value.values;
    LookupUnique(vs, vs[j].key);
    ReplayKeepsTable(st.slots, setup.homeId, i, j);
  }

  lemma ReadCacheValid(setup: Setup, st: State)
    requires StateValid(st)
    ensures StateValid(ReadCacheSpec(setup, st)) && |ReadCacheSpec(setup, st).slots| == 256
  {
    var name := CacheFileName(setup.options.userPath, setup.homeId);
    if name in st.files && st.files[name].CacheFile? {
      var doc := st.files[name].cache;
      if HeaderCheck(doc, setup.homeId, setup.controllerNodeId).None? {
        LoadChildrenValid(st.slots, st.notes, doc.children, setup.homeId);
        var mfs := if RevisionSeen(doc).Some? then st.mfs.(latestRevision := RevisionSeen(doc).value) else st.mfs;
        var loaded := LoadChildren(st.slots, st.notes, doc.children, setup.homeId);
        var st1 := st.(mfs := mfs, settings := SettingsAfter(st.settings, doc), slots := loaded.0, notes := loaded.1);
        WriteKeepsFilesValid(setup, st1.(notes := st1.notes + TablePollNotes(st1.slots, setup.homeId, 256)));
      }
    }
  }

  /** A cache that is not accepted changes nothing but, possibly, the latest database revision. */
  lemma ReadCacheRejected(setup: Setup, st: State)
    requires |st.slots| == 256 && !CacheAccepted(setup, st.files)
    ensures ReadCacheSpec(setup, st) == st.(mfs := ReadCacheSpec(setup, st).mfs)
    ensures ReadCacheSpec(setup, st).mfs.revision == st.mfs.revision
    ensures ReadCacheSpec(setup, st).mfs.calls == st.mfs.calls
  {
  }

  /** Reading back the cache the driver wrote, for a home id other than 0 before the driver
      exits, restores the settings and the database revision, puts every node that was cached
      back into its slot and leaves the other slots as they are; each restored node is
      announced, then each of its polls. */
  lemma CacheRoundTrip(setup: Setup, written: State, st: State)
    requires SlotsValid(written.slots) && |st.slots| == 256
    requires setup.homeId != 0 && !written.exit
    requires st.files == WithCacheWritten(setup, written).files
    ensures CacheAccepted(setup, st.files)
    ensures var r := ReadCacheSpec(setup, st);
            r.settings == written.settings && r.mfs.latestRevision == written.mfs.revision &&
            (forall i :: 0 <= i < 256 ==> r.slots[i] == if Cached(written.slots[i]) then written.slots[i] else st.slots[i]) &&
            r.notes == st.notes + AddedNotes(written.slots, 0, setup.homeId)
                         + TablePollNotes(r.slots, setup.homeId, 256)
  {
    var h := setup.homeId;
    var c := setup.controllerNodeId;
    WrittenHeaderAccepted(h, c, written.settings, written.mfs.revision, written.slots);
    WrittenRevisionSeen(h, c, written.settings, written.mfs.revision, written.slots);
    WrittenSettingsRestored(h, c, written.settings, written.mfs.revision, written.slots, st.settings);
    LoadCachedChildren(written.slots, st.slots, st.notes, h, 0);
    LoadCachedNotes(written.slots, st.slots, st.notes, h, 0);
    var name := CacheFileName(setup.options.userPath, h);
    var doc := CacheDocOf(h, c, written.settings, written.mfs.revision, written.slots);
    assert st.files[name] == CacheFile(doc);
    var loaded := LoadChildren(st.slots, st.notes, CachedChildren(written.slots, 0), h);
    var mid := st.(mfs := st.mfs.(latestRevision := written.mfs.revision), settings := written.settings,
                   slots := loaded.0, notes := loaded.1);
    assert ReadCacheSpec(setup, st) == ReplaySpec(setup, mid);
  }

  /** `EnablePoll` on a known value sets its intensity, keeps every other value, announces the
      poll and keeps the invariant; on an unknown value it changes nothing. */
  lemma EnablePollEffect(setup: Setup, st: State, vid: ValueId, n: uint8)
    requires StateValid(st)
    ensures var r := EnablePollSpec(setup, st, vid, n);
            StateValid(r) &&
            (ValueAt(st.slots, vid).Some? ==>
               ValueAt(r.slots, vid) == Some(ValueAt(st.slots, vid).value.(pollIntensity := n)) &&
               r.notes == st.notes + [PollNote(setup.homeId, vid)]) &&
            (ValueAt(st.slots, vid).None? ==> r == st) &&
            (forall w: ValueId :: w.nodeId != vid.nodeId || w.key != vid.key ==> ValueAt(r.slots, w) == ValueAt(st.slots, w))
  {
    WithIntensityEffect(st.slots, vid, n);
    forall w: ValueId | w.nodeId != vid.nodeId || w.key != vid.key
      ensures ValueAt(EnablePollSpec(setup, st, vid, n).slots, w) == ValueAt(st.slots, w)
    {
      WithIntensityOthers(st.slots, vid, n, w);
    }
    if ValueAt(st.slots, vid).Some? {
      WriteKeepsFilesValid(setup, st.(slots := WithIntensity(st.slots, vid, n),
                                      notes := st.notes + [PollNote(setup.homeId, vid)]));
    }
  }

  /** After `EnablePoll(vid, n)` on a known value, `IsPolled(vid)` holds exactly when `n` is not 0. */
  lemma EnableThenPolled(setup: Setup, st: State, vid: ValueId, n: uint8)
    requires StateValid(st) && ValueAt(st.slots, vid).Some?
    ensures Polled(EnablePollSpec(setup, st, vid, n).slots, vid) <==> n != 0
  {
    WithIntensityEffect(st.slots, vid, n);
  }

  /** `DisablePoll` does not stop a value from being polled: `IsPolled` answers as before. */
  lemma DisableKeepsPolled(setup: Setup, st: State, vid: ValueId, w: ValueId)
    requires StateValid(st)
    ensures StateValid(DisablePollSpec(setup, st, vid))
    ensures Polled(DisablePollSpec(setup, st, vid).slots, w) == Polled(st.slots, w)
  {
    if st.slots[vid.nodeId].Some? {
      WriteKeepsFilesValid(setup, st.(notes := st.notes + [DisableNote(setup.homeId, vid)]));
    }
  }

  /** `SetPollIntensity` changes only the named value's intensity, queues nothing and keeps the
      invariant. */
  lemma SetPollIntensityEffect(setup: Setup, st: State, vid: ValueId, n: uint8)
    requires StateValid(st)
    ensures var r := SetPollIntensitySpec(setup, st, vid, n);
            StateValid(r) && r.notes == st.notes &&
            ValueAt(r.slots, vid) ==
              (if ValueAt(st.slots, vid).Some? then Some(ValueAt(st.slots, vid).value.(pollIntensity := n)) else None) &&
            (forall w: ValueId :: w.nodeId != vid.nodeId || w.key != vid.key ==> ValueAt(r.slots, w) == ValueAt(st.slots, w))
  {
    WithIntensityEffect(st.slots, vid, n);
    forall w: ValueId | w.nodeId != vid.nodeId || w.key != vid.key
      ensures ValueAt(SetPollIntensitySpec(setup, st, vid, n).slots, w) == ValueAt(st.slots, w)
    {
      WithIntensityOthers(st.slots, vid, n, w);
    }
    if ValueAt(st.slots, vid).Some? {
      WriteKeepsFilesValid(setup, st.(slots := WithIntensity(st.slots, vid, n)));
    }
  }

  /** Removing a node keeps the invariant and empties only its slot. */
  lemma RemoveValid(setup: Setup, st: State, id: uint8)
    requires StateValid(st)
    ensures StateValid(RemoveSpec(setup, st, id)) && RemoveSpec(setup, st, id).slots == st.slots[id := None]
  {
    PutNode(st.slots, id, None);
    WriteKeepsFilesValid(setup, st.(slots := st.slots[id := None]));
  }

  /** `InitNode` installs a node with the slot's id and no values, queues `NodeRemoved` exactly
      when the slot was occupied and `NodeAdded` last, rewrites the cache only in that case,
      touches no other slot and keeps the invariant. */
  lemma InitNodeEffect(setup: Setup, st: State, id: uint8, newNode: bool, secure: bool,
                       protocolInfo: seq<uint8>, length: uint8)
    requires StateValid(st) && length as int <= |protocolInfo|
    ensures var r := InitNodeSpec(setup, st, id, newNode, secure, protocolInfo, length);
            StateValid(r) &&
            r.slots[id].Some? && r.slots[id].value.id == id && r.slots[id].value.values == [] &&
            r.slots[id].value.addingNode == newNode &&
            (forall i :: 0 <= i < 256 && i != id ==> r.slots[i] == st.slots[i]) &&
            r.notes == st.notes + (if st.slots[id].Some? then [NodeNote(NodeRemoved, setup.homeId, id)] else [])
                                + [NodeNote(NodeAdded, setup.homeId, id)] &&
            (st.slots[id].None? ==> r.files == st.files) &&
            (st.slots[id].Some? ==> r.files == WithCacheWritten(setup, st.(slots := st.slots[id := None])).files)
  {
    var node := NewNode(id, newNode, secure, protocolInfo, length,
                        NetworkKey.IsNetworkKeySet(setup.options.networkKey));
    if st.slots[id].Some? {
      PutNode(st.slots, id, None);
      var cleared := WithCacheWritten(setup, st.(slots := st.slots[id := None]));
      WriteKeepsFilesValid(setup, st.(slots := st.slots[id := None]));
      PutNode(cleared.slots, id, Some(node));
      assert RemoveSpec(setup, st, id).slots == cleared.slots;
    } else {
      PutNode(st.slots, id, Some(node));
    }
  }

  /** A node the driver is asked to reload has no record left in the cache afterwards when its
      slot was occupied (the cache is rewritten from the table without it); with an empty slot
      only the first record with its id is dropped. */
  lemma ReloadForgetsNode(setup: Setup, st: State, id: uint8)
    requires StateValid(st) && setup.homeId != 0 && !st.exit
    ensures var r := ReloadSpec(setup, st, id);
            var name := CacheFileName(setup.options.userPath, setup.homeId);
            StateValid(r) && name in r.files && r.slots[id] == Some(FreshNode(id)) &&
            (st.slots[id].Some? ==>
               r.files[name].CacheFile? &&
               forall c :: c in r.files[name].cache.children ==> !IsNodeElement(c, id)) &&
            (st.slots[id].None? && name in st.files && st.files[name].CacheFile? ==>
               r.files[name] == CacheFile(st.files[name].cache.(children := RemoveFirstNode(st.files[name].cache.children, id))))
  {
    var name := CacheFileName(setup.options.userPath, setup.homeId);
    var st0 := st.(files := CacheWithout(setup, st.files, id));
    assert FilesValid(st0.files) by {
      if name in st.files && st.files[name].CacheFile? {
        RemoveFirstNodeKeeps(st.files[name].cache.children, id);
      }
    }
    InitNodeEffect(setup, st0, id, false, false, [], 0);
    if st.slots[id].Some? {
      var table := st.slots[id := None];
      CachedChildrenIds(table, 0);
      var r := ReloadSpec(setup, st, id);
      forall c | c in r.files[name].cache.children ensures !IsNodeElement(c, id) {
        assert c in CachedChildren(table, 0);
      }
    }
  }

  /** `Start` gives a node to every id the controller reports and keeps the invariant. */
  lemma StartEffect(setup: Setup, st: State, present: set<uint8>, init: bool)
    requires StateValid(st)
    ensures var r := StartSpec(setup, st, present, init);
            StateValid(r) && (forall i :: 1 <= i <= 232 && i in present ==> r.slots[i].Some?)
  {
    ReadCacheValid(setup, st);
    var st1 := ReadCacheSpec(setup, st);
    DiscoveredTableFacts(st1.slots, present, init);
    var t := DiscoveredTable(st1.slots, present, init);
    assert StoresDistinct(t) by {
      forall i | 0 <= i < 256 && t[i].Some? ensures DistinctKeys(t[i].value.values) {
        if st1.slots[i].None? { assert t[i] == Some(FreshNode(i)); }
      }
    }
  }

  /** The loop starts from the state it is given ... */
  lemma DiscoverFirst(setup: Setup, st: State, present: set<uint8>, init: bool)
    requires |st.slots| == 256
    ensures DiscoverPrefix(setup, st, present, init, 1) == st
  {
    assert DiscoverPrefix(setup, st, present, init, 1).slots == st.slots;
  }

  /** ... each id takes it one step further ... */
  lemma DiscoverNext(setup: Setup, st: State, present: set<uint8>, init: bool, id: uint8)
    requires |st.slots| == 256 && 1 <= id <= 232
    ensures DiscoverStep(setup, DiscoverPrefix(setup, st, present, init, id as nat), id, present, init)
            == DiscoverPrefix(setup, st, present, init, id as nat + 1)
  {
    var p := DiscoverPrefix(setup, st, present, init, id as nat);
    var q := DiscoverPrefix(setup, st, present, init, id as nat + 1);
    assert p.slots[id] == st.slots[id];
    if id in present && st.slots[id].None? {
      var node := NewNode(id, false, false, [], 0, NetworkKey.IsNetworkKeySet(setup.options.networkKey));
      assert node == FreshNode(id);
    }
    assert DiscoverStep(setup, p, id, present, init).slots == q.slots;
  }

  /** ... and ends where `Start` does, keeping the invariant throughout. */
  lemma DiscoverLast(setup: Setup, st: State, present: set<uint8>, init: bool)
    requires |st.slots| == 256
    ensures DiscoverPrefix(setup, st, present, init, 233) == DiscoverSpec(setup, st, present, init)
  {
    assert DiscoverPrefix(setup, st, present, init, 233).slots == DiscoveredTable(st.slots, present, init);
  }

  lemma DiscoverPrefixValid(setup: Setup, st: State, present: set<uint8>, init: bool, hi: nat)
    requires StateValid(st) && hi <= 233
    ensures StateValid(DiscoverPrefix(setup, st, present, init, hi))
  {
    var t := DiscoverPrefix(setup, st, present, init, hi).slots;
    assert SlotsValid(t);
    assert StoresDistinct(t) by {
      forall i | 0 <= i < 256 && t[i].Some? ensures DistinctKeys(t[i].value.values) {
        if st.slots[i].None? { assert t[i] == Some(FreshNode(i)); }
      }
    }
  }

  /** A sleeping node's wake-up queue gets the reload appended; nothing else of the node
      changes, and the invariant holds. */
  lemma QueuedReloadEffect(slots: seq<Option<Node>>, id: uint8)
    requires SlotsValid(slots) && StoresDistinct(slots)
    requires slots[id].Some? && slots[id].value.wakeUp.Some?
    ensures var n := QueuedReload(slots[id].value, id);
            SlotsValid(slots[id := Some(n)]) && StoresDistinct(slots[id := Some(n)]) &&
            n.wakeUp.value.pending == slots[id].value.wakeUp.value.pending + [ReloadNodeItem(id)] &&
            n.wakeUp.value.awake == slots[id].value.wakeUp.value.awake &&
            n.(wakeUp := slots[id].value.wakeUp) == slots[id].value
  {
  }

  lemma RefreshValid(setup: Setup, st: State, id: uint8)
    requires StateValid(st)
    requires CText.ToUpper(setup.options.reloadAfterUpdate) == "AWAKE" ==> st.slots[id].Some?
    ensures StateValid(RefreshSpec(setup, st, id))
  {
    var d := CR.RefreshPolicy(setup.options.reloadAfterUpdate, st.slots[id]);
    if d.step.ReloadNow? {
      if setup.homeId != 0 && !st.exit {
        ReloadForgetsNode(setup, st, id);
      } else {
        ReloadTableOnly(setup, st, id);
      }
    } else if d.step.QueueReload? && st.slots[id].Some? && st.slots[id].value.wakeUp.Some? {
      QueuedReloadEffect(st.slots, id);
    }
  }

  lemma ReloadTableOnly(setup: Setup, st: State, id: uint8)
    requires StateValid(st)
    ensures StateValid(ReloadSpec(setup, st, id))
  {
    CacheWithoutValid(setup, st, id);
    InitNodeEffect(setup, st.(files := CacheWithout(setup, st.files, id)), id, false, false, [], 0);
  }

  /** Dropping a node's record from the cache file keeps the invariant. */
  lemma CacheWithoutValid(setup: Setup, st: State, id: uint8)
    requires StateValid(st)
    ensures StateValid(st.(files := CacheWithout(setup, st.files, id)))
  {
    var name := CacheFileName(setup.options.userPath, setup.homeId);
    if name in st.files && st.files[name].CacheFile? {
      RemoveFirstNodeKeeps(st.files[name].cache.children, id);
    }
  }

  lemma {:induction false} RemoveFirstNodeKeeps(cs: seq<CacheChild>, id: uint8)
    requires ChildrenDistinct(cs)
    ensures ChildrenDistinct(RemoveFirstNode(cs, id))
  {
    if cs != [] && !IsNodeElement(cs[0], id) {
      assert ChildrenDistinct(cs[1..]) by {
        forall i | 0 <= i < |cs[1..]| ensures DistinctKeys(cs[1..][i].snapshot.values) {
          assert cs[1..][i] == cs[i + 1];
        }
      }
      RemoveFirstNodeKeeps(cs[1..], id);
      var rs := RemoveFirstNode(cs, id);
      forall i | 0 <= i < |rs| ensures DistinctKeys(rs[i].snapshot.values) {
        if i > 0 { assert rs[i] == RemoveFirstNode(cs[1..], id)[i - 1]; }
      }
    } else if cs != [] {
      forall i | 0 <= i < |cs[1..]| ensures DistinctKeys(cs[1..][i].snapshot.values) {
        assert cs[1..][i] == cs[i + 1];
      }
    }
  }

  /** A database answer changes only the answered node's latest configuration revision. */
  lemma ProcessConfigRevisionValid(setup: Setup, st: State, r: CR.DnsResult)
    requires StateValid(st)
    ensures StateValid(ProcessConfigRevisionSpec(setup, st, r))
    ensures var id := r.request.nodeId;
            var s := ProcessConfigRevisionSpec(setup, st, r).slots;
            (forall i :: 0 <= i < 256 && i != id ==> s[i] == st.slots[i]) &&
            (st.slots[id].None? ==> s[id].None?) &&
            (st.slots[id].Some? ==>
               s[id].Some? && s[id].value.(latestConfigRevision := st.slots[id].value.latestConfigRevision) == st.slots[id].value)
  {
  }

  /** The button reader only changes the requested node's button map. */
  lemma ReadButtonsValid(setup: Setup, st: State, id: uint8)
    requires StateValid(st)
    ensures StateValid(ReadButtonsSpec(setup, st, id))
    ensures var s := ReadButtonsSpec(setup, st, id).slots;
            (forall i :: 0 <= i < 256 && i != id ==> s[i] == st.slots[i]) &&
            (st.slots[id].Some? <==> s[id].Some?) &&
            (st.slots[id].Some? ==> s[id].value.(buttonMap := st.slots[id].value.buttonMap) == st.slots[id].value)
  {
  }

  /** Saving the buttons and reading them back for a node leaves its button map as it was and
      announces each button once, in button-id order. */
  lemma ButtonsSaveRead(setup: Setup, st: State, id: uint8)
    requires StateValid(st) && 1 <= id && st.slots[id].Some?
    ensures var r := ReadButtonsSpec(setup, SaveButtonsSpec(setup, st), id);
            r.slots == st.slots &&
            r.notes == st.notes + ButtonNotes(st.slots[id].value.buttonMap, 0, setup.homeId)
  {
    var bm := st.slots[id].value.buttonMap;
    var saved := SaveButtonsSpec(setup, st);
    var doc := ButtonDocOf(st.slots);
    assert saved == st.(files := st.files[ButtonFilePath(setup) := ButtonFile(doc)]);
    WrittenButtonsAccepted(st.slots);
    ReadButtonsFrom(setup, saved, id, doc);
    ReadSavedNodes(st.slots, id, st.slots[id], bm, st.notes, setup.homeId, 1);
    assert bm + bm == bm;
    SameSlot(st.slots, id);
  }

  /** Saving the buttons, re-creating node `id` with `InitNode` (which leaves it no buttons) and
      reading the buttons back for it restores the button map the node had when they were saved,
      and announces each saved button once, in button-id order; the rest of the re-created
      table is untouched. */
  lemma ButtonsSaveInitRead(setup: Setup, st: State, id: uint8, newNode: bool, secure: bool,
                            protocolInfo: seq<uint8>, length: uint8)
    requires StateValid(st) && 1 <= id && st.slots[id].Some? && length as int <= |protocolInfo|
    ensures var re := InitNodeSpec(setup, SaveButtonsSpec(setup, st), id, newNode, secure, protocolInfo, length);
            var r := ReadButtonsSpec(setup, re, id);
            var bm := st.slots[id].value.buttonMap;
            re.slots[id].Some? && re.slots[id].value.buttonMap == map[] &&
            r.slots == re.slots[id := Some(re.slots[id].value.(buttonMap := bm))] &&
            r.notes == re.notes + ButtonNotes(bm, 0, setup.homeId)
  {
    var bm := st.slots[id].value.buttonMap;
    var saved := SaveButtonsSpec(setup, st);
    var doc := ButtonDocOf(st.slots);
    var name := ButtonFilePath(setup);
    assert saved.files[name] == ButtonFile(doc);
    WrittenButtonsAccepted(st.slots);
    CacheNameIsNotButtonName(setup);
    var re := InitNodeSpec(setup, saved, id, newNode, secure, protocolInfo, length);
    assert re.files[name] == ButtonFile(doc);
    ReadButtonsFrom(setup, re, id, doc);
    ReadSavedNodes(st.slots, id, re.slots[id], map[], re.notes, setup.homeId, 1);
    assert map[] + bm == bm;
  }

  /** The cache file and the button file live under different names in the user path. */
  lemma CacheNameIsNotButtonName(setup: Setup)
    ensures CacheFileName(setup.options.userPath, setup.homeId) != ButtonFilePath(setup)
  {
    var u := setup.options.userPath;
    assert CacheFileName(u, setup.homeId)[|u|] == 'o';
    assert ButtonFilePath(setup)[|u|] == 'z';
  }

  lemma SameSlot(slots: seq<Option<Node>>, id: uint8)
    requires |slots| == 256 && slots[id].Some?
    ensures slots[id := Some(slots[id].value.(buttonMap := slots[id].value.buttonMap))] == slots
  {
    assert slots[id].value.(buttonMap := slots[id].value.buttonMap) == slots[id].value;
  }

  lemma ReadButtonsFrom(setup: Setup, st: State, id: uint8, doc: ButtonDoc)
    requires |st.slots| == 256 && st.slots[id].Some? && ButtonDocAccepted(doc)
    requires ButtonFilePath(setup) in st.files && st.files[ButtonFilePath(setup)] == ButtonFile(doc)
    ensures var node := st.slots[id].value;
            var r := ReadButtonNodes(st.slots[id], id, node.buttonMap, st.notes, doc.nodes, setup.homeId);
            ReadButtonsSpec(setup, st, id) == st.(slots := st.slots[id := Some(node.(buttonMap := r.buttons))], notes := r.notes)
  {
  }

  /** A thread whose `Init` succeeds starts at once, without waiting. */
  lemma ThreadStartsAtOnce(maxAttempts: uint32, signals: seq<bool>)
    ensures RunThread(false, maxAttempts, signals, 0, []) == ThreadRun(Started, 0, [])
  {
  }

  /** Once the driver is exiting, `Init` never succeeds again. */
  lemma {:induction false} ThreadNeverStartsAfterExit(maxAttempts: uint32, signals: seq<bool>, attempts: uint32,
                                                      delays: seq<nat>)
    ensures RunThread(true, maxAttempts, signals, attempts, delays).end != Started
    decreases |signals|
  {
    var a := ToUInt32(attempts + 1);
    if !(maxAttempts != 0 && a >= maxAttempts) && signals != [] && !signals[0] {
      ThreadNeverStartsAfterExit(maxAttempts, signals[1..], a, delays + [RetryDelay(a)]);
    }
  }

  /** Without a limit the thread never gives up. */
  lemma {:induction false} UnlimitedNeverGivesUp(signals: seq<bool>, attempts: uint32, delays: seq<nat>)
    ensures RunThread(true, 0, signals, attempts, delays).end != GaveUp
    decreases |signals|
  {
    var a := ToUInt32(attempts + 1);
    if signals != [] && !signals[0] {
      UnlimitedNeverGivesUp(signals[1..], a, delays + [RetryDelay(a)]);
    }
  }

  /** With a limit and no exit signal, a failing `Init` is tried exactly `maxAttempts` times,
      with a wait between each two tries: 5 seconds for the first 24 waits, 30 after. */
  lemma ThreadGivesUp(maxAttempts: uint32, signals: seq<bool>)
    requires maxAttempts > 0 && |signals| >= maxAttempts - 1
    requires forall k :: 0 <= k < maxAttempts - 1 ==> !signals[k]
    ensures RunThread(true, maxAttempts, signals, 0, []) == ThreadRun(GaveUp, maxAttempts, Delays(maxAttempts - 1))
    ensures var ds := Delays(maxAttempts - 1);
            forall k :: 0 <= k < |ds| ==> ds[k] == if k < 24 then 5000 else 30000
  {
    GivesUpFrom(maxAttempts, signals, 0);
  }

  lemma {:induction false} GivesUpFrom(maxAttempts: uint32, signals: seq<bool>, a: uint32)
    requires a < maxAttempts && |signals| >= maxAttempts - 1 - a
    requires forall k :: 0 <= k < maxAttempts - 1 - a ==> !signals[k]
    ensures RunThread(true, maxAttempts, signals, a, Delays(a)) == ThreadRun(GaveUp, maxAttempts, Delays(maxAttempts - 1))
    decreases maxAttempts - a
  {
    NarrowIdentity(a + 1);
    if a + 1 < maxAttempts {
      assert Delays(a) + [RetryDelay(a + 1)] == Delays(a + 1);
      GivesUpFrom(maxAttempts, signals[1..], a + 1);
    }
  }
}
