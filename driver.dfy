/**
 * `Driver`: the node table `m_nodes[256]`, the notification queue, the poll ledger, the cache
 * and button files, the network key, the configuration database's answers and the event
 * queue. Each method that changes the driver's state is proved to leave `Snapshot()` equal to
 * the function of `DriverState` that specifies it, applied to the state before the call; what
 * leaves the driver (calls to the manager, DNS requests, downloads, no-operation frames) is
 * appended to `outbox` or `noOps`.
 */
module OzwDriver {
  import opened Wrappers
  import opened ZWave
  import opened CacheDocument
  import opened Registry
  import opened DriverState
  import CText
  import CR = ConfigRevision
  import NetworkKey

  /** What the driver hands to the manager, the DNS thread and the HTTP client. */
  datatype Outbound =
    | DriverReadyCall(ready: bool)
    | DnsSent(request: CR.DnsRequest)
    | DownloadStarted(download: CR.HttpDownload)

  /** The `Button` elements `SaveButtons` writes for the keys of `m` from `from` on. */
  method ButtonElements(m: map<uint8, uint8>, from: nat) returns (buttons: seq<ButtonElement>)
    ensures buttons == ButtonEntries(m, from)
  {
    buttons := [];
    var k: nat := from;
    while k < 256
      invariant from <= k && (from <= 256 ==> k <= 256)
      invariant buttons + ButtonEntries(m, k) == ButtonEntries(m, from)
    {
      ghost var done := buttons;
      ghost var here := if k in m then [ButtonElement("Button", Some(k as int32), Some(CText.Dec(m[k])))] else [];
      assert ButtonEntries(m, k) == here + ButtonEntries(m, k + 1);
      if k in m {
        buttons := buttons + [ButtonElement("Button", Some(k as int32), Some(CText.Dec(m[k])))];
      }
      AppendAssoc(done, here, ButtonEntries(m, k + 1));
      k := k + 1;
    }
  }

  class Driver {
    const setup: Setup
    /** `m_init`: the constructor clears it and nothing sets it. */
    var init: bool
    /** `m_nodes`: slot `i` holds node `i` or nothing. */
    const nodes: array<Option<Node>>
    /** `m_nodeMutex`, a recursive mutex: how many times it is held. */
    var lockCount: nat
    var exit: bool
    var settings: CacheSettings
    var notifications: seq<Notification>
    /** `m_notificationsEvent`. */
    var notificationsSignalled: bool
    /** What the watchers have been given, in order. */
    var delivered: seq<Notification>
    /** The user directory: file name to loadable content. */
    var files: map<string, FileContent>
    var mfs: CR.MfsDb
    var events: seq<EventMsg>
    /** `m_queueMsgEvent`. */
    var eventsSignalled: bool
    var outbox: seq<Outbound>
    /** The targets of the `NoOperation::Set` frames sent, in order. */
    var noOps: seq<uint8>

    function Snapshot(): State
      reads nodes, this`notifications, this`delivered, this`files, this`settings, this`mfs, this`exit
    {
      State(nodes[..], notifications, delivered, files, settings, mfs, exit)
    }

    /** The table and the files keep the invariant of the driver's state, and each event is set
        exactly when its queue is not empty. */
    predicate Valid()
      reads nodes, this`files, this`notifications, this`notificationsSignalled, this`events, this`eventsSignalled
    {
      TableValid() && (notificationsSignalled <==> notifications != []) && (eventsSignalled <==> events != [])
    }

    predicate TableValid()
      reads nodes, this`files
    {
      nodes.Length == 256 && SlotsValid(nodes[..]) && StoresDistinct(nodes[..]) && FilesValid(files)
    }

    /** The driver with an empty table; the home id and the controller's id are what the
        controller reported (0 when it could not be opened). */
    constructor(setup: Setup, files: map<string, FileContent>, mfs: CR.MfsDb)
      requires FilesValid(files)
      ensures Valid() && this.setup == setup && !init && lockCount == 0
      ensures Snapshot() == State(seq(256, _ => None), [], [], files, CacheSettings(0, 0, 0, false), mfs, false)
      ensures events == [] && outbox == [] && noOps == []
    {
      this.setup := setup;
      init := false;
      nodes := new Option<Node>[256](_ => None);
      lockCount := 0;
      exit := false;
      settings := CacheSettings(0, 0, 0, false);
      notifications := [];
      notificationsSignalled := false;
      delivered := [];
      this.files := files;
      this.mfs := mfs;
      events := [];
      eventsSignalled := false;
      outbox := [];
      noOps := [];
    }

    // ------------------------------------------------------------------
    // The node table and its lock
    // ------------------------------------------------------------------

    method Lock()
      modifies this`lockCount
      ensures lockCount == old(lockCount) + 1
    {
      lockCount := lockCount + 1;
    }

    method Unlock()
      requires lockCount > 0
      modifies this`lockCount
      ensures lockCount == old(lockCount) - 1
    {
      lockCount := lockCount - 1;
    }

    function GetNodeUnsafe(id: uint8): Option<Node>
      reads this, nodes
      requires nodes.Length == 256
    {
      nodes[id]
    }

    /** `GetNode`: refuses to answer unless the node mutex is held, and then is `GetNodeUnsafe`. */
    function GetNode(id: uint8): (r: Option<Node>)
      reads this, nodes
      requires nodes.Length == 256
      ensures lockCount == 0 ==> r.None?
      ensures lockCount > 0 ==> r == GetNodeUnsafe(id)
    {
      if lockCount == 0 then None else nodes[id]
    }

    method InitAllNodes()
      requires Valid()
      modifies nodes
      ensures Valid()
      ensures Snapshot() == old(Snapshot()).(slots := seq(256, _ => None))
    {
      for i := 0 to 256
        invariant forall k :: 0 <= k < i ==> nodes[k].None?
        invariant forall k :: i <= k < 256 ==> nodes[k] == old(nodes[k])
      {
        nodes[i] := None;
      }
      assert nodes[..] == seq(256, _ => None);
    }

    /** `InitNode`: the slot's node, if any, is removed (cache rewritten, `NodeRemoved`
        queued) and a fresh node takes its place (`NodeAdded` queued). */
    method InitNode(id: uint8, newNode: bool, secure: bool, protocolInfo: seq<uint8>, length: uint8)
      requires Valid() && length as int <= |protocolInfo|
      modifies nodes, this`notifications, this`notificationsSignalled, this`files
      ensures Snapshot() == InitNodeSpec(setup, old(Snapshot()), id, newNode, secure, protocolInfo, length)
      ensures Valid()
    {
      if nodes[id].Some? {
        RemoveNode(id);
      }
      AddNode(id, newNode, secure, protocolInfo, length);
    }

    /** The removal half of `InitNode`. */
    method RemoveNode(id: uint8)
      requires Valid()
      modifies nodes, this`notifications, this`notificationsSignalled, this`files
      ensures Snapshot() == RemoveSpec(setup, old(Snapshot()), id)
      ensures Valid()
    {
      ghost var st0 := Snapshot();
      RemoveValid(setup, st0, id);
      nodes[id] := None;
      assert Snapshot() == st0.(slots := st0.slots[id := None]);
      WriteCache();
      QueueNotification(NodeNote(NodeRemoved, setup.homeId, id));
    }

    /** The installing half of `InitNode`: the node is built, put in the slot and announced,
        and then given its security flag and protocol information. */
    method AddNode(id: uint8, newNode: bool, secure: bool, protocolInfo: seq<uint8>, length: uint8)
      requires Valid() && length as int <= |protocolInfo|
      modifies nodes, this`notifications, this`notificationsSignalled
      ensures Snapshot() == old(Snapshot()).(slots := old(nodes[..])[id := Some(NewNode(id, newNode, secure, protocolInfo, length, NetworkKey.IsNetworkKeySet(setup.options.networkKey)))],
                                             notes := old(notifications) + [NodeNote(NodeAdded, setup.homeId, id)])
      ensures Valid()
    {
      var node := FreshNode(id);
      if newNode {
        node := node.(addingNode := true);
      }
      if length > 0 {
        if NetworkKey.IsNetworkKeySet(setup.options.networkKey) {
          node := node.(secured := secure);
        }
        node := node.(protocolInfo := protocolInfo[..length]);
      }
      assert node == NewNode(id, newNode, secure, protocolInfo, length, NetworkKey.IsNetworkKeySet(setup.options.networkKey));
      PutNode(nodes[..], id, Some(node));
      nodes[id] := Some(node);
      QueueNotification(NodeNote(NodeAdded, setup.homeId, id));
    }

    /** `Start`: the manager hears the driver is ready, the cache is read, and every id from 1
        to 232 the controller reports (`present`) is known or gets a new node. */
    method Start(present: set<uint8>)
      requires Valid()
      modifies nodes, this`notifications, this`notificationsSignalled, this`files, this`settings,
               this`mfs, this`lockCount, this`outbox
      ensures Snapshot() == StartSpec(setup, old(Snapshot()), present, init)
      ensures Valid() && lockCount == old(lockCount)
      ensures outbox == old(outbox) + [DriverReadyCall(true)]
    {
      outbox := outbox + [DriverReadyCall(true)];
      var _ := ReadCache();
      DiscoverNodes(present);
    }

    /** `Start`'s loop over the ids 1 to 232. */
    method DiscoverNodes(present: set<uint8>)
      requires Valid()
      modifies nodes, this`notifications, this`notificationsSignalled, this`files, this`lockCount
      ensures Snapshot() == DiscoverSpec(setup, old(Snapshot()), present, init)
      ensures Valid() && lockCount == old(lockCount)
    {
      ghost var st1 := Snapshot();
      DiscoverFirst(setup, st1, present, init);
      var id: uint8 := 1;
      while id <= 232
        invariant 1 <= id <= 233
        invariant Snapshot() == DiscoverPrefix(setup, st1, present, init, id as nat)
        invariant Valid() && lockCount == old(lockCount)
      {
        DiscoverNext(setup, st1, present, init, id);
        DiscoverPrefixValid(setup, st1, present, init, id as nat + 1);
        DiscoverNode(id, present);
        id := id + 1;
      }
      DiscoverLast(setup, st1, present, init);
    }

    /** The body of `Start`'s loop for one id. */
    method DiscoverNode(id: uint8, present: set<uint8>)
      requires Valid()
      modifies nodes, this`notifications, this`notificationsSignalled, this`files, this`lockCount
      ensures Snapshot() == DiscoverStep(setup, old(Snapshot()), id, present, init)
      ensures Valid() && lockCount == old(lockCount)
    {
      if id in present {
        Lock();
        var node := GetNode(id);
        if node.Some? {
          if !init {
            PutNode(nodes[..], id, Some(node.value.(stage := CacheLoad)));
            nodes[id] := Some(node.value.(stage := CacheLoad));
          }
        } else {
          QueueNotification(NodeNote(NodeNew, setup.homeId, id));
          InitNode(id, false, false, [], 0);
        }
        Unlock();
      }
    }

    /** `TestNetwork`: `count` no-operation frames to the node, or to every node but the
        controller when `nodeId` is 0. */
    method TestNetwork(nodeId: uint8, count: uint32)
      requires Valid()
      modifies this`noOps
      ensures noOps == old(noOps) + NoOpTargets(nodes[..], nodeId, setup.controllerNodeId, count)
    {
      if nodeId == 0 {
        var i := 0;
        while i < 256
          invariant 0 <= i <= 256
          invariant noOps == old(noOps) + AllTargets(nodes[..], setup.controllerNodeId, Rounds(count), i)
        {
          if i != setup.controllerNodeId as int && nodes[i].Some? {
            SendNoOps(i as uint8, count);
          }
          i := i + 1;
        }
      } else if nodeId != setup.controllerNodeId && nodes[nodeId].Some? {
        SendNoOps(nodeId, count);
      }
    }

    /** `for (int j = 0; j < (int) count; j++) noop->Set(true)` on node `id`. */
    method SendNoOps(id: uint8, count: uint32)
      modifies this`noOps
      ensures noOps == old(noOps) + Repeat(id, Rounds(count))
    {
      var rounds := ToInt32(count);
      var j := 0;
      while j < rounds
        invariant 0 <= j && (rounds >= 0 ==> j <= rounds) && (rounds < 0 ==> j == 0)
        invariant noOps == old(noOps) + Repeat(id, j)
      {
        noOps := noOps + [id];
        j := j + 1;
      }
    }

    // ------------------------------------------------------------------
    // Notifications
    // ------------------------------------------------------------------

    method QueueNotification(n: Notification)
      modifies this`notifications, this`notificationsSignalled
      ensures notifications == old(notifications) + [n] && notificationsSignalled
    {
      notifications := notifications + [n];
      notificationsSignalled := true;
    }

    /** `NotifyWatchers`: the queue is drained in order; a value notification whose value has
        gone is dropped, every other one reaches the watchers. */
    method NotifyWatchers()
      requires Valid()
      modifies this`notifications, this`notificationsSignalled, this`delivered
      ensures Valid()
      ensures notifications == [] && delivered == old(delivered) + Deliver(nodes[..], old(notifications))
    {
      while notifications != []
        invariant delivered + Deliver(nodes[..], notifications) == old(delivered) + Deliver(nodes[..], old(notifications))
        decreases |notifications|
      {
        var n := notifications[0];
        ghost var done := delivered;
        ghost var here := if Deliverable(nodes[..], n) then [n] else [];
        assert Deliver(nodes[..], notifications) == here + Deliver(nodes[..], notifications[1..]);
        notifications := notifications[1..];
        if Deliverable(nodes[..], n) {
          delivered := delivered + [n];
        }
        AppendAssoc(done, here, Deliver(nodes[..], notifications));
      }
      notificationsSignalled := false;
    }

    // ------------------------------------------------------------------
    // The cache file
    // ------------------------------------------------------------------

    /** `WriteCache`: the cache file becomes the document of the table's nodes past the cache
        load stage, unless there is no home id or the driver is exiting. */
    method WriteCache()
      requires Valid()
      modifies this`files
      ensures Valid()
      ensures Snapshot() == WithCacheWritten(setup, old(Snapshot()))
    {
      if setup.homeId != 0 && !exit {
        var children := CachedNodes(0);
        var doc := CacheDocOf(setup.homeId, setup.controllerNodeId, settings, mfs.revision, []);
        WriteKeepsFilesValid(setup, Snapshot());
        files := files[CacheFileName(setup.options.userPath, setup.homeId) := CacheFile(doc.(children := children))];
      }
    }

    /** The `Node` elements `WriteCache` writes for the slots from `from` on. */
    method CachedNodes(from: nat) returns (children: seq<CacheChild>)
      requires nodes.Length == 256
      ensures children == CachedChildren(nodes[..], from)
    {
      children := [];
      var i := from;
      while i < 256
        invariant from <= i && (from <= 256 ==> i <= 256)
        invariant children + CachedChildren(nodes[..], i) == CachedChildren(nodes[..], from)
      {
        ghost var done := children;
        ghost var here := if Cached(nodes[i]) then [CacheChild("Node", Some(nodes[i].value.id as int32), nodes[i].value)] else [];
        assert CachedChildren(nodes[..], i) == here + CachedChildren(nodes[..], i + 1);
        if Cached(nodes[i]) {
          children := children + [CacheChild("Node", Some(nodes[i].value.id as int32), nodes[i].value)];
        }
        AppendAssoc(done, here, CachedChildren(nodes[..], i + 1));
        i := i + 1;
      }
    }

    /** `ReadCache`: returns whether the cache was accepted. */
    method ReadCache() returns (ok: bool)
      requires Valid()
      modifies nodes, this`notifications, this`notificationsSignalled, this`files, this`settings, this`mfs,
               this`lockCount
      ensures Snapshot() == ReadCacheSpec(setup, old(Snapshot()))
      ensures Valid() && lockCount == old(lockCount)
      ensures ok == CacheAccepted(setup, old(files))
    {
      var name := CacheFileName(setup.options.userPath, setup.homeId);
      ok := false;
      if name in files && files[name].CacheFile? {
        var doc := files[name].cache;
        // The namespace and version are checked first; a cache that passes them hands its
        // database revision on before its home and node ids are checked.
        var revision := RevisionSeen(doc);
        if revision.Some? {
          mfs := mfs.(latestRevision := revision.value);
        }
        if HeaderCheck(doc, setup.homeId, setup.controllerNodeId).None? {
          LoadCache(doc);
          ok := true;
        }
      }
    }

    /** What `ReadCache` does with a cache it accepts: settings, nodes, then polls. */
    method LoadCache(doc: CacheDoc)
      requires Valid() && ChildrenDistinct(doc.children)
      modifies nodes, this`notifications, this`notificationsSignalled, this`settings, this`files, this`lockCount
      ensures var loaded := LoadChildren(old(nodes[..]), old(notifications), doc.children, setup.homeId);
              Snapshot() == ReplaySpec(setup, old(Snapshot()).(settings := SettingsAfter(old(settings), doc),
                                                                slots := loaded.0, notes := loaded.1))
      ensures Valid() && lockCount == old(lockCount)
    {
      settings := SettingsAfter(settings, doc);
      LoadNodes(doc.children);
      ReplayPolls();
    }

    /** The reader's loop over the cache's children. */
    method LoadNodes(children: seq<CacheChild>)
      requires Valid() && ChildrenDistinct(children)
      modifies nodes, this`notifications, this`notificationsSignalled
      ensures var loaded := LoadChildren(old(nodes[..]), old(notifications), children, setup.homeId);
              Snapshot() == old(Snapshot()).(slots := loaded.0, notes := loaded.1)
      ensures Valid()
    {
      var k := 0;
      while k < |children|
        invariant 0 <= k <= |children| && Valid()
        invariant LoadChildren(nodes[..], notifications, children[k..], setup.homeId)
                  == LoadChildren(old(nodes[..]), old(notifications), children, setup.homeId)
      {
        var c := children[k];
        assert children[k..][1..] == children[k + 1..];
        if IsNodeTag(c.tag) && c.id.Some? {
          var id := ToUInt8(c.id.value);
          PutNode(nodes[..], id, Some(RestoreNode(id, c.snapshot)));
          nodes[id] := Some(RestoreNode(id, c.snapshot));
          QueueNotification(NodeNote(NodeAdded, setup.homeId, id));
        }
        k := k + 1;
      }
    }

    /** The reader's last step: every stored value with a non-zero intensity is re-enabled. */
    method ReplayPolls()
      requires Valid()
      modifies nodes, this`notifications, this`notificationsSignalled, this`files, this`lockCount
      ensures Snapshot() == ReplaySpec(setup, old(Snapshot()))
      ensures Valid() && lockCount == old(lockCount)
    {
      ghost var st0 := Snapshot();
      var i := 0;
      while i < 256
        invariant 0 <= i <= 256
        invariant Snapshot() == WithPolls(setup, st0, TablePollNotes(st0.slots, setup.homeId, i))
        invariant Valid() && lockCount == old(lockCount)
      {
        ReplayNode(st0, i);
        i := i + 1;
      }
    }

    /** One round of `ReplayPolls`: node `i`'s values join the replay. */
    method ReplayNode(ghost st0: State, i: nat)
      requires Valid() && i < 256 && StateValid(st0) && |st0.slots| == 256
      requires Snapshot() == WithPolls(setup, st0, TablePollNotes(st0.slots, setup.homeId, i))
      modifies nodes, this`notifications, this`notificationsSignalled, this`files, this`lockCount
      ensures Snapshot() == WithPolls(setup, st0, TablePollNotes(st0.slots, setup.homeId, i + 1))
      ensures Valid() && lockCount == old(lockCount)
    {
      PollsValid(setup, st0, TablePollNotes(st0.slots, setup.homeId, i));
      if nodes[i].Some? {
        ReplayStore(i as uint8);
      }
      PollsConcat(setup, st0, TablePollNotes(st0.slots, setup.homeId, i),
                  if st0.slots[i].Some? then StorePollNotes(st0.slots[i].value.values, setup.homeId, i as uint8) else []);
    }

    /** The saved polls of node `i`'s values, re-enabled in store order. */
    method ReplayStore(i: uint8)
      requires Valid() && nodes[i].Some?
      modifies nodes, this`notifications, this`notificationsSignalled, this`files, this`lockCount
      ensures Snapshot() == WithPolls(setup, old(Snapshot()), StorePollNotes(old(nodes[i].value.values), setup.homeId, i))
      ensures Valid() && lockCount == old(lockCount)
    {
      ghost var st0 := Snapshot();
      var vs := nodes[i].value.values;
      var j := 0;
      while j < |vs|
        invariant 0 <= j <= |vs|
        invariant Snapshot() == WithPolls(setup, st0, StorePollNotes(vs[..j], setup.homeId, i))
        invariant Valid() && lockCount == old(lockCount)
      {
        ReplayValue(st0, i, vs, j);
        j := j + 1;
      }
      assert vs[..j] == vs;
    }

    /** One round of `ReplayStore`: value `j` is re-enabled when its saved intensity is not 0. */
    method ReplayValue(ghost st0: State, i: uint8, vs: seq<Value>, j: nat)
      requires Valid() && StateValid(st0) && |st0.slots| == 256 && st0.slots[i].Some?
      requires vs == st0.slots[i].value.values && j < |vs|
      requires Snapshot() == WithPolls(setup, st0, StorePollNotes(vs[..j], setup.homeId, i))
      modifies nodes, this`notifications, this`notificationsSignalled, this`files, this`lockCount
      ensures Snapshot() == WithPolls(setup, st0, StorePollNotes(vs[..j + 1], setup.homeId, i))
      ensures Valid() && lockCount == old(lockCount)
    {
      ghost var before := Snapshot();
      PollsValid(setup, st0, StorePollNotes(vs[..j], setup.homeId, i));
      assert vs[..j + 1][..j] == vs[..j] && vs[..j + 1][j] == vs[j];
      if vs[j].pollIntensity != 0 {
        var vid := ValueId(setup.homeId, i, vs[j].key);
        ReplayStep(setup, before, i, j);
        PollsStep(setup, st0, StorePollNotes(vs[..j], setup.homeId, i), PollNote(setup.homeId, vid));
        var _ := EnablePoll(vid, vs[j].pollIntensity);
      }
    }

    // ------------------------------------------------------------------
    // Polling
    // ------------------------------------------------------------------

    /** `EnablePoll`: returns whether the value exists. */
    method EnablePoll(vid: ValueId, intensity: uint8) returns (ok: bool)
      requires Valid()
      modifies nodes, this`notifications, this`notificationsSignalled, this`files, this`lockCount
      ensures Snapshot() == EnablePollSpec(setup, old(Snapshot()), vid, intensity)
      ensures Valid() && lockCount == old(lockCount)
      ensures ok == ValueAt(old(nodes[..]), vid).Some?
    {
      Lock();
      var node := GetNode(vid.nodeId);
      ok := node.Some? && Lookup(node.value.values, vid.key).Some?;
      if ok {
        EnableValuePoll(vid, intensity);
      }
      Unlock();
    }

    /** `EnablePoll` on a value the table holds: the intensity is set, the change announced and
        the cache written. */
    method EnableValuePoll(vid: ValueId, intensity: uint8)
      requires Valid() && ValueAt(nodes[..], vid).Some?
      modifies nodes, this`notifications, this`notificationsSignalled, this`files
      ensures Snapshot() == EnablePollSpec(setup, old(Snapshot()), vid, intensity)
      ensures Valid()
    {
      SetIntensityAt(vid, intensity);
      QueueNotification(PollNote(setup.homeId, vid));
      WriteCache();
    }

    /** `value->SetPollIntensity(intensity)` on a value the table holds. */
    method SetIntensityAt(vid: ValueId, intensity: uint8)
      requires Valid() && ValueAt(nodes[..], vid).Some?
      modifies nodes
      ensures Snapshot() == old(Snapshot()).(slots := WithIntensity(old(nodes[..]), vid, intensity))
      ensures Valid()
    {
      WithIntensityEffect(nodes[..], vid, intensity);
      var node := nodes[vid.nodeId].value;
      nodes[vid.nodeId] := Some(node.(values := SetIntensity(node.values, vid.key, intensity)));
    }

    /** `DisablePoll`: always returns false. */
    method DisablePoll(vid: ValueId) returns (ok: bool)
      requires Valid()
      modifies this`notifications, this`notificationsSignalled, this`files, this`lockCount
      ensures Valid() && lockCount == old(lockCount) && !ok
      ensures Snapshot() == DisablePollSpec(setup, old(Snapshot()), vid)
    {
      Lock();
      var node := GetNode(vid.nodeId);
      if node.Some? {
        QueueNotification(DisableNote(setup.homeId, vid));
        WriteCache();
      }
      Unlock();
      return false;
    }

    method IsPolled(vid: ValueId) returns (polled: bool)
      requires Valid()
      modifies this`lockCount
      ensures lockCount == old(lockCount)
      ensures polled == Polled(nodes[..], vid)
    {
      var value := ValueAt(nodes[..], vid);
      var bPolled := value.Some? && value.value.pollIntensity != 0;
      Lock();
      var node := GetNode(vid.nodeId);
      Unlock();
      if node.Some? {
        return bPolled;
      }
      return false;
    }

    method SetPollIntensity(vid: ValueId, intensity: uint8)
      requires Valid()
      modifies nodes, this`files
      ensures Valid()
      ensures Snapshot() == SetPollIntensitySpec(setup, old(Snapshot()), vid, intensity)
    {
      var value := ValueAt(nodes[..], vid);
      if value.Some? {
        SetIntensityAt(vid, intensity);
        WriteCache();
      }
    }

    // ------------------------------------------------------------------
    // Buttons
    // ------------------------------------------------------------------

    /** `SaveButtons`: the button file becomes the document of every node's button map. */
    method SaveButtons()
      requires Valid()
      modifies this`files
      ensures Valid()
      ensures Snapshot() == SaveButtonsSpec(setup, old(Snapshot()))
    {
      var elements := ButtonNodeElements(1);
      files := files[ButtonFilePath(setup) := ButtonFile(ButtonDoc("Nodes", Some(ButtonNamespace), Some(1), elements))];
    }

    /** The `Node` elements `SaveButtons` writes for the slots from `from` on. */
    method ButtonNodeElements(from: nat) returns (elements: seq<ButtonNodeElement>)
      requires nodes.Length == 256
      ensures elements == ButtonNodes(nodes[..], from)
    {
      var slots := nodes[..];
      elements := [];
      var i := from;
      while i < 256
        invariant from <= i && (from <= 256 ==> i <= 256)
        invariant elements + ButtonNodes(slots, i) == ButtonNodes(slots, from)
      {
        var here: seq<ButtonNodeElement> := [];
        if slots[i].Some? && slots[i].value.buttonMap != map[] {
          var buttons := ButtonElements(slots[i].value.buttonMap, 0);
          here := [ButtonNodeElement("Node", Some(i as int32), buttons)];
        }
        assert ButtonNodes(slots, i) == here + ButtonNodes(slots, i + 1);
        AppendAssoc(elements, here, ButtonNodes(slots, i + 1));
        elements := elements + here;
        i := i + 1;
      }
    }

    /** `ReadButtons(id)`: loads node `id`'s buttons from the button file. The root must be
        `Nodes` with version 1, and an empty slot makes the reader's loop skip every element. */
    method ReadButtons(id: uint8)
      requires Valid()
      modifies nodes, this`notifications, this`notificationsSignalled
      ensures Snapshot() == ReadButtonsSpec(setup, old(Snapshot()), id)
      ensures Valid()
    {
      var name := ButtonFilePath(setup);
      if name in files && files[name].ButtonFile? && ButtonDocAccepted(files[name].buttons) && nodes[id].Some? {
        ReadButtonNodeElements(id, files[name].buttons.nodes);
      }
    }

    /** The reader's loop over the document's `Node` elements for node `id`. */
    method ReadButtonNodeElements(id: uint8, es: seq<ButtonNodeElement>)
      requires Valid() && nodes[id].Some?
      modifies nodes, this`notifications, this`notificationsSignalled
      ensures var r := ReadButtonNodes(old(nodes[id]), id, old(nodes[id].value.buttonMap), old(notifications), es, setup.homeId);
              Snapshot() == WithButtons(old(Snapshot()), id, r)
      ensures Valid()
    {
      ghost var st0 := Snapshot();
      ghost var r := ReadButtonNodes(st0.slots[id], id, st0.slots[id].value.buttonMap, st0.notes, es, setup.homeId);
      ghost var cur := ButtonLoad(st0.slots[id].value.buttonMap, st0.notes, false);
      var e := 0;
      while e < |es|
        invariant 0 <= e <= |es| && !cur.aborted
        invariant Snapshot() == WithButtons(st0, id, cur)
        invariant ReadButtonNodes(st0.slots[id], id, cur.buttons, cur.notes, es[e..], setup.homeId) == r
        invariant Valid()
      {
        assert es[e..][1..] == es[e + 1..];
        if IsNodeTag(es[e].tag) && es[e].id == Some(id as int32) && GetNodeUnsafe(id).Some? {
          ghost var b := ReadButtonList(cur.buttons, cur.notes, es[e].buttons, setup.homeId);
          var aborted := ReadButtonElements(id, es[e].buttons);
          WithButtonsAgain(st0, id, cur, b);
          cur := b;
          if aborted {
            break;
          }
        }
        e := e + 1;
      }
    }

    /** The reader's loop over one `Node` element's children; returns whether it stopped on a
        `Button` element without an id or without text. */
    method ReadButtonElements(id: uint8, bs: seq<ButtonElement>) returns (aborted: bool)
      requires Valid() && nodes[id].Some?
      modifies nodes, this`notifications, this`notificationsSignalled
      ensures var b := ReadButtonList(old(nodes[id].value.buttonMap), old(notifications), bs, setup.homeId);
              Snapshot() == WithButtons(old(Snapshot()), id, b) && aborted == b.aborted
      ensures Valid()
    {
      ghost var st0 := Snapshot();
      ghost var r := ReadButtonList(st0.slots[id].value.buttonMap, st0.notes, bs, setup.homeId);
      ghost var cur := ButtonLoad(st0.slots[id].value.buttonMap, st0.notes, false);
      aborted := false;
      var k := 0;
      while k < |bs|
        invariant 0 <= k <= |bs| && !aborted
        invariant Snapshot() == WithButtons(st0, id, cur)
        invariant ReadButtonList(cur.buttons, cur.notes, bs[k..], setup.homeId) == r
        invariant Valid()
      {
        ghost var step := ReadButtonList(cur.buttons, cur.notes, [bs[k]], setup.homeId);
        ReadButtonListStep(cur.buttons, cur.notes, bs[k..], setup.homeId);
        assert bs[k..][..1] == [bs[k]] && bs[k..][1..] == bs[k + 1..];
        aborted := ReadButton(id, bs[k]);
        WithButtonsAgain(st0, id, cur, step);
        cur := step;
        if aborted {
          break;
        }
        k := k + 1;
      }
    }

    /** One child of a `Node` element: a `Button` element stores its mapping and announces
        `CreateButton`, one without an id or a text stops the reader, any other is skipped. */
    method ReadButton(id: uint8, button: ButtonElement) returns (aborted: bool)
      requires Valid() && nodes[id].Some?
      modifies nodes, this`notifications, this`notificationsSignalled
      ensures var b := ReadButtonList(old(nodes[id].value.buttonMap), old(notifications), [button], setup.homeId);
              Snapshot() == WithButtons(old(Snapshot()), id, b) && aborted == b.aborted
      ensures Valid()
    {
      assert [button][1..] == [];
      aborted := false;
      if IsButtonTag(button.tag) {
        if button.id.None? || button.text.None? {
          WithButtonsSame(Snapshot(), id, true);
          return true;
        }
        var key := ToUInt8(button.id.value);
        var target := ToUInt8(ButtonTarget(button.text.value));
        AddButton(id, key, target);
      } else {
        WithButtonsSame(Snapshot(), id, false);
      }
    }

    /** `SetButtonMap(key, target)` and `CreateButton` announced. */
    method AddButton(id: uint8, key: uint8, target: uint8)
      requires Valid() && nodes[id].Some?
      modifies nodes, this`notifications, this`notificationsSignalled
      ensures Snapshot() == WithButtons(old(Snapshot()), id,
                ButtonLoad(old(nodes[id].value.buttonMap)[key := target],
                           old(notifications) + [CreateButtonNote(setup.homeId, target, key)], false))
      ensures Valid()
    {
      ghost var st0 := Snapshot();
      var node := nodes[id].value;
      WithButtonsValid(st0, id, ButtonLoad(node.buttonMap[key := target],
                                           notifications + [CreateButtonNote(setup.homeId, target, key)], false));
      nodes[id] := Some(node.(buttonMap := node.buttonMap[key := target]));
      QueueNotification(CreateButtonNote(setup.homeId, target, key));
    }

    // ------------------------------------------------------------------
    // Reloading a node
    // ------------------------------------------------------------------

    /** `refreshNodeConfig`: returns the policy's answer, with the node mutex held throughout. */
    method RefreshNodeConfig(id: uint8) returns (result: bool)
      requires Valid()
      requires CText.ToUpper(setup.options.reloadAfterUpdate) == "AWAKE" ==> nodes[id].Some?
      modifies nodes, this`notifications, this`notificationsSignalled, this`files, this`lockCount
      ensures Snapshot() == RefreshSpec(setup, old(Snapshot()), id)
      ensures Valid() && lockCount == old(lockCount)
      ensures result == CR.RefreshPolicy(setup.options.reloadAfterUpdate, old(nodes[id])).result
    {
      Lock();
      result := RefreshLocked(id);
      Unlock();
    }

    /** The body of `refreshNodeConfig` between taking and releasing the node mutex. */
    method RefreshLocked(id: uint8) returns (result: bool)
      requires Valid()
      requires CText.ToUpper(setup.options.reloadAfterUpdate) == "AWAKE" ==> nodes[id].Some?
      modifies nodes, this`notifications, this`notificationsSignalled, this`files, this`lockCount
      ensures Snapshot() == RefreshSpec(setup, old(Snapshot()), id)
      ensures Valid() && lockCount == old(lockCount)
      ensures result == CR.RefreshPolicy(setup.options.reloadAfterUpdate, old(nodes[id])).result
    {
      var action := CText.ToUpper(setup.options.reloadAfterUpdate);
      if action == "NEVER" {
        QueueNotification(AlertNote(NodeReloadRequired));
        result := true;
      } else if action == "IMMEDIATE" {
        ReloadNode(id);
        result := true;
      } else if action == "AWAKE" {
        result := RefreshAwake(id);
      } else {
        result := false;
      }
    }

    /** The `AWAKE` policy of `refreshNodeConfig`. */
    method RefreshAwake(id: uint8) returns (result: bool)
      requires Valid() && CText.ToUpper(setup.options.reloadAfterUpdate) == "AWAKE" && nodes[id].Some?
      modifies nodes, this`notifications, this`notificationsSignalled, this`files, this`lockCount
      ensures Snapshot() == RefreshSpec(setup, old(Snapshot()), id)
      ensures Valid() && lockCount == old(lockCount)
      ensures result == CR.RefreshPolicy(setup.options.reloadAfterUpdate, old(nodes[id])).result
    {
      var node := nodes[id].value;
      if !node.listening {
        if node.wakeUp.Some? {
          if !node.wakeUp.value.awake {
            QueuedReloadEffect(nodes[..], id);
            nodes[id] := Some(QueuedReload(node, id));
          } else {
            ReloadNode(id);
            return true;
          }
        }
      } else {
        ReloadNode(id);
      }
      return false;
    }

    /** `ReloadNode`: the node's record leaves the cache file (which is saved even when it could
        not be loaded), then the node is initialised afresh. */
    method ReloadNode(id: uint8)
      requires Valid()
      modifies nodes, this`notifications, this`notificationsSignalled, this`files, this`lockCount
      ensures Snapshot() == ReloadSpec(setup, old(Snapshot()), id)
      ensures Valid() && lockCount == old(lockCount)
    {
      Lock();
      RemoveCachedNode(id);
      Unlock();
      InitNode(id, false, false, [], 0);
    }

    /** The cache-file half of `ReloadNode`: the document is loaded, the node's record removed
        and the document saved, empty when it could not be loaded. */
    method RemoveCachedNode(id: uint8)
      requires Valid()
      modifies this`files
      ensures Snapshot() == old(Snapshot()).(files := CacheWithout(setup, old(files), id))
      ensures Valid()
    {
      CacheWithoutValid(setup, Snapshot(), id);
      var name := CacheFileName(setup.options.userPath, setup.homeId);
      var content := EmptyFile;
      if name in files && files[name].CacheFile? {
        var doc := files[name].cache;
        var children := RemoveNodeElement(doc.children, id);
        content := CacheFile(doc.(children := children));
      }
      files := files[name := content];
    }

    /** The loop over the cache's children that removes the first `Node` element with the id. */
    static method RemoveNodeElement(cs: seq<CacheChild>, id: uint8) returns (rs: seq<CacheChild>)
      ensures rs == RemoveFirstNode(cs, id)
    {
      var k := 0;
      while k < |cs|
        invariant 0 <= k <= |cs|
        invariant RemoveFirstNode(cs, id) == cs[..k] + RemoveFirstNode(cs[k..], id)
      {
        ghost var rest := cs[k..];
        assert rest[0] == cs[k] && rest[1..] == cs[k + 1..];
        if IsNodeElement(cs[k], id) {
          return cs[..k] + cs[k + 1..];
        }
        assert RemoveFirstNode(rest, id) == [cs[k]] + RemoveFirstNode(cs[k + 1..], id);
        assert cs[..k + 1] == cs[..k] + [cs[k]];
        AppendAssoc(cs[..k], [cs[k]], RemoveFirstNode(cs[k + 1..], id));
        k := k + 1;
      }
      assert cs[..k] == cs;
      return cs;
    }

    // ------------------------------------------------------------------
    // The configuration database
    // ------------------------------------------------------------------

    /** `CheckNodeConfigRevision`: the DNS thread is asked for the device's revision record;
        `accepted` is what that thread's `sendRequest` answers. */
    method CheckNodeConfigRevision(id: uint8, accepted: bool) returns (ok: bool)
      requires Valid() && nodes[id].Some?
      modifies this`outbox
      ensures outbox == old(outbox) + [DnsSent(CR.NodeRevisionRequest(nodes[id].value))] && ok == accepted
    {
      outbox := outbox + [DnsSent(CR.NodeRevisionRequest(nodes[id].value))];
      return accepted;
    }

    /** `CheckMFSConfigRevision`: the same for the database itself. */
    method CheckMfsConfigRevision(accepted: bool) returns (ok: bool)
      modifies this`outbox
      ensures outbox == old(outbox) + [DnsSent(CR.MfsRevisionRequest())] && ok == accepted
    {
      outbox := outbox + [DnsSent(CR.MfsRevisionRequest())];
      return accepted;
    }

    /** `startConfigDownload`: `accepted` is what the HTTP client's `StartDownload` answers. */
    method StartConfigDownload(manufacturerId: uint16, productType: uint16, productId: uint16, file: string,
                               node: uint8, accepted: bool) returns (ok: bool)
      modifies this`outbox
      ensures outbox == old(outbox) + [DownloadStarted(CR.ConfigDownload(manufacturerId, productType, productId, file, node))]
      ensures ok == accepted
    {
      outbox := outbox + [DownloadStarted(CR.ConfigDownload(manufacturerId, productType, productId, file, node))];
      return accepted;
    }

    /** `startMFSDownload`. */
    method StartMfsDownload(file: string, accepted: bool) returns (ok: bool)
      modifies this`outbox
      ensures outbox == old(outbox) + [DownloadStarted(CR.MfsDownload(file))] && ok == accepted
    {
      outbox := outbox + [DownloadStarted(CR.MfsDownload(file))];
      return accepted;
    }

    /** `processConfigRevision`. */
    method ProcessConfigRevision(r: CR.DnsResult)
      requires Valid()
      modifies nodes, this`notifications, this`notificationsSignalled, this`mfs, this`lockCount
      ensures Snapshot() == ProcessConfigRevisionSpec(setup, old(Snapshot()), r)
      ensures Valid() && lockCount == old(lockCount)
    {
      if r.status == CR.DnsOk && r.request.kind == CR.RevisionLookup {
        if r.request.nodeId > 0 {
          ProcessNodeRevision(r);
        } else {
          ProcessMfsRevision(r);
        }
      } else {
        if r.status != CR.DnsOk {
          QueueNotification(AlertNote(DNSError));
        }
        mfs := CR.Call(mfs, CR.CheckInitialized);
      }
    }

    /** The database branch of `processConfigRevision`. */
    method ProcessMfsRevision(r: CR.DnsResult)
      requires Valid() && r.status == CR.DnsOk && r.request.kind == CR.RevisionLookup && r.request.nodeId == 0
      modifies this`notifications, this`notificationsSignalled, this`mfs
      ensures Snapshot() == ProcessConfigRevisionSpec(setup, old(Snapshot()), r)
      ensures Valid()
    {
      var v := CText.Atol(r.result);
      ApplyDatabaseRevision(v);
    }

    /** The database branch once the answer has been read as the `long` `v`. */
    method ApplyDatabaseRevision(v: int)
      requires Valid()
      modifies this`notifications, this`notificationsSignalled, this`mfs
      ensures Snapshot() == old(Snapshot()).(mfs := CR.DatabaseRevision(v, old(mfs), setup.options.autoUpdateConfigFile).0,
                                             notes := old(notifications) + CR.DatabaseRevision(v, old(mfs), setup.options.autoUpdateConfigFile).1)
      ensures Valid()
    {
      mfs := mfs.(latestRevision := ToUInt32(v));
      if mfs.revision < CR.ToULong(v) {
        QueueNotification(AlertNote(MFSOutOfDate));
        if setup.options.autoUpdateConfigFile {
          mfs := CR.Call(mfs, CR.UpdateMfsConfigFile);
        } else {
          mfs := CR.Call(mfs, CR.CheckInitialized);
        }
      } else {
        mfs := CR.Call(mfs, CR.CheckConfigFiles);
      }
    }

    /** The device branch of `processConfigRevision`, under the node mutex. */
    method ProcessNodeRevision(r: CR.DnsResult)
      requires Valid() && r.status == CR.DnsOk && r.request.kind == CR.RevisionLookup && r.request.nodeId > 0
      modifies nodes, this`notifications, this`notificationsSignalled, this`mfs, this`lockCount
      ensures Snapshot() == ProcessConfigRevisionSpec(setup, old(Snapshot()), r)
      ensures Valid() && lockCount == old(lockCount)
    {
      ghost var st0 := Snapshot();
      Lock();
      var node := GetNode(r.request.nodeId);
      if node.None? {
        assert st0.slots[r.request.nodeId := None] == st0.slots && st0.notes + [] == st0.notes;
        Unlock();
        return;
      }
      var latest := ToUInt32(CText.Atol(r.result));
      assert CR.ProcessConfigRevision(r, node, st0.mfs, setup.options.autoUpdateConfigFile, setup.homeId)
          == CR.DeviceRevision(latest, node.value, st0.mfs, setup.options.autoUpdateConfigFile, setup.homeId);
      ApplyDeviceRevision(r.request.nodeId, latest);
      Unlock();
    }

    /** The device branch for a node in the table, once the answer has been read as `latest`. */
    method ApplyDeviceRevision(id: uint8, latest: uint32)
      requires Valid() && nodes[id].Some?
      modifies nodes, this`notifications, this`notificationsSignalled, this`mfs
      ensures var o := CR.DeviceRevision(latest, old(nodes[id]).value, old(mfs), setup.options.autoUpdateConfigFile, setup.homeId);
              Snapshot() == old(Snapshot()).(slots := old(nodes[..])[id := o.node], mfs := o.mfs, notes := old(notifications) + o.notes)
      ensures Valid()
    {
      var n := nodes[id].value.(latestConfigRevision := latest);
      PutNode(nodes[..], id, Some(n));
      nodes[id] := Some(n);
      if n.fileConfigRevision < latest {
        QueueNotification(CR.AlertFor(setup.homeId, n.id, ConfigOutOfDate));
        if setup.options.autoUpdateConfigFile {
          mfs := CR.Call(mfs, CR.UpdateConfigFile(n.id));
        }
      }
    }

    /** `processDownload`. */
    method ProcessDownload(d: CR.HttpDownload, ok: bool)
      requires Valid()
      modifies this`notifications, this`notificationsSignalled, this`mfs
      ensures Snapshot() == WithOutcome(old(Snapshot()), CR.ProcessDownload(d, ok, old(mfs)))
      ensures Valid()
    {
      if ok {
        if d.operation == CR.ConfigOp {
          mfs := CR.Call(mfs, CR.ConfigDownloaded(d.filename, d.node, true));
        } else {
          mfs := CR.Call(mfs, CR.MfsConfigDownloaded(d.filename, true));
        }
      } else {
        if d.operation == CR.ConfigOp {
          mfs := CR.Call(mfs, CR.ConfigDownloaded(d.filename, d.node, false));
        } else {
          mfs := CR.Call(mfs, CR.MfsConfigDownloaded(d.filename, false));
        }
        QueueNotification(AlertNote(ConfigFileDownloadFailed));
      }
    }

    /** `downloadConfigRevision(node)`: returns whether an update was asked for. */
    method DownloadConfigRevision(id: uint8) returns (started: bool)
      requires Valid() && nodes[id].Some?
      modifies this`notifications, this`notificationsSignalled, this`mfs
      ensures Snapshot() == WithOutcome(old(Snapshot()), CR.DownloadConfigRevision(nodes[id].value, old(mfs)))
      ensures Valid() && started == CR.DownloadConfigRevision(nodes[id].value, old(mfs)).started
    {
      var node := nodes[id].value;
      if node.fileConfigRevision <= 0 {
        QueueNotification(AlertNote(ConfigFileDownloadFailed));
        return false;
      }
      if node.fileConfigRevision >= node.latestConfigRevision {
        QueueNotification(AlertNote(ConfigFileDownloadFailed));
        return false;
      }
      mfs := CR.Call(mfs, CR.UpdateConfigFile(node.id));
      return true;
    }

    /** `downloadMFSRevision`. */
    method DownloadMfsRevision() returns (started: bool)
      requires Valid()
      modifies this`notifications, this`notificationsSignalled, this`mfs
      ensures Snapshot() == WithOutcome(old(Snapshot()), CR.DownloadMfsRevision(old(mfs)))
      ensures Valid() && started == CR.DownloadMfsRevision(old(mfs)).started
    {
      if mfs.revision <= 0 {
        QueueNotification(AlertNote(ConfigFileDownloadFailed));
        return false;
      }
      if mfs.revision >= mfs.latestRevision {
        QueueNotification(AlertNote(ConfigFileDownloadFailed));
        return false;
      }
      mfs := CR.Call(mfs, CR.UpdateMfsConfigFile);
      return true;
    }

    // ------------------------------------------------------------------
    // The event queue
    // ------------------------------------------------------------------

    /** `SubmitEventMsg`: the event joins the back of the queue and the queue event is set. */
    method SubmitEventMsg(e: EventMsg)
      requires Valid()
      modifies this`events, this`eventsSignalled
      ensures events == old(events) + [e] && eventsSignalled
      ensures Valid()
    {
      events := events + [e];
      eventsSignalled := true;
    }

    /** `ProcessEventMsg`: the front event leaves the queue (the queue event is reset when that
        empties it) and is handled. */
    method ProcessEventMsg()
      requires Valid() && events != []
      modifies nodes, this`events, this`eventsSignalled, this`notifications, this`notificationsSignalled,
               this`mfs, this`lockCount
      ensures Snapshot() == EventSpec(setup, old(Snapshot()), old(events[0]))
      ensures events == old(events[1..]) && (eventsSignalled <==> events != [])
      ensures Valid() && lockCount == old(lockCount)
    {
      var e := events[0];
      events := events[1..];
      if events == [] {
        eventsSignalled := false;
      }
      match e
      case DnsEvent(r) =>
        ProcessConfigRevision(r);
      case HttpEvent(d, ok) =>
        ProcessDownload(d, ok);
    }

    // ------------------------------------------------------------------
    // The driver thread
    // ------------------------------------------------------------------

    /** `Init`: succeeds unless the driver is exiting. */
    method Init() returns (ok: bool)
      ensures ok == !exit
    {
      return !exit;
    }

    /** `DriverThreadProc`: retries `Init` until it succeeds, the `DriverMaxAttempts` option's
        limit is reached (the manager then hears the driver is not ready and the watchers are
        notified) or the exit event is signalled during a wait. `signals[k]` says whether it is
        signalled during the `k`-th wait; the model stops when they run out. */
    method DriverThreadProc(signals: seq<bool>) returns (run: ThreadRun)
      requires Valid()
      modifies this`exit, this`outbox, this`notifications, this`notificationsSignalled, this`delivered
      ensures run == RunThread(old(exit), ToUInt32(setup.options.driverMaxAttempts as int), signals, 0, [])
      ensures Valid() && exit == old(exit)
      ensures run.end.GaveUp? ==> outbox == old(outbox) + [DriverReadyCall(false)] && notifications == [] &&
                                  delivered == old(delivered) + Deliver(nodes[..], old(notifications))
      ensures !run.end.GaveUp? ==> outbox == old(outbox) && notifications == old(notifications) &&
                                   delivered == old(delivered)
    {
      var attempts: uint32 := 0;
      var delays: seq<nat> := [];
      var k := 0;
      var maxAttempts := ToUInt32(setup.options.driverMaxAttempts as int);
      while true
        invariant 0 <= k <= |signals|
        invariant RunThread(exit, maxAttempts, signals[k..], attempts, delays) ==
                  RunThread(old(exit), maxAttempts, signals, 0, [])
        invariant exit == old(exit) && outbox == old(outbox) && notifications == old(notifications)
        invariant delivered == old(delivered) && Valid()
        decreases |signals| - k
      {
        var ok := Init();
        if ok {
          return ThreadRun(Started, attempts, delays);
        }
        attempts := ToUInt32(attempts as int + 1);
        if maxAttempts != 0 && attempts >= maxAttempts {
          outbox := outbox + [DriverReadyCall(false)];
          NotifyWatchers();
          return ThreadRun(GaveUp, attempts, delays);
        }
        if k == |signals| {
          return ThreadRun(NoMoreSignals, attempts, delays);
        }
        delays := delays + [if attempts < 25 then 5000 else 30000];
        assert signals[k..][1..] == signals[k + 1..];
        if signals[k] {
          exit := true;
          return ThreadRun(ExitSignalled, attempts, delays);
        }
        k := k + 1;
      }
    }
  }
}
