/**
 * The two documents the driver keeps in the user directory, as records rather than XML:
 * the network cache `ozwcache_0x<home id>.xml` and the button file `zwbutton.xml`.
 * An integer attribute is `Some` when it is present and parses as an `int`.
 */
module CacheDocument {
  import opened Wrappers
  import opened ZWave
  import CText

  const CacheNamespace := "https://github.com/OpenZWave/open-zwave"
  const ConfigVersion: uint32 := 5
  const ButtonNamespace := "http://code.google.com/p/open-zwave/"
  const ButtonFileName := "zwbutton.xml"

  // ------------------------------------------------------------------
  // The network cache
  // ------------------------------------------------------------------

  /** A child element of the cache's root; a `Node` element carries what `Node::WriteXML` saved. */
  datatype CacheChild = CacheChild(tag: string, id: Option<int32>, snapshot: Node)

  datatype CacheDoc = CacheDoc(
    xmlns: Option<string>,
    version: Option<int32>,
    revision: Option<int32>,
    homeId: Option<string>,
    nodeId: Option<int32>,
    apiCapabilities: Option<int32>,
    controllerCapabilities: Option<int32>,
    pollInterval: Option<int32>,
    pollIntervalBetween: Option<string>,
    children: seq<CacheChild>)

  /** The driver fields the cache header restores. */
  datatype CacheSettings = CacheSettings(initCaps: uint8, controllerCaps: uint8,
                                         pollInterval: int32, intervalBetweenPolls: bool)

  /** What a file in the user directory holds, as far as the driver can load it. */
  datatype FileContent = CacheFile(cache: CacheDoc) | ButtonFile(buttons: ButtonDoc) | EmptyFile

  /** `userPath + "ozwcache_0x%08x.xml"`, the name both the reader and the writer use. */
  function CacheFileName(userPath: string, homeId: uint32): string
  {
    userPath + "ozwcache_0x" + CText.Hex(homeId, 8) + ".xml"
  }

  /** Why the reader gave up on a cache file. */
  datatype CacheRejection = BadNamespace | BadVersion | NoHomeId | WrongHomeId | NoNodeId | WrongNodeId

  /** The header checks, in the reader's order. A missing namespace attribute would reach
      `strcmp` with a null pointer; it counts as a wrong namespace here. */
  function HeaderCheck(doc: CacheDoc, homeId: uint32, controllerId: uint8): Option<CacheRejection>
  {
    if doc.xmlns != Some(CacheNamespace) then Some(BadNamespace)
    else if doc.version != Some(ConfigVersion as int32) then Some(BadVersion)
    else if doc.homeId.None? then Some(NoHomeId)
    else if ToUInt32(CText.StrToUL(doc.homeId.value, 0)) != homeId then Some(WrongHomeId)
    else if doc.nodeId.None? then Some(NoNodeId)
    else if ToUInt8(doc.nodeId.value) != controllerId then Some(WrongNodeId)
    else None
  }

  /** The database revision the reader hands on: it does so once the namespace and version
      pass, before the home and node ids are checked. */
  function RevisionSeen(doc: CacheDoc): Option<uint32>
  {
    if doc.xmlns == Some(CacheNamespace) && doc.version == Some(ConfigVersion as int32) && doc.revision.Some?
    then Some(ToUInt32(doc.revision.value))
    else None
  }

  /** The optional header attributes, each overriding its field when present. */
  function SettingsAfter(s: CacheSettings, doc: CacheDoc): CacheSettings
  {
    CacheSettings(
      if doc.apiCapabilities.Some? then ToUInt8(doc.apiCapabilities.value) else s.initCaps,
      if doc.controllerCapabilities.Some? then ToUInt8(doc.controllerCapabilities.value) else s.controllerCaps,
      if doc.pollInterval.Some? then doc.pollInterval.value else s.pollInterval,
      if doc.pollIntervalBetween.Some? then doc.pollIntervalBetween.value == "true" else s.intervalBetweenPolls)
  }

  /** `Node::ReadXML` on a freshly constructed node: the saved fields under the element's id. */
  function RestoreNode(id: uint8, snapshot: Node): Node
  {
    snapshot.(id := id)
  }

  /** The node table and the notifications after the reader's loop over the root's children:
      every `Node` element with an id makes a new node in slot `(uint8)id`, replacing whatever
      was there, and queues `NodeAdded`. */
  function LoadChildren(slots: seq<Option<Node>>, notes: seq<Notification>, children: seq<CacheChild>,
                        homeId: uint32): (r: (seq<Option<Node>>, seq<Notification>))
    requires |slots| == 256
    ensures |r.0| == 256
    decreases |children|
  {
    if children == [] then (slots, notes)
    else
      var c := children[0];
      if IsNodeTag(c.tag) && c.id.Some? then
        var id := ToUInt8(c.id.value);
        LoadChildren(slots[id := Some(RestoreNode(id, c.snapshot))],
                     notes + [NodeNote(NodeAdded, homeId, id)], children[1..], homeId)
      else LoadChildren(slots, notes, children[1..], homeId)
  }

  /** Element names the readers look for. */
  predicate IsNodeTag(tag: string) { tag == "Node" }
  predicate IsButtonTag(tag: string) { tag == "Button" }

  /** Whether a slot's node goes into the cache. */
  predicate Cached(slot: Option<Node>)
  {
    slot.Some? && PastCacheLoad(slot.value.stage)
  }

  /** The `Node` elements the writer emits, for slots `i` and upwards, in slot order. */
  function CachedChildren(slots: seq<Option<Node>>, i: nat): seq<CacheChild>
    decreases |slots| - i
  {
    if i >= |slots| then []
    else (if Cached(slots[i]) then [CacheChild("Node", Some(slots[i].value.id), slots[i].value)] else [])
         + CachedChildren(slots, i + 1)
  }

  /** The document `WriteCache` saves. */
  function CacheDocOf(homeId: uint32, controllerId: uint8, s: CacheSettings, revision: uint32,
                      slots: seq<Option<Node>>): CacheDoc
  {
    CacheDoc(Some(CacheNamespace), Some(ConfigVersion as int32), Some(ToInt32(revision)),
             Some("0x" + CText.Hex(homeId, 8)), Some(controllerId as int32),
             Some(s.initCaps as int32), Some(s.controllerCaps as int32), Some(s.pollInterval),
             Some(if s.intervalBetweenPolls then "true" else "false"),
             CachedChildren(slots, 0))
  }

  /** The first `Node` element whose id (compared without truncation) is `id` goes; nothing else does. */
  function RemoveFirstNode(children: seq<CacheChild>, id: uint8): (r: seq<CacheChild>)
    ensures |r| == |children| || |r| == |children| - 1
  {
    if children == [] then []
    else if IsNodeElement(children[0], id) then children[1..]
    else [children[0]] + RemoveFirstNode(children[1..], id)
  }

  predicate IsNodeElement(c: CacheChild, id: uint8)
  {
    IsNodeTag(c.tag) && c.id == Some(id as int32)
  }

  // ------------------------------------------------------------------
  // The button file
  // ------------------------------------------------------------------

  datatype ButtonElement = ButtonElement(tag: string, id: Option<int32>, text: Option<string>)
  datatype ButtonNodeElement = ButtonNodeElement(tag: string, id: Option<int32>, buttons: seq<ButtonElement>)
  datatype ButtonDoc = ButtonDoc(rootTag: string, xmlns: Option<string>, version: Option<int32>,
                                 nodes: seq<ButtonNodeElement>)

  /** A `Button` element per map entry with key `k` or above, in key order. */
  function ButtonEntries(m: map<uint8, uint8>, k: nat): seq<ButtonElement>
    // Naming the map in the decreases clause keeps a call with a literal index from being
    // unfolded over the whole range.
    decreases 256 - k, |m|
  {
    if k >= 256 then []
    else (if k in m then [ButtonElement("Button", Some(k), Some(CText.Dec(m[k])))] else [])
         + ButtonEntries(m, k + 1)
  }

  /** A `Node` element for every slot from `i` on (up to 255) whose node has buttons. */
  function ButtonNodes(slots: seq<Option<Node>>, i: nat): seq<ButtonNodeElement>
    requires |slots| == 256
    // Naming the table in the decreases clause keeps a call with a literal index from being
    // unfolded over the whole range.
    decreases 256 - i, |slots|
  {
    if i >= 256 then []
    else (if slots[i].Some? && slots[i].value.buttonMap != map[]
          then [ButtonNodeElement("Node", Some(i), ButtonEntries(slots[i].value.buttonMap, 0))]
          else [])
         + ButtonNodes(slots, i + 1)
  }

  /** The document `SaveButtons` writes; slot 0 is never consulted. */
  function ButtonDocOf(slots: seq<Option<Node>>): ButtonDoc
    requires |slots| == 256
  {
    ButtonDoc("Nodes", Some(ButtonNamespace), Some(1), ButtonNodes(slots, 1))
  }

  /** The reader accepts a root named `Nodes` with version 1. */
  predicate ButtonDocAccepted(doc: ButtonDoc)
  {
    doc.rootTag == "Nodes" && doc.version == Some(1)
  }

  /** The readers compare an `int` attribute with an unsigned constant after a cast to `uint32`;
      for constants below 2^31 that is plain equality. */
  lemma UnsignedVersionCompare(v: int32, c: nat)
    requires c < 0x8000_0000
    ensures (ToUInt32(v) == c) <==> v == c
  {
  }

  /** The button map and notifications a run of `ReadButtons` builds, and whether it stopped
      early on a `Button` element without an id or without text. */
  datatype ButtonLoad = ButtonLoad(buttons: map<uint8, uint8>, notes: seq<Notification>, aborted: bool)

  function CreateButtonNote(homeId: uint32, nodeId: uint8, buttonId: uint8): Notification
  {
    Notification(CreateButton, homeId, nodeId, NoValueId, buttonId, None)
  }

  /** The virtual node id a button's text names: `strtol(text, &p, 0)` stored into an `int32`. */
  function ButtonTarget(text: string): int32
  {
    ToInt32(CText.StrToL(text, 0))
  }

  function ReadButtonList(m: map<uint8, uint8>, notes: seq<Notification>, bs: seq<ButtonElement>,
                          homeId: uint32): ButtonLoad
    decreases |bs|
  {
    if bs == [] then ButtonLoad(m, notes, false)
    else if !IsButtonTag(bs[0].tag) then ReadButtonList(m, notes, bs[1..], homeId)
    else if bs[0].id.None? || bs[0].text.None? then ButtonLoad(m, notes, true)
    else
      var key := ToUInt8(bs[0].id.value);
      var target := ToUInt8(ButtonTarget(bs[0].text.value));
      ReadButtonList(m[key := target], notes + [CreateButtonNote(homeId, target, key)], bs[1..], homeId)
  }

  /** The list reader takes its first element alone, then the rest unless that one aborted. */
  lemma ReadButtonListStep(m: map<uint8, uint8>, notes: seq<Notification>, bs: seq<ButtonElement>, homeId: uint32)
    requires bs != []
    ensures var step := ReadButtonList(m, notes, bs[..1], homeId);
            ReadButtonList(m, notes, bs, homeId)
            == if step.aborted then step else ReadButtonList(step.buttons, step.notes, bs[1..], homeId)
  {
    assert bs[..1][1..] == [];
  }

  /** The reader's loop over `Node` elements, for the requested node, whose table entry is `node`. */
  function ReadButtonNodes(node: Option<Node>, nodeId: uint8, m: map<uint8, uint8>, notes: seq<Notification>,
                           es: seq<ButtonNodeElement>, homeId: uint32): ButtonLoad
    decreases |es|
  {
    if es == [] then ButtonLoad(m, notes, false)
    else if IsNodeTag(es[0].tag) && es[0].id == Some(nodeId as int32) && node.Some? then
      var r := ReadButtonList(m, notes, es[0].buttons, homeId);
      if r.aborted then r else ReadButtonNodes(node, nodeId, r.buttons, r.notes, es[1..], homeId)
    else ReadButtonNodes(node, nodeId, m, notes, es[1..], homeId)
  }

  /** The notifications a button map's entries from key `k` on give when loaded, in key order. */
  function ButtonNotes(m: map<uint8, uint8>, k: nat, homeId: uint32): seq<Notification>
    // Naming the map in the decreases clause keeps a call with a literal index from being
    // unfolded over the whole range.
    decreases 256 - k, |m|
  {
    if k >= 256 then []
    else (if k in m then [CreateButtonNote(homeId, m[k], k)] else []) + ButtonNotes(m, k + 1, homeId)
  }

  // ------------------------------------------------------------------
  // Lemmas
  // ------------------------------------------------------------------

  /** What the writer saves passes every header check of the reader, ... */
  lemma WrittenHeaderAccepted(homeId: uint32, controllerId: uint8, s: CacheSettings, revision: uint32,
                              slots: seq<Option<Node>>)
    ensures HeaderCheck(CacheDocOf(homeId, controllerId, s, revision, slots), homeId, controllerId) == None
  {
    var d := CacheDocOf(homeId, controllerId, s, revision, slots);
    CText.StrToULReadsHex(homeId);
    assert CText.StrToUL(d.homeId.value, 0) == homeId;
    NarrowIdentity(homeId);
    NarrowIdentity(controllerId);
  }

  /** ... hands the saved database revision back, ... */
  lemma WrittenRevisionSeen(homeId: uint32, controllerId: uint8, s: CacheSettings, revision: uint32,
                            slots: seq<Option<Node>>)
    ensures RevisionSeen(CacheDocOf(homeId, controllerId, s, revision, slots)) == Some(revision)
  {
    Int32RoundTrip(revision);
  }

  /** ... and restores the saved settings whatever the driver held before. */
  lemma WrittenSettingsRestored(homeId: uint32, controllerId: uint8, s: CacheSettings, revision: uint32,
                                slots: seq<Option<Node>>, s0: CacheSettings)
    ensures SettingsAfter(s0, CacheDocOf(homeId, controllerId, s, revision, slots)) == s
  {
  }

  /** The button file the driver saves is one its reader accepts. */
  lemma WrittenButtonsAccepted(slots: seq<Option<Node>>)
    requires |slots| == 256
    ensures ButtonDocAccepted(ButtonDocOf(slots))
  {
  }

  /** One step of the reader over the saved children: slot `k`'s node, if it was saved, is
      restored into slot `k` and announced. */
  lemma LoadCachedStep(slots: seq<Option<Node>>, base: seq<Option<Node>>, notes: seq<Notification>,
                       homeId: uint32, k: nat)
    requires SlotsValid(slots) && |base| == 256 && k < 256
    ensures LoadChildren(base, notes, CachedChildren(slots, k), homeId) ==
              if Cached(slots[k])
              then LoadChildren(base[k := slots[k]], notes + [NodeNote(NodeAdded, homeId, k)],
                                CachedChildren(slots, k + 1), homeId)
              else LoadChildren(base, notes, CachedChildren(slots, k + 1), homeId)
  {
    var cs := CachedChildren(slots, k);
    if Cached(slots[k]) {
      var node := slots[k].value;
      var c := CacheChild("Node", Some(node.id), node);
      assert cs == [c] + CachedChildren(slots, k + 1);
      assert cs[1..] == CachedChildren(slots, k + 1);
      NarrowIdentity(k);
      assert RestoreNode(k, node) == node;
    } else {
      assert cs == CachedChildren(slots, k + 1);
    }
  }

  /** Loading the children the writer saved restores exactly the cached nodes from slot `k`
      up and leaves every other slot alone. */
  lemma {:induction false} LoadCachedChildren(slots: seq<Option<Node>>, base: seq<Option<Node>>,
                                              notes: seq<Notification>, homeId: uint32, k: nat)
    requires SlotsValid(slots) && |base| == 256 && k <= 256
    ensures forall i :: 0 <= i < 256 ==>
              LoadChildren(base, notes, CachedChildren(slots, k), homeId).0[i] ==
                (if k <= i && Cached(slots[i]) then slots[i] else base[i])
    decreases 256 - k
  {
    if k == 256 {
      assert CachedChildren(slots, k) == [];
    } else {
      LoadCachedStep(slots, base, notes, homeId, k);
      if Cached(slots[k]) {
        LoadCachedChildren(slots, base[k := slots[k]], notes + [NodeNote(NodeAdded, homeId, k)], homeId, k + 1);
      } else {
        LoadCachedChildren(slots, base, notes, homeId, k + 1);
      }
    }
  }

  /** ... and queues one `NodeAdded` per cached node, in slot order. */
  lemma LoadCachedNotes(slots: seq<Option<Node>>, base: seq<Option<Node>>,
                        notes: seq<Notification>, homeId: uint32, k: nat)
    requires SlotsValid(slots) && |base| == 256 && k <= 256
    ensures LoadChildren(base, notes, CachedChildren(slots, k), homeId).1 == notes + AddedNotes(slots, k, homeId)
  {
    LoadChildrenNotes(base, notes, CachedChildren(slots, k), homeId);
    CachedChildNotes(slots, homeId, k);
  }

  /** The `NodeAdded` notifications the reader queues for a list of children. */
  function ChildNotes(children: seq<CacheChild>, homeId: uint32): seq<Notification>
  {
    if children == [] then []
    else if IsNodeTag(children[0].tag) && children[0].id.Some?
    then [NodeNote(NodeAdded, homeId, ToUInt8(children[0].id.value))] + ChildNotes(children[1..], homeId)
    else ChildNotes(children[1..], homeId)
  }

  /** The notifications do not depend on what the table held before. */
  lemma {:induction false} LoadChildrenNotes(slots: seq<Option<Node>>, notes: seq<Notification>,
                                             children: seq<CacheChild>, homeId: uint32)
    requires |slots| == 256
    ensures LoadChildren(slots, notes, children, homeId).1 == notes + ChildNotes(children, homeId)
    decreases |children|
  {
    if children == [] {
      assert notes + [] == notes;
    } else {
      var c := children[0];
      if IsNodeTag(c.tag) && c.id.Some? {
        var id := ToUInt8(c.id.value);
        var note := NodeNote(NodeAdded, homeId, id);
        LoadChildrenNotes(slots[id := Some(RestoreNode(id, c.snapshot))], notes + [note], children[1..], homeId);
        assert notes + [note] + ChildNotes(children[1..], homeId) == notes + ChildNotes(children, homeId);
      } else {
        LoadChildrenNotes(slots, notes, children[1..], homeId);
      }
    }
  }

  lemma {:induction false} CachedChildNotes(slots: seq<Option<Node>>, homeId: uint32, k: nat)
    requires SlotsValid(slots) && k <= 256
    ensures ChildNotes(CachedChildren(slots, k), homeId) == AddedNotes(slots, k, homeId)
    decreases 256 - k
  {
    var cs := CachedChildren(slots, k);
    if k == 256 {
      assert cs == [];
    } else {
      CachedChildNotes(slots, homeId, k + 1);
      if Cached(slots[k]) {
        var node := slots[k].value;
        assert cs == [CacheChild("Node", Some(node.id), node)] + CachedChildren(slots, k + 1);
        assert cs[1..] == CachedChildren(slots, k + 1);
        NarrowIdentity(k);
      } else {
        assert cs == CachedChildren(slots, k + 1);
      }
    }
  }

  /** `NodeAdded` for each cached slot from `k` on. */
  function AddedNotes(slots: seq<Option<Node>>, k: nat, homeId: uint32): seq<Notification>
    requires |slots| == 256
    // Naming the table in the decreases clause keeps a call with a literal index from being
    // unfolded over the whole range.
    decreases 256 - k, |slots|
  {
    if k >= 256 then []
    else (if Cached(slots[k]) then [NodeNote(NodeAdded, homeId, k)] else []) + AddedNotes(slots, k + 1, homeId)
  }

  /** The position of the first `Node` element with the given id, if any. */
  function FirstNodeIndex(children: seq<CacheChild>, id: uint8): (r: Option<nat>)
    ensures r.None? ==> forall j :: 0 <= j < |children| ==> !IsNodeElement(children[j], id)
    ensures r.Some? ==> r.value < |children| && IsNodeElement(children[r.value], id)
    ensures r.Some? ==> forall j :: 0 <= j < r.value ==> !IsNodeElement(children[j], id)
  {
    if children == [] then None
    else if IsNodeElement(children[0], id) then Some(0)
    else
      match FirstNodeIndex(children[1..], id)
      case None => None
      case Some(i) => Some(i + 1)
  }

  /** Removing a node's record drops exactly the first matching element and keeps the order of
      the rest; with no match the children stay as they are. */
  lemma {:induction false} RemoveFirstNodeSpec(children: seq<CacheChild>, id: uint8)
    ensures FirstNodeIndex(children, id).None? ==> RemoveFirstNode(children, id) == children
    ensures FirstNodeIndex(children, id).Some? ==>
              var i := FirstNodeIndex(children, id).value;
              RemoveFirstNode(children, id) == children[..i] + children[i + 1..]
  {
    if children != [] && !IsNodeElement(children[0], id) {
      var t := children[1..];
      RemoveFirstNodeSpec(t, id);
      match FirstNodeIndex(t, id)
      case None =>
        assert [children[0]] + t == children;
      case Some(i) =>
        assert children[..i + 1] == [children[0]] + t[..i];
        assert children[i + 2..] == t[i + 1..];
    }
  }

  /** The map `m` with the entries of `m0` from key `k` on written over it. */
  function MergeFrom(m: map<uint8, uint8>, m0: map<uint8, uint8>, k: nat): map<uint8, uint8>
  {
    m + map x | x in m0 && x as int >= k :: m0[x]
  }

  /** One saved `Button` element: the reader stores its entry with `m_buttonMap[buttonId] =
      nodeId` and announces it. */
  lemma ReadOneButton(m: map<uint8, uint8>, notes: seq<Notification>, key: uint8, v: uint8,
                      bs: seq<ButtonElement>, homeId: uint32)
    requires |bs| > 0 && bs[0] == ButtonElement("Button", Some(key), Some(CText.Dec(v)))
    ensures ReadButtonList(m, notes, bs, homeId) ==
              ReadButtonList(m[key := v], notes + [CreateButtonNote(homeId, v, key)], bs[1..], homeId)
  {
    CText.StrToLReadsDec(v);
    NarrowIdentity(v);
    NarrowIdentity(key);
  }

  /** Reading back a map's saved entries from key `k` on writes them over whatever map the
      node holds and announces each, in key order. */
  lemma {:induction false} ReadOwnEntries(m: map<uint8, uint8>, m0: map<uint8, uint8>,
                                          notes: seq<Notification>, homeId: uint32, k: nat)
    requires k <= 256
    ensures ReadButtonList(m, notes, ButtonEntries(m0, k), homeId) ==
              ButtonLoad(MergeFrom(m, m0, k), notes + ButtonNotes(m0, k, homeId), false)
    decreases 256 - k
  {
    if k == 256 {
      assert notes + [] == notes;
      assert MergeFrom(m, m0, k) == m;
    } else {
      var more := if k in m0 then [CreateButtonNote(homeId, m0[k], k)] else [];
      var rest := ButtonNotes(m0, k + 1, homeId);
      var m1 := if k in m0 then m[k as uint8 := m0[k]] else m;
      ReadOwnEntry(m, m0, notes, homeId, k);
      ReadOwnEntries(m1, m0, notes + more, homeId, k + 1);
      MergeStep(m, m0, k);
      assert ButtonNotes(m0, k, homeId) == more + rest;
      AppendAssoc(notes, more, rest);
    }
  }

  /** Writing entry `k` first, then the entries above it, is writing the entries from `k` on. */
  lemma MergeStep(m: map<uint8, uint8>, m0: map<uint8, uint8>, k: nat)
    requires k < 256
    ensures MergeFrom(if k in m0 then m[k as uint8 := m0[k]] else m, m0, k + 1) == MergeFrom(m, m0, k)
  {
  }

  /** One step of the reader over the saved entries. */
  lemma ReadOwnEntry(m: map<uint8, uint8>, m0: map<uint8, uint8>, notes: seq<Notification>, homeId: uint32, k: nat)
    requires k < 256
    ensures ReadButtonList(m, notes, ButtonEntries(m0, k), homeId) ==
              ReadButtonList(if k in m0 then m[k as uint8 := m0[k]] else m,
                             notes + (if k in m0 then [CreateButtonNote(homeId, m0[k], k)] else []),
                             ButtonEntries(m0, k + 1), homeId)
  {
    var bs := ButtonEntries(m0, k);
    if k in m0 {
      assert bs == [ButtonElement("Button", Some(k), Some(CText.Dec(m0[k])))] + ButtonEntries(m0, k + 1);
      ReadOneButton(m, notes, k, m0[k], bs, homeId);
      assert bs[1..] == ButtonEntries(m0, k + 1);
    } else {
      assert bs == ButtonEntries(m0, k + 1);
      assert notes + [] == notes;
    }
  }

  /** The reader passes over a `Node` element that is not the requested node's. */
  lemma SkipNodeElement(node: Option<Node>, id: uint8, m: map<uint8, uint8>, notes: seq<Notification>,
                        es: seq<ButtonNodeElement>, homeId: uint32)
    requires |es| > 0 && es[0].id != Some(id as int32)
    ensures ReadButtonNodes(node, id, m, notes, es, homeId) == ReadButtonNodes(node, id, m, notes, es[1..], homeId)
  {
  }

  /** The reader loads the requested node's element and goes on with the rest. */
  lemma TakeNodeElement(node: Option<Node>, id: uint8, m: map<uint8, uint8>, notes: seq<Notification>,
                        es: seq<ButtonNodeElement>, homeId: uint32, m1: map<uint8, uint8>, more: seq<Notification>)
    requires |es| > 0 && IsNodeTag(es[0].tag) && es[0].id == Some(id as int32) && node.Some?
    requires ReadButtonList(m, notes, es[0].buttons, homeId) == ButtonLoad(m1, notes + more, false)
    ensures ReadButtonNodes(node, id, m, notes, es, homeId) == ReadButtonNodes(node, id, m1, notes + more, es[1..], homeId)
  {
  }

  /** The saved button elements from slot `k` up to `id` hold the requested node's own element
      (one at most) and others the reader skips: the node's saved entries are written over the
      map `m` it holds when it reads, and nothing else is read. */
  lemma {:induction false} ReadSavedNodes(slots: seq<Option<Node>>, id: uint8, node: Option<Node>,
                                          m: map<uint8, uint8>, notes: seq<Notification>, homeId: uint32, k: nat)
    requires |slots| == 256 && slots[id].Some? && node.Some? && 1 <= k <= id
    ensures var bm := slots[id].value.buttonMap;
            ReadButtonNodes(node, id, m, notes, ButtonNodes(slots, k), homeId) ==
              ButtonLoad(m + bm, notes + ButtonNotes(bm, 0, homeId), false)
    decreases 256 - k
  {
    var bm := slots[id].value.buttonMap;
    if k == id {
      ReadNodeOwnElement(slots, id, node, m, notes, homeId);
      PassSavedNodes(slots, id, node, m + bm, notes + ButtonNotes(bm, 0, homeId), homeId, k + 1);
    } else {
      ReadNodeOtherElement(slots, id, node, m, notes, homeId, k);
      ReadSavedNodes(slots, id, node, m, notes, homeId, k + 1);
    }
  }

  /** The saved button elements above slot `id` belong to other nodes: the reader passes over
      them and keeps what it has. */
  lemma {:induction false} PassSavedNodes(slots: seq<Option<Node>>, id: uint8, node: Option<Node>,
                                          m: map<uint8, uint8>, notes: seq<Notification>, homeId: uint32, k: nat)
    requires |slots| == 256 && id < k <= 256
    ensures ReadButtonNodes(node, id, m, notes, ButtonNodes(slots, k), homeId) == ButtonLoad(m, notes, false)
    decreases 256 - k
  {
    if k < 256 {
      ReadNodeOtherElement(slots, id, node, m, notes, homeId, k);
      PassSavedNodes(slots, id, node, m, notes, homeId, k + 1);
    }
  }

  /** Slot `id`'s own element: its entries are written over the map, then the rest follows. */
  lemma ReadNodeOwnElement(slots: seq<Option<Node>>, id: uint8, node: Option<Node>, m: map<uint8, uint8>,
                           notes: seq<Notification>, homeId: uint32)
    requires |slots| == 256 && slots[id].Some? && node.Some? && 1 <= id
    ensures var bm := slots[id].value.buttonMap;
            ReadButtonNodes(node, id, m, notes, ButtonNodes(slots, id), homeId) ==
              ReadButtonNodes(node, id, m + bm, notes + ButtonNotes(bm, 0, homeId), ButtonNodes(slots, id + 1), homeId)
  {
    var bm := slots[id].value.buttonMap;
    var es := ButtonNodes(slots, id);
    if bm != map[] {
      var e := ButtonNodeElement("Node", Some(id), ButtonEntries(bm, 0));
      assert es == [e] + ButtonNodes(slots, id + 1);
      ReadOwnEntries(m, bm, notes, homeId, 0);
      assert MergeFrom(m, bm, 0) == m + bm;
      TakeNodeElement(node, id, m, notes, es, homeId, m + bm, ButtonNotes(bm, 0, homeId));
      assert es[1..] == ButtonNodes(slots, id + 1);
    } else {
      assert es == ButtonNodes(slots, id + 1);
      EmptyButtonNotes(homeId, 0);
      assert notes + [] == notes && m + bm == m;
    }
  }

  /** Any other slot's element is passed over. */
  lemma ReadNodeOtherElement(slots: seq<Option<Node>>, id: uint8, node: Option<Node>, m: map<uint8, uint8>,
                             notes: seq<Notification>, homeId: uint32, k: nat)
    requires |slots| == 256 && k < 256 && k != id
    ensures ReadButtonNodes(node, id, m, notes, ButtonNodes(slots, k), homeId) ==
              ReadButtonNodes(node, id, m, notes, ButtonNodes(slots, k + 1), homeId)
  {
    var es := ButtonNodes(slots, k);
    if slots[k].Some? && slots[k].value.buttonMap != map[] {
      var e := ButtonNodeElement("Node", Some(k), ButtonEntries(slots[k].value.buttonMap, 0));
      assert es == [e] + ButtonNodes(slots, k + 1);
      SkipNodeElement(node, id, m, notes, es, homeId);
      assert es[1..] == ButtonNodes(slots, k + 1);
    } else {
      assert es == ButtonNodes(slots, k + 1);
    }
  }

  lemma {:induction false} EmptyButtonNotes(homeId: uint32, k: nat)
    ensures ButtonNotes(map[], k, homeId) == []
    decreases 256 - k
  {
    if k < 256 { EmptyButtonNotes(homeId, k + 1); }
  }

  /** Saving the buttons and reading them back for node `id` writes the saved map over the map
      the node holds when it reads, and announces each saved button once, in button-id order.
      A node holding no buttons, as a re-created one does, gets the saved map back exactly;
      one still holding the saved map keeps it. */
  lemma ButtonsRoundTrip(slots: seq<Option<Node>>, id: uint8, node: Node, m: map<uint8, uint8>, homeId: uint32)
    requires |slots| == 256 && 1 <= id && slots[id].Some?
    ensures var bm := slots[id].value.buttonMap;
            ReadButtonNodes(Some(node), id, m, [], ButtonDocOf(slots).nodes, homeId) ==
              ButtonLoad(m + bm, ButtonNotes(bm, 0, homeId), false)
    ensures var bm := slots[id].value.buttonMap;
            ReadButtonNodes(Some(node), id, map[], [], ButtonDocOf(slots).nodes, homeId) ==
              ButtonLoad(bm, ButtonNotes(bm, 0, homeId), false)
    ensures var bm := slots[id].value.buttonMap;
            ReadButtonNodes(slots[id], id, bm, [], ButtonDocOf(slots).nodes, homeId) ==
              ButtonLoad(bm, ButtonNotes(bm, 0, homeId), false)
  {
    var bm := slots[id].value.buttonMap;
    ReadSavedNodes(slots, id, Some(node), m, [], homeId, 1);
    ReadSavedNodes(slots, id, Some(node), map[], [], homeId, 1);
    ReadSavedNodes(slots, id, slots[id], bm, [], homeId, 1);
    assert map[] + bm == bm && bm + bm == bm;
  }
}
