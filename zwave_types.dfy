/**
 * The entities the driver and its command classes share: fixed-width integers, value
 * identifiers, a node's value store, the node record and the notifications queued for the
 * application.
 */
module ZWave {
  import opened Wrappers

  type uint8 = x: int | 0 <= x < 0x100
  type uint16 = x: int | 0 <= x < 0x1_0000
  type uint32 = x: int | 0 <= x < 0x1_0000_0000
  type int32 = x: int | -0x8000_0000 <= x < 0x8000_0000

  /** C's conversion of an integer to `uint8` (keeps the low 8 bits). */
  function ToUInt8(x: int): uint8 { x % 0x100 }

  /** C's conversion of an integer to `uint16`. */
  function ToUInt16(x: int): uint16 { x % 0x1_0000 }

  /** C's conversion of an integer to `uint32`. */
  function ToUInt32(x: int): uint32 { x % 0x1_0000_0000 }

  /** The two's-complement reading of the low 32 bits, as a `uint32` stored into an `int32`. */
  function ToInt32(x: int): int32
  {
    var u := x % 0x1_0000_0000;
    if u < 0x8000_0000 then u else u - 0x1_0000_0000
  }

  /** Each conversion leaves a value already in its range alone. */
  lemma NarrowIdentity(x: int)
    ensures 0 <= x < 0x100 ==> ToUInt8(x) == x
    ensures 0 <= x < 0x1_0000 ==> ToUInt16(x) == x
    ensures 0 <= x < 0x1_0000_0000 ==> ToUInt32(x) == x
    ensures 0 <= x < 0x8000_0000 ==> ToInt32(x) == x
  {
  }

  lemma Int32RoundTrip(u: uint32)
    ensures ToUInt32(ToInt32(u)) == u
  {
  }

  // ------------------------------------------------------------------
  // Values
  // ------------------------------------------------------------------

  datatype ValueGenre = Basic | User | Config | System

  /** What identifies a value within one node: command class, instance and index. */
  datatype ValueKey = ValueKey(commandClass: uint8, instance: uint8, index: uint16)

  /** A value identifier as the application sees it. */
  datatype ValueId = ValueId(homeId: uint32, nodeId: uint8, key: ValueKey)

  /** The identifier a notification carries when none was set. */
  const NoValueId := ValueId(0, 0, ValueKey(0, 0, 0))

  datatype Payload =
    | BoolVal(b: bool)
    | ByteVal(n: uint8)
    | IntVal(i: int32)
    | ButtonVal(pressed: bool)
    | StringVal(s: string)

  datatype Value = Value(key: ValueKey, genre: ValueGenre, caption: string, units: string,
                         readOnly: bool, payload: Payload, pollIntensity: uint8)

  predicate DistinctKeys(vs: seq<Value>)
  {
    forall i, j :: 0 <= i < j < |vs| ==> vs[i].key != vs[j].key
  }

  /** A node's value store: at most one value per key, in iteration order. */
  type Store = vs: seq<Value> | DistinctKeys(vs) witness []

  function Lookup(vs: seq<Value>, k: ValueKey): (r: Option<Value>)
    ensures r.Some? <==> exists i :: 0 <= i < |vs| && vs[i].key == k
    ensures r.Some? ==> r.value in vs && r.value.key == k
  {
    if vs == [] then None
    else if vs[0].key == k then Some(vs[0])
    else
      var r := Lookup(vs[1..], k);
      assert forall i :: 1 <= i < |vs| ==> vs[i] == vs[1..][i - 1];
      r
  }

  predicate Has(vs: seq<Value>, k: ValueKey)
  {
    Lookup(vs, k).Some?
  }

  /** `OnValueRefreshed` on the value with key `k`, if there is one. */
  function Refresh(vs: seq<Value>, k: ValueKey, p: Payload): (r: seq<Value>)
    ensures |r| == |vs|
    ensures forall i :: 0 <= i < |vs| ==>
              r[i] == (if vs[i].key == k then vs[i].(payload := p) else vs[i])
  {
    if vs == [] then []
    else [if vs[0].key == k then vs[0].(payload := p) else vs[0]] + Refresh(vs[1..], k, p)
  }

  /** `SetPollIntensity` on the value with key `k`, if there is one. */
  function SetIntensity(vs: seq<Value>, k: ValueKey, n: uint8): (r: seq<Value>)
    ensures |r| == |vs|
    ensures forall i :: 0 <= i < |vs| ==>
              r[i] == (if vs[i].key == k then vs[i].(pollIntensity := n) else vs[i])
  {
    if vs == [] then []
    else [if vs[0].key == k then vs[0].(pollIntensity := n) else vs[0]] + SetIntensity(vs[1..], k, n)
  }

  /** `Node::CreateValue*`: the value store takes a new value only when its key is free. */
  function Create(vs: Store, v: Value): Store
  {
    if Has(vs, v.key) then vs else vs + [v]
  }

  /** Appending a value with a fresh key leaves the earlier lookups alone. */
  lemma {:induction false} LookupAppend(vs: seq<Value>, v: Value)
    requires !Has(vs, v.key)
    ensures Lookup(vs + [v], v.key) == Some(v)
    ensures forall k :: k != v.key ==> Lookup(vs + [v], k) == Lookup(vs, k)
    ensures forall k :: Has(vs + [v], k) ==> Has(vs, k) || k == v.key
  {
    if vs != [] {
      assert (vs + [v])[1..] == vs[1..] + [v];
      LookupAppend(vs[1..], v);
    }
  }

  /** Two value sequences with the same keys position by position. */
  predicate SameKeys(a: seq<Value>, b: seq<Value>)
  {
    |a| == |b| && forall i :: 0 <= i < |a| ==> a[i].key == b[i].key
  }

  lemma SameKeysFacts(a: seq<Value>, b: seq<Value>)
    requires SameKeys(a, b)
    ensures DistinctKeys(a) ==> DistinctKeys(b)
    ensures forall k :: Has(a, k) <==> Has(b, k)
  {
    forall k ensures Has(a, k) <==> Has(b, k) {
      if Has(a, k) { var i :| 0 <= i < |a| && a[i].key == k; assert b[i].key == k; }
      if Has(b, k) { var i :| 0 <= i < |b| && b[i].key == k; assert a[i].key == k; }
    }
  }

  /** Updating a value in place keeps the keys, so the result is still a store. */
  lemma RefreshKeepsKeys(vs: Store, k: ValueKey, p: Payload)
    ensures DistinctKeys(Refresh(vs, k, p))
    ensures forall k' :: Has(Refresh(vs, k, p), k') <==> Has(vs, k')
    ensures Has(vs, k) ==> Lookup(Refresh(vs, k, p), k) == Some(Lookup(vs, k).value.(payload := p))
  {
    var r := Refresh(vs, k, p);
    assert SameKeys(vs, r);
    SameKeysFacts(vs, r);
    if Has(vs, k) {
      var i :| 0 <= i < |vs| && vs[i].key == k;
      LookupUnique(vs, k);
      LookupUnique(r, k);
      assert Lookup(r, k) == Some(r[i]);
    }
  }

  lemma SetIntensityKeepsKeys(vs: Store, k: ValueKey, n: uint8)
    ensures DistinctKeys(SetIntensity(vs, k, n))
    ensures forall k' :: Has(SetIntensity(vs, k, n), k') <==> Has(vs, k')
    ensures Has(vs, k) ==>
              Lookup(SetIntensity(vs, k, n), k) == Some(Lookup(vs, k).value.(pollIntensity := n))
  {
    var r := SetIntensity(vs, k, n);
    assert SameKeys(vs, r);
    SameKeysFacts(vs, r);
    if Has(vs, k) {
      var i :| 0 <= i < |vs| && vs[i].key == k;
      LookupUnique(vs, k);
      LookupUnique(r, k);
      assert Lookup(r, k) == Some(r[i]);
    }
  }

  /** In a store, the value found for a key is the one at the key's position. */
  lemma LookupUnique(vs: seq<Value>, k: ValueKey)
    requires DistinctKeys(vs) && Has(vs, k)
    ensures forall i :: 0 <= i < |vs| && vs[i].key == k ==> Lookup(vs, k) == Some(vs[i])
  {
    if vs[0].key != k {
      assert DistinctKeys(vs[1..]) by {
        forall i, j | 0 <= i < j < |vs[1..]| ensures vs[1..][i].key != vs[1..][j].key {
          assert vs[1..][i] == vs[i + 1] && vs[1..][j] == vs[j + 1];
        }
      }
      assert Has(vs[1..], k) by {
        var i :| 0 <= i < |vs| && vs[i].key == k;
        assert vs[1..][i - 1].key == k;
      }
      LookupUnique(vs[1..], k);
      forall i | 0 <= i < |vs| && vs[i].key == k ensures Lookup(vs, k) == Some(vs[i]) {
        assert vs[1..][i - 1] == vs[i];
      }
    }
  }

  // ------------------------------------------------------------------
  // Nodes
  // ------------------------------------------------------------------

  /** The interview stages of a node, in the order OpenZWave's `Node::QueryStage` declares them. */
  datatype QueryStage =
    | ProtocolInfo | Probe | WakeUp | ManufacturerSpecific1 | NodeInfo | NodePlusInfo
    | SecurityReport | ManufacturerSpecific2 | Versions | Instances | Static | CacheLoad
    | Associations | Neighbors | Session | Dynamic | Configuration | Complete | NoStage

  function StageRank(s: QueryStage): nat
  {
    match s
    case ProtocolInfo => 0
    case Probe => 1
    case WakeUp => 2
    case ManufacturerSpecific1 => 3
    case NodeInfo => 4
    case NodePlusInfo => 5
    case SecurityReport => 6
    case ManufacturerSpecific2 => 7
    case Versions => 8
    case Instances => 9
    case Static => 10
    case CacheLoad => 11
    case Associations => 12
    case Neighbors => 13
    case Session => 14
    case Dynamic => 15
    case Configuration => 16
    case Complete => 17
    case NoStage => 18
  }

  /** A node whose stage is at least `CacheLoad` has finished its static interview. */
  predicate PastCacheLoad(s: QueryStage)
  {
    StageRank(s) >= StageRank(CacheLoad)
  }

  /** A message held back until a sleeping node wakes up. */
  datatype WakeUpItem = ReloadNodeItem(nodeId: uint8)

  /** The part of a node's WakeUp command class the driver consults. */
  datatype WakeUpState = WakeUpState(awake: bool, pending: seq<WakeUpItem>)

  /** The fields of a node the driver reads or writes. */
  datatype Node = Node(
    id: uint8,
    stage: QueryStage,
    values: seq<Value>,
    buttonMap: map<uint8, uint8>,
    listening: bool,
    wakeUp: Option<WakeUpState>,
    addingNode: bool,
    secured: bool,
    protocolInfo: seq<uint8>,
    manufacturerId: uint16,
    productType: uint16,
    productId: uint16,
    fileConfigRevision: uint32,
    latestConfigRevision: uint32)

  /** `new Node(homeId, id)`. */
  function FreshNode(id: uint8): Node
  {
    Node(id, ProtocolInfo, [], map[], true, None, false, false, [], 0, 0, 0, 0, 0)
  }

  /** The driver's node table: 256 slots, slot `i` holding only a node whose id is `i`. */
  predicate SlotsValid(slots: seq<Option<Node>>)
  {
    |slots| == 256 && forall i :: 0 <= i < 256 && slots[i].Some? ==> slots[i].value.id == i
  }

  // ------------------------------------------------------------------
  // Notifications
  // ------------------------------------------------------------------

  datatype NotificationType =
    | ValueAdded | ValueRemoved | ValueChanged | ValueRefreshed
    | NodeNew | NodeAdded | NodeRemoved | NodeNaming
    | PollingDisabled | PollingEnabled | CreateButton
    | DriverReady | DriverFailed | UserAlerts

  datatype UserAlert =
    | ConfigOutOfDate | MFSOutOfDate | ConfigFileDownloadFailed | DNSError | NodeReloadRequired

  /** A queued notification; the ids a sender did not set stay 0. */
  datatype Notification = Notification(
    kind: NotificationType,
    homeId: uint32,
    nodeId: uint8,
    valueId: ValueId,
    buttonId: uint8,
    alert: Option<UserAlert>)

  /** A notification whose type and home and node ids are set, such as `NodeAdded`. */
  function NodeNote(kind: NotificationType, homeId: uint32, nodeId: uint8): Notification
  {
    Notification(kind, homeId, nodeId, NoValueId, 0, None)
  }

  /** A `UserAlerts` notification with only its alert set. */
  function AlertNote(a: UserAlert): Notification
  {
    Notification(UserAlerts, 0, 0, NoValueId, 0, Some(a))
  }

  /** The notification types that carry a value id the driver checks before delivery. */
  predicate IsValueNote(k: NotificationType)
  {
    k == ValueAdded || k == ValueChanged || k == ValueRefreshed
  }
}
