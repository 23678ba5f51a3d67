/**
 * The node table `m_nodes[256]` and the rules the driver applies to it, as functions over the
 * table's contents: value lookup, the delivery filter of the notification queue, the poll
 * intensity ledger, the nodes `InitNode` and `Start` install, the values the cache reload
 * re-enables for polling, and the targets of `TestNetwork`. `OzwDriver.Driver` applies them
 * to its array.
 */
module Registry {
  import opened Wrappers
  import opened ZWave

  /** Every node in the table keeps at most one value per key, as a value store does. */
  predicate StoresDistinct(slots: seq<Option<Node>>)
  {
    forall i :: 0 <= i < |slots| && slots[i].Some? ==> DistinctKeys(slots[i].value.values)
  }

  /** `Driver::GetValue`: the node in the value id's slot, then its value with the id's key. */
  function ValueAt(slots: seq<Option<Node>>, vid: ValueId): (r: Option<Value>)
    requires |slots| == 256
    ensures r.Some? ==> slots[vid.nodeId].Some? && r.value in slots[vid.nodeId].value.values
    ensures r.Some? ==> r.value.key == vid.key
  {
    if slots[vid.nodeId].None? then None else Lookup(slots[vid.nodeId].value.values, vid.key)
  }

  // ------------------------------------------------------------------
  // Delivery of queued notifications
  // ------------------------------------------------------------------

  /** A notification reaches the watchers unless it is about a value that no longer exists. */
  predicate Deliverable(slots: seq<Option<Node>>, n: Notification)
    requires |slots| == 256
  {
    !IsValueNote(n.kind) || ValueAt(slots, n.valueId).Some?
  }

  /** What `NotifyWatchers` hands on from a queue, in queue order. */
  function Deliver(slots: seq<Option<Node>>, q: seq<Notification>): (r: seq<Notification>)
    requires |slots| == 256
    ensures |r| <= |q|
  {
    if q == [] then []
    else (if Deliverable(slots, q[0]) then [q[0]] else []) + Deliver(slots, q[1..])
  }

  /** Draining two queues one after the other delivers what each delivers, in that order. */
  lemma {:induction false} DeliverAppend(slots: seq<Option<Node>>, a: seq<Notification>, b: seq<Notification>)
    requires |slots| == 256
    ensures Deliver(slots, a + b) == Deliver(slots, a) + Deliver(slots, b)
    decreases |a|
  {
    if a != [] {
      assert (a + b)[1..] == a[1..] + b;
      DeliverAppend(slots, a[1..], b);
    } else {
      assert a + b == b;
    }
  }

  /** A notification is delivered exactly when it was queued and is deliverable. */
  lemma {:induction false} DeliverMembers(slots: seq<Option<Node>>, q: seq<Notification>, n: Notification)
    requires |slots| == 256
    ensures n in Deliver(slots, q) <==> n in q && Deliverable(slots, n)
    decreases |q|
  {
    if q != [] {
      DeliverMembers(slots, q[1..], n);
      assert q == [q[0]] + q[1..];
    }
  }

  /** A queue without value notifications is delivered whole. */
  lemma {:induction false} DeliverNonValueNotes(slots: seq<Option<Node>>, q: seq<Notification>)
    requires |slots| == 256
    requires forall i :: 0 <= i < |q| ==> !IsValueNote(q[i].kind)
    ensures Deliver(slots, q) == q
    decreases |q|
  {
    if q != [] {
      DeliverNonValueNotes(slots, q[1..]);
      assert q == [q[0]] + q[1..];
    }
  }

  // ------------------------------------------------------------------
  // Poll intensity
  // ------------------------------------------------------------------

  /** The table after `Value::SetPollIntensity(n)` on the value `vid` names, when it exists. */
  function WithIntensity(slots: seq<Option<Node>>, vid: ValueId, n: uint8): (r: seq<Option<Node>>)
    requires |slots| == 256
    ensures |r| == 256
    ensures forall i :: 0 <= i < 256 && i != vid.nodeId ==> r[i] == slots[i]
  {
    if ValueAt(slots, vid).None? then slots
    else
      var node := slots[vid.nodeId].value;
      slots[vid.nodeId := Some(node.(values := SetIntensity(node.values, vid.key, n)))]
  }

  /** Setting an intensity keeps the table well formed and gives the named value, if there is
      one, the new intensity. */
  lemma WithIntensityEffect(slots: seq<Option<Node>>, vid: ValueId, n: uint8)
    requires SlotsValid(slots) && StoresDistinct(slots)
    ensures SlotsValid(WithIntensity(slots, vid, n)) && StoresDistinct(WithIntensity(slots, vid, n))
    ensures ValueAt(WithIntensity(slots, vid, n), vid) ==
              if ValueAt(slots, vid).Some? then Some(ValueAt(slots, vid).value.(pollIntensity := n)) else None
  {
    if ValueAt(slots, vid).Some? {
      var node := slots[vid.nodeId].value;
      var vs := SetIntensity(node.values, vid.key, n);
      SetIntensityKeepsKeys(node.values, vid.key, n);
      var r := slots[vid.nodeId := Some(node.(values := vs))];
      assert WithIntensity(slots, vid, n) == r;
      forall i | 0 <= i < 256 && r[i].Some?
        ensures r[i].value.id == i && DistinctKeys(r[i].value.values)
      {
        if i == vid.nodeId {
          assert r[i] == Some(node.(values := vs));
        } else {
          assert r[i] == slots[i];
        }
      }
    }
  }

  /** ... and leaves every other value of the table as it was. */
  lemma WithIntensityOthers(slots: seq<Option<Node>>, vid: ValueId, n: uint8, w: ValueId)
    requires |slots| == 256
    requires w.nodeId != vid.nodeId || w.key != vid.key
    ensures ValueAt(WithIntensity(slots, vid, n), w) == ValueAt(slots, w)
  {
    if ValueAt(slots, vid).Some? && w.nodeId == vid.nodeId {
      SetIntensityOtherKey(slots[vid.nodeId].value.values, vid.key, n, w.key);
    }
  }

  lemma SetIntensityOtherKey(vs: seq<Value>, k: ValueKey, n: uint8, k': ValueKey)
    requires k != k'
    ensures Lookup(SetIntensity(vs, k, n), k') == Lookup(vs, k')
  {
    if vs != [] {
      SetIntensityOtherKey(vs[1..], k, n, k');
    }
  }

  /** Re-enabling a value with the intensity it already has changes nothing. */
  lemma {:induction false} SameIntensityNoChange(vs: seq<Value>, k: ValueKey, n: uint8)
    requires DistinctKeys(vs)
    requires forall i :: 0 <= i < |vs| && vs[i].key == k ==> vs[i].pollIntensity == n
    ensures SetIntensity(vs, k, n) == vs
  {
    var r := SetIntensity(vs, k, n);
    forall i | 0 <= i < |vs| ensures r[i] == vs[i] {
      if vs[i].key == k { assert vs[i].(pollIntensity := n) == vs[i]; }
    }
  }

  /** Re-enabling a stored value with its own intensity, as the cache reload does, leaves the
      table as it was. */
  lemma ReplayKeepsTable(slots: seq<Option<Node>>, homeId: uint32, i: uint8, j: nat)
    requires SlotsValid(slots) && StoresDistinct(slots)
    requires slots[i].Some? && j < |slots[i].value.values|
    ensures var v := slots[i].value.values[j];
            WithIntensity(slots, ValueId(homeId, i, v.key), v.pollIntensity) == slots
  {
    var vs := slots[i].value.values;
    var v := vs[j];
    LookupUnique(vs, v.key);
    SameIntensityNoChange(vs, v.key, v.pollIntensity);
    assert slots[i].value.(values := vs) == slots[i].value;
  }

  /** `PollingEnabled` for a value; its home id is the driver's. */
  function PollNote(homeId: uint32, vid: ValueId): Notification
  {
    Notification(PollingEnabled, homeId, vid.nodeId, vid, 0, None)
  }

  /** The `PollingEnabled` notifications re-enabling the polled values of a store gives, in
      store order (a value with intensity 0 is skipped). */
  function StorePollNotes(vs: seq<Value>, homeId: uint32, nodeId: uint8): seq<Notification>
  {
    if vs == [] then []
    else
      var v := vs[|vs| - 1];
      StorePollNotes(vs[..|vs| - 1], homeId, nodeId)
        + (if v.pollIntensity != 0 then [PollNote(homeId, ValueId(homeId, nodeId, v.key))] else [])
  }

  /** The same for slots `0 .. k - 1` of the table, in slot order. */
  function TablePollNotes(slots: seq<Option<Node>>, homeId: uint32, k: nat): seq<Notification>
    requires k <= |slots| <= 256
    // Naming the table in the decreases clause keeps a call with a literal index from being
    // unfolded over the whole range.
    decreases k, |slots|
  {
    if k == 0 then []
    else
      TablePollNotes(slots, homeId, k - 1)
        + (if slots[k - 1].Some? then StorePollNotes(slots[k - 1].value.values, homeId, k - 1) else [])
  }

  /** A store's notifications are exactly one per value with a non-zero intensity. */
  lemma {:induction false} StorePollNotesMembers(vs: seq<Value>, homeId: uint32, nodeId: uint8, n: Notification)
    ensures n in StorePollNotes(vs, homeId, nodeId) <==>
              exists j :: 0 <= j < |vs| && vs[j].pollIntensity != 0 && n == PollNote(homeId, ValueId(homeId, nodeId, vs[j].key))
    decreases |vs|
  {
    if vs != [] {
      var init := vs[..|vs| - 1];
      StorePollNotesMembers(init, homeId, nodeId, n);
      if exists j :: 0 <= j < |init| && init[j].pollIntensity != 0 && n == PollNote(homeId, ValueId(homeId, nodeId, init[j].key)) {
        var j :| 0 <= j < |init| && init[j].pollIntensity != 0 && n == PollNote(homeId, ValueId(homeId, nodeId, init[j].key));
        assert vs[j] == init[j];
      }
      if exists j :: 0 <= j < |vs| && vs[j].pollIntensity != 0 && n == PollNote(homeId, ValueId(homeId, nodeId, vs[j].key)) {
        var j :| 0 <= j < |vs| && vs[j].pollIntensity != 0 && n == PollNote(homeId, ValueId(homeId, nodeId, vs[j].key));
        if j < |init| { assert vs[j] == init[j]; }
      }
    }
  }

  /** The table's notifications are exactly one per polled value of a node in slots below `k`. */
  lemma {:induction false} TablePollNotesMembers(slots: seq<Option<Node>>, homeId: uint32, k: nat, n: Notification)
    requires k <= |slots| <= 256
    ensures n in TablePollNotes(slots, homeId, k) <==>
              exists i, j :: 0 <= i < k && slots[i].Some? && 0 <= j < |slots[i].value.values| &&
                slots[i].value.values[j].pollIntensity != 0 &&
                n == PollNote(homeId, ValueId(homeId, i, slots[i].value.values[j].key))
  {
    if k > 0 {
      TablePollNotesMembers(slots, homeId, k - 1, n);
      if slots[k - 1].Some? {
        StorePollNotesMembers(slots[k - 1].value.values, homeId, k - 1, n);
      }
    }
  }

  // ------------------------------------------------------------------
  // Installing nodes
  // ------------------------------------------------------------------

  /** The node `InitNode` installs: a new node, flagged as being added when `newNode`; with
      protocol information, its first `length` bytes are stored and the security flag is
      taken over only when a network key is configured. */
  function NewNode(id: uint8, newNode: bool, secure: bool, protocolInfo: seq<uint8>, length: uint8,
                   keyConfigured: bool): (n: Node)
    requires length as int <= |protocolInfo|
    ensures n.id == id && n.stage == FreshNode(id).stage && n.values == [] && n.buttonMap == map[]
    ensures n.addingNode == newNode
    ensures n.protocolInfo == protocolInfo[..length]
    ensures n.secured <==> length > 0 && keyConfigured && secure
  {
    var n := FreshNode(id).(addingNode := newNode);
    if length == 0 then n
    else n.(secured := if keyConfigured then secure else n.secured, protocolInfo := protocolInfo[..length])
  }

  /** What `Start` makes of slot `i` when the controller reports the ids in `present`: a known
      node moves to `CacheLoad` unless the driver is initialised, a new id gets a fresh node,
      and every other slot stays as it is. */
  function Discovered(slot: Option<Node>, i: nat, present: set<uint8>, init: bool): Option<Node>
  {
    if 1 <= i <= 232 && i in present then
      if slot.Some? then (if !init then Some(slot.value.(stage := CacheLoad)) else slot)
      else Some(FreshNode(i))
    else slot
  }

  /** The whole table after `Start`'s loop. */
  function DiscoveredTable(slots: seq<Option<Node>>, present: set<uint8>, init: bool): (r: seq<Option<Node>>)
    ensures |r| == |slots|
  {
    seq(|slots|, i requires 0 <= i < |slots| => Discovered(slots[i], i, present, init))
  }

  /** The `NodeNew` and `NodeAdded` pair each new id below `hi` gets, in id order. */
  function DiscoverNotes(slots: seq<Option<Node>>, present: set<uint8>, homeId: uint32, hi: nat): seq<Notification>
    requires hi <= 233 && |slots| == 256
    // Naming the table in the decreases clause keeps a call with a literal index from being
    // unfolded over the whole range.
    decreases hi, |slots|
  {
    if hi <= 1 then []
    else
      var i := hi - 1;
      DiscoverNotes(slots, present, homeId, hi - 1)
        + (if i in present && slots[i].None? then [NodeNote(NodeNew, homeId, i), NodeNote(NodeAdded, homeId, i)] else [])
  }

  /** After `Start`, every reported id from 1 to 232 has a node with that id; the slots of other
      ids are untouched; a known node keeps everything but its stage. */
  lemma DiscoveredTableFacts(slots: seq<Option<Node>>, present: set<uint8>, init: bool)
    requires SlotsValid(slots)
    ensures SlotsValid(DiscoveredTable(slots, present, init))
    ensures forall i :: 1 <= i <= 232 && i in present ==> DiscoveredTable(slots, present, init)[i].Some?
    ensures forall i :: 0 <= i < 256 && (i !in present || i == 0 || i > 232) ==>
              DiscoveredTable(slots, present, init)[i] == slots[i]
    ensures forall i :: 0 <= i < 256 && slots[i].Some? ==>
              DiscoveredTable(slots, present, init)[i].Some? &&
              DiscoveredTable(slots, present, init)[i].value.(stage := slots[i].value.stage) == slots[i].value
  {
  }

  /** A notification of `Start`'s loop names a new reported id, and every new reported id gets
      its two notifications. */
  lemma {:induction false} DiscoverNotesMembers(slots: seq<Option<Node>>, present: set<uint8>, homeId: uint32,
                                                hi: nat, n: Notification)
    requires hi <= 233 && |slots| == 256
    ensures n in DiscoverNotes(slots, present, homeId, hi) <==>
              exists i: uint8 :: 1 <= i < hi && i in present && slots[i].None? &&
                (n == NodeNote(NodeNew, homeId, i) || n == NodeNote(NodeAdded, homeId, i))
  {
    if hi > 1 {
      DiscoverNotesMembers(slots, present, homeId, hi - 1, n);
      var i: uint8 := hi - 1;
      if n == NodeNote(NodeNew, homeId, i) || n == NodeNote(NodeAdded, homeId, i) {
        if i in present && slots[i].None? { assert 1 <= i < hi; }
      }
    }
  }

  /** Each new reported id contributes exactly two notifications. */
  lemma {:induction false} DiscoverNotesCount(slots: seq<Option<Node>>, present: set<uint8>, homeId: uint32, hi: nat)
    requires hi <= 233 && |slots| == 256
    ensures |DiscoverNotes(slots, present, homeId, hi)| == 2 * |NewIds(slots, present, hi)|
  {
    if hi > 1 {
      DiscoverNotesCount(slots, present, homeId, hi - 1);
      var i: uint8 := hi - 1;
      if i in present && slots[i].None? {
        assert NewIds(slots, present, hi) == NewIds(slots, present, hi - 1) + {i};
        assert i !in NewIds(slots, present, hi - 1);
      } else {
        assert NewIds(slots, present, hi) == NewIds(slots, present, hi - 1);
      }
    }
  }

  /** The reported ids from 1 below `hi` that had no node. */
  function NewIds(slots: seq<Option<Node>>, present: set<uint8>, hi: nat): set<uint8>
    requires |slots| == 256
  {
    set i: uint8 | 1 <= i < hi && i in present && slots[i].None?
  }

  // ------------------------------------------------------------------
  // TestNetwork
  // ------------------------------------------------------------------

  /** The number of rounds `for (int j = 0; j < (int) _count; j++)` runs. */
  function Rounds(count: uint32): nat
  {
    if ToInt32(count) < 0 then 0 else ToInt32(count)
  }

  /** `count` copies of `id`, one per `NoOperation::Set`. */
  function Repeat(id: uint8, count: nat): (r: seq<uint8>)
    ensures |r| == count && forall k :: 0 <= k < count ==> r[k] == id
  {
    if count == 0 then [] else Repeat(id, count - 1) + [id]
  }

  /** The nodes of slots `0 .. k - 1` that `TestNetwork(0, count)` sends to, in slot order. */
  function AllTargets(slots: seq<Option<Node>>, controller: uint8, rounds: nat, k: nat): seq<uint8>
    requires k <= |slots| <= 256
    // Naming the table in the decreases clause keeps a call with a literal index from being
    // unfolded over the whole range.
    decreases k, |slots|
  {
    if k == 0 then []
    else AllTargets(slots, controller, rounds, k - 1)
           + (if k - 1 != controller && slots[k - 1].Some? then Repeat(k - 1, rounds) else [])
  }

  /** The no-operation frames `TestNetwork(nodeId, count)` sends, as target ids. */
  function NoOpTargets(slots: seq<Option<Node>>, nodeId: uint8, controller: uint8, count: uint32): seq<uint8>
    requires |slots| == 256
  {
    if nodeId == 0 then AllTargets(slots, controller, Rounds(count), 256)
    else if nodeId != controller && slots[nodeId].Some? then Repeat(nodeId, Rounds(count))
    else []
  }

  /** The controller is never a target, every target has a node, and a count of 2^31 or more
      sends nothing (the loop bound turns negative). */
  lemma {:induction false} AllTargetsFacts(slots: seq<Option<Node>>, controller: uint8, rounds: nat, k: nat)
    requires k <= |slots| == 256
    ensures forall t :: t in AllTargets(slots, controller, rounds, k) ==> t != controller && t < k && slots[t].Some?
    ensures rounds == 0 ==> AllTargets(slots, controller, rounds, k) == []
  {
    if k > 0 {
      AllTargetsFacts(slots, controller, rounds, k - 1);
    }
  }

  lemma NoOpTargetsFacts(slots: seq<Option<Node>>, nodeId: uint8, controller: uint8, count: uint32)
    requires |slots| == 256
    ensures forall t :: t in NoOpTargets(slots, nodeId, controller, count) ==> t != controller && slots[t].Some?
    ensures nodeId != 0 ==> forall t :: t in NoOpTargets(slots, nodeId, controller, count) ==> t == nodeId
    ensures count >= 0x8000_0000 ==> NoOpTargets(slots, nodeId, controller, count) == []
    ensures count < 0x8000_0000 && nodeId != 0 && nodeId != controller && slots[nodeId].Some? ==>
              |NoOpTargets(slots, nodeId, controller, count)| == count
  {
    AllTargetsFacts(slots, controller, Rounds(count), 256);
    NarrowIdentity(count);
  }
}
