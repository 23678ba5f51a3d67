/**
 * What the command classes share: the request flags a caller passes, the Z-Way data change
 * types a watcher receives, the Z-Way commands a command class issues (recorded rather than
 * sent, each with the success a caller supplies), and the data paths it watches.
 */
module CommandClasses {
  import opened Wrappers
  import opened ZWave

  /** `RequestFlag_Dynamic` of OpenZWave's `CommandClass::RequestFlags`. */
  const RequestFlagDynamic: uint32 := 0x04

  /** `_requestFlags & flag` is non-zero. */
  predicate HasFlag(flags: uint32, flag: uint32)
  {
    (flags as bv32) & (flag as bv32) != 0
  }

  // ------------------------------------------------------------------
  // Z-Way data change types (`ZWDataChangeType`)
  // ------------------------------------------------------------------

  const Updated: uint8 := 0x01
  const Invalidated: uint8 := 0x02
  const Deleted: uint8 := 0x03
  const ChildCreated: uint8 := 0x04
  const PhantomUpdate: uint8 := 0x40
  const ChildEvent: uint8 := 0x80

  /** `type & ~PhantomUpdate`. */
  function WithoutPhantom(t: uint8): uint8
  {
    ((t as bv8) & !(PhantomUpdate as bv8)) as int
  }

  /** The test the binary switch and manufacturer watchers apply: an update, phantom or not. */
  predicate IsUpdate(t: uint8)
  {
    WithoutPhantom(t) == Updated
  }

  /** Masking the phantom bit accepts exactly a plain update and an update flagged phantom. */
  lemma IsUpdateCases(t: uint8)
    ensures IsUpdate(t) <==> t == Updated || t == Updated + PhantomUpdate
  {
    var b := t as bv8;
    assert (b & 0xBF == 0x01) <==> (b == 0x01 || b == 0x41);
    assert WithoutPhantom(t) == (b & 0xBF) as int;
  }

  // ------------------------------------------------------------------
  // Z-Way commands
  // ------------------------------------------------------------------

  /** The duration byte of a multilevel set: the factory default `0xFF`, or what
      `encodeDuration` makes of a number of seconds (`encodeDuration` is not part of this
      model, so the seconds are recorded). */
  datatype DurationCode = FactoryDefault | Encoded(seconds: uint32)

  /** A `zway_cc_*` command, with the node id and the Z-Way instance it addresses. */
  datatype ZWayCall =
    | BinaryGet(nodeId: uint8, instance: uint8)
    | BinarySet(nodeId: uint8, instance: uint8, target: uint8)
    | MultilevelGet(nodeId: uint8, instance: uint8)
    | MultilevelSet(nodeId: uint8, instance: uint8, level: uint8, duration: DurationCode)
    | MultilevelStartLevelChange(nodeId: uint8, instance: uint8, direction: uint8, changeDuration: uint32,
                                 ignoreStartLevel: uint8, startLevel: uint8, incDec: uint8, step: uint8)
    | MultilevelStopLevelChange(nodeId: uint8, instance: uint8)

  /** A Z-Way data path a command class registered a callback on, for one instance. */
  datatype Watch = Watch(instance: uint8, path: string)

  /** `_instance - 1` passed where Z-Way takes a byte: OpenZWave numbers instances from 1,
      Z-Way from 0, and instance 0 wraps round to 255. */
  function ZWayInstance(instance: uint8): uint8
  {
    ToUInt8(instance - 1)
  }

  lemma ZWayInstanceShift(instance: uint8)
    ensures instance >= 1 ==> ZWayInstance(instance) + 1 == instance
    ensures instance == 0 ==> ZWayInstance(instance) == 255
  {
  }

  // ------------------------------------------------------------------
  // A command class on one node
  // ------------------------------------------------------------------

  /** What a command class instance knows of its node and never changes: the node id, the
      class version, whether the device answers `Get` (`COMPAT_FLAG_GETSUPPORTED`), and whether
      `GetNodeUnsafe` finds the node. */
  datatype Setup = Setup(nodeId: uint8, version: uint8, getSupported: bool, nodePresent: bool)

  /** `CommandClass::GetValue(instance, index)`: the node's value of this class, none without
      a node. */
  function GetValue(setup: Setup, values: seq<Value>, cc: uint8, instance: uint8, index: uint16): (r: Option<Value>)
    ensures r.Some? ==> setup.nodePresent && r.value in values && r.value.key == ValueKey(cc, instance, index)
  {
    if setup.nodePresent then Lookup(values, ValueKey(cc, instance, index)) else None
  }

  /** What one operation of a command class does: the node's values afterwards, the Z-Way
      commands it issues, and what it returns. */
  datatype Outcome = Outcome(values: seq<Value>, calls: seq<ZWayCall>, result: bool)

  /** The value `index` of `instance`, refreshed to `p` when the node has it. */
  function RefreshIfPresent(setup: Setup, values: seq<Value>, cc: uint8, instance: uint8, index: uint16,
                            p: Payload): seq<Value>
  {
    if GetValue(setup, values, cc, instance, index).Some? then Refresh(values, ValueKey(cc, instance, index), p)
    else values
  }

  // ------------------------------------------------------------------
  // Value stores
  // ------------------------------------------------------------------

  /** A run of `Node::CreateValue*` calls, in order: each key already present keeps its value. */
  function CreateAll(vs: Store, news: seq<Value>): (r: Store)
    decreases |news|
  {
    if news == [] then vs else CreateAll(Create(vs, news[0]), news[1..])
  }

  /** After the run, every new key is present; a key that was already present keeps its value,
      and no key other than the new ones appears. */
  lemma {:induction false} CreateAllKeys(vs: Store, news: seq<Value>)
    ensures forall v :: v in news ==> Has(CreateAll(vs, news), v.key)
    ensures forall k :: Has(vs, k) ==> Lookup(CreateAll(vs, news), k) == Lookup(vs, k)
    ensures forall k :: Has(CreateAll(vs, news), k) ==> Has(vs, k) || exists v :: v in news && v.key == k
    decreases |news|
  {
    if news != [] {
      var c := Create(vs, news[0]);
      CreateAllKeys(c, news[1..]);
      CreateKeys(vs, news[0]);
      forall v | v in news ensures Has(CreateAll(vs, news), v.key) {
        if v != news[0] { assert v in news[1..]; }
      }
      forall k | Has(CreateAll(vs, news), k) ensures Has(vs, k) || exists v :: v in news && v.key == k {
        if !Has(c, k) {
          var v :| v in news[1..] && v.key == k;
          assert v in news;
        } else if !Has(vs, k) {
          assert news[0] in news;
        }
      }
    }
  }

  /** One creation: the new key becomes present, every present key keeps its value, no other
      key appears, a fresh key reads back the new value, and the earlier values keep their
      places with at most one value added after them. */
  lemma CreateKeys(vs: Store, v: Value)
    ensures Has(Create(vs, v), v.key)
    ensures forall k :: Has(vs, k) ==> Lookup(Create(vs, v), k) == Lookup(vs, k)
    ensures forall k :: Has(Create(vs, v), k) ==> Has(vs, k) || k == v.key
    ensures !Has(vs, v.key) ==> Lookup(Create(vs, v), v.key) == Some(v)
    ensures |Create(vs, v)| == (if Has(vs, v.key) then |vs| else |vs| + 1) && Create(vs, v)[..|vs|] == vs
  {
    if !Has(vs, v.key) {
      LookupAppend(vs, v);
      assert (vs + [v])[..|vs|] == vs;
    }
  }
}
