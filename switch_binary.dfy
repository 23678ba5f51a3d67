/**
 * The binary switch command class (`COMMAND_CLASS_SWITCH_BINARY`) as the Z-Way port drives
 * it: which values it creates for a class version, how a value set by the application turns
 * into a Z-Way `set`, and which Z-Way data updates refresh the switch state. Z-Way numbers
 * instances from 0, so every command addresses `instance - 1`.
 */
module SwitchBinaryCC {
  import opened Wrappers
  import opened ZWave
  import opened CommandClasses

  const SwitchBinaryId: uint8 := 0x25

  /** The value indices of the class, as OpenZWave's `ValueID_Index_SwitchBinary` numbers them. */
  const LevelIndex: uint16 := 0
  const TargetStateIndex: uint16 := 1
  const DurationIndex: uint16 := 2

  function Key(instance: uint8, index: uint16): ValueKey
  {
    ValueKey(SwitchBinaryId, instance, index)
  }

  function Get(setup: Setup, values: seq<Value>, instance: uint8, index: uint16): Option<Value>
  {
    GetValue(setup, values, SwitchBinaryId, instance, index)
  }

  // ------------------------------------------------------------------
  // The specification
  // ------------------------------------------------------------------

  /** The target byte `SetState` sends: `0xff` for on, `0` for off. */
  function TargetValue(state: bool): (t: uint8)
  {
    if state then 0xFF else 0
  }

  /** The target byte is one of the two and tells the state apart. */
  lemma TargetValueCases(state: bool)
    ensures TargetValue(state) == 0xFF || TargetValue(state) == 0
    ensures TargetValue(state) == 0xFF <==> state
  {
  }

  /** The values `CreateVars` creates for an instance, in the order it creates them. */
  function CreatedValues(version: uint8, instance: uint8): seq<Value>
  {
    (if version >= 2
     then [Value(Key(instance, DurationIndex), System, "Transition Duration", "Sec", false, IntVal(-1), 0),
           Value(Key(instance, TargetStateIndex), System, "Target State", "", true, BoolVal(true), 0)]
     else [])
    + [Value(Key(instance, LevelIndex), User, "Switch", "", false, BoolVal(false), 0)]
  }

  /** `CreateVars` always leaves a `Level` value; `Duration` and `TargetState` are there from
      version 2 on; nothing else of the instance is added. */
  lemma CreatedByVersion(vs: Store, version: uint8, instance: uint8)
    ensures var r := CreateAll(vs, CreatedValues(version, instance));
            Has(r, Key(instance, LevelIndex)) &&
            (version >= 2 ==> Has(r, Key(instance, DurationIndex)) && Has(r, Key(instance, TargetStateIndex))) &&
            (forall k :: Has(r, k) && !Has(vs, k) ==>
               k == Key(instance, LevelIndex) ||
               (version >= 2 && (k == Key(instance, DurationIndex) || k == Key(instance, TargetStateIndex))))
  {
    var news := CreatedValues(version, instance);
    CreateAllKeys(vs, news);
    assert news[|news| - 1].key == Key(instance, LevelIndex);
    if version >= 2 {
      assert news[0].key == Key(instance, DurationIndex) && news[1].key == Key(instance, TargetStateIndex);
    }
  }

  /** `RequestValue`: a `get` on `instance - 1` when the device supports it, else nothing. */
  function RequestValueSpec(setup: Setup, instance: uint8, zwayOk: bool): Outcome
  {
    if setup.getSupported then Outcome([], [BinaryGet(setup.nodeId, ZWayInstance(instance))], zwayOk)
    else Outcome([], [], false)
  }

  /** `RequestState`: `RequestValue` for `Level`, but only for a dynamic request. */
  function RequestStateSpec(setup: Setup, flags: uint32, instance: uint8, zwayOk: bool): Outcome
  {
    if HasFlag(flags, RequestFlagDynamic) then RequestValueSpec(setup, instance, zwayOk)
    else Outcome([], [], false)
  }

  /** A state request issues a command exactly when it is dynamic and the device answers `Get`;
      it succeeds only when that command does. */
  lemma RequestStateIssues(setup: Setup, flags: uint32, instance: uint8, zwayOk: bool)
    ensures var o := RequestStateSpec(setup, flags, instance, zwayOk);
            (o.calls != [] <==> HasFlag(flags, RequestFlagDynamic) && setup.getSupported) &&
            (o.calls != [] ==> o.calls == [BinaryGet(setup.nodeId, ZWayInstance(instance))]) &&
            (o.result <==> o.calls != [] && zwayOk)
  {
  }

  /** The value the application sets carries the type its index implies. */
  predicate ArgumentTyped(v: Value)
  {
    (v.key.index == LevelIndex ==> v.payload.BoolVal?) &&
    (v.key.index == DurationIndex ==> v.payload.IntVal?)
  }

  /** `SetState` reads the `Duration` value, without a check, when the version is 2 or more. */
  predicate SetStateReady(setup: Setup, values: seq<Value>, instance: uint8)
  {
    setup.version >= 2 ==> Get(setup, values, instance, DurationIndex).Some?
  }

  /** `SetValue` on the value `v`: `Level` switches when the node has that value, `Duration`
      only refreshes the local value and succeeds; any other index does nothing and fails. */
  function SetValueSpec(setup: Setup, values: seq<Value>, v: Value, zwayOk: bool): Outcome
    requires ArgumentTyped(v)
  {
    var instance := v.key.instance;
    if v.key.index == LevelIndex then
      if Get(setup, values, instance, LevelIndex).Some?
      then Outcome(values, [BinarySet(setup.nodeId, ZWayInstance(instance), TargetValue(v.payload.b))], zwayOk)
      else Outcome(values, [], false)
    else if v.key.index == DurationIndex then
      Outcome(RefreshIfPresent(setup, values, SwitchBinaryId, instance, DurationIndex, v.payload), [], true)
    else Outcome(values, [], false)
  }

  /** Only a `Level` set issues a command, one `set` with the requested state's target byte, and
      only when the node has its `Level` value; only a `Duration` set touches the values; the
      answer is true for `Duration` and the command's success for `Level`. */
  lemma SetValueDispatch(setup: Setup, values: seq<Value>, v: Value, zwayOk: bool)
    requires ArgumentTyped(v)
    ensures var o := SetValueSpec(setup, values, v, zwayOk);
            var instance := v.key.instance;
            (o.calls != [] <==> v.key.index == LevelIndex && Get(setup, values, instance, LevelIndex).Some?) &&
            (o.calls != [] ==> o.calls == [BinarySet(setup.nodeId, ZWayInstance(instance), TargetValue(v.payload.b))]) &&
            (o.values != values ==> v.key.index == DurationIndex) &&
            (v.key.index == DurationIndex ==> o.result) &&
            (v.key.index != LevelIndex && v.key.index != DurationIndex ==> o == Outcome(values, [], false)) &&
            (v.key.index == LevelIndex ==> (o.result <==> o.calls != [] && zwayOk))
  {
  }

  // ------------------------------------------------------------------
  // The command class
  // ------------------------------------------------------------------

  /** One instance of the class on a node: the node's values, the Z-Way commands issued so far
      and the data paths watched. */
  class SwitchBinary {
    const setup: Setup
    var values: seq<Value>
    var calls: seq<ZWayCall>
    var watches: seq<Watch>

    constructor(setup: Setup, values: Store)
      ensures this.setup == setup && this.values == values && calls == [] && watches == []
      ensures Valid()
    {
      this.setup := setup;
      this.values := values;
      calls := [];
      watches := [];
    }

    predicate Valid()
      reads this
    {
      DistinctKeys(values)
    }

    /** `RequestState`. */
    method RequestState(flags: uint32, instance: uint8, zwayOk: bool) returns (ok: bool)
      modifies this`calls
      ensures calls == old(calls) + RequestStateSpec(setup, flags, instance, zwayOk).calls
      ensures ok == RequestStateSpec(setup, flags, instance, zwayOk).result
    {
      if HasFlag(flags, RequestFlagDynamic) {
        ok := RequestValue(flags, LevelIndex, instance, zwayOk);
      } else {
        ok := false;
      }
    }

    /** `RequestValue`; the index is not consulted. */
    method RequestValue(flags: uint32, index: uint16, instance: uint8, zwayOk: bool) returns (ok: bool)
      modifies this`calls
      ensures calls == old(calls) + RequestValueSpec(setup, instance, zwayOk).calls
      ensures ok == RequestValueSpec(setup, instance, zwayOk).result
    {
      ok := false;
      if setup.getSupported {
        calls := calls + [BinaryGet(setup.nodeId, ZWayInstance(instance))];
        ok := zwayOk;
      }
    }

    /** `SetValue`. */
    method SetValue(v: Value, zwayOk: bool) returns (res: bool)
      requires Valid() && ArgumentTyped(v)
      requires v.key.index == LevelIndex && Get(setup, values, v.key.instance, LevelIndex).Some? ==>
                 SetStateReady(setup, values, v.key.instance)
      modifies this`values, this`calls
      ensures values == SetValueSpec(setup, old(values), v, zwayOk).values
      ensures calls == old(calls) + SetValueSpec(setup, old(values), v, zwayOk).calls
      ensures res == SetValueSpec(setup, old(values), v, zwayOk).result
      ensures Valid()
    {
      res := false;
      var instance := v.key.instance;
      if v.key.index == LevelIndex {
        if Get(setup, values, instance, LevelIndex).Some? {
          res := SetState(instance, v.payload.b, zwayOk);
        }
      } else if v.key.index == DurationIndex {
        if Get(setup, values, instance, DurationIndex).Some? {
          RefreshKeepsKeys(values, Key(instance, DurationIndex), v.payload);
          values := Refresh(values, Key(instance, DurationIndex), v.payload);
        }
        res := true;
      }
    }

    /** `SetValueBasic`: a Basic report refreshes the `Level` value with whether the byte is
        non-zero. */
    method SetValueBasic(instance: uint8, value: uint8)
      requires Valid()
      modifies this`values
      ensures values == RefreshIfPresent(setup, old(values), SwitchBinaryId, instance, LevelIndex, BoolVal(value != 0))
      ensures Valid()
    {
      if setup.nodePresent && Get(setup, values, instance, LevelIndex).Some? {
        RefreshKeepsKeys(values, Key(instance, LevelIndex), BoolVal(value != 0));
        values := Refresh(values, Key(instance, LevelIndex), BoolVal(value != 0));
      }
    }

    /** `SetState`: one Z-Way `set` of the target byte on `instance - 1`. The duration is read
        only to be logged, as Z-Way's binary switch takes none. */
    method SetState(instance: uint8, state: bool, zwayOk: bool) returns (ok: bool)
      requires SetStateReady(setup, values, instance)
      modifies this`calls
      ensures calls == old(calls) + [BinarySet(setup.nodeId, ZWayInstance(instance), TargetValue(state))]
      ensures ok == zwayOk
    {
      var targetValue: uint8 := if state then 0xFF else 0;
      calls := calls + [BinarySet(setup.nodeId, ZWayInstance(instance), targetValue)];
      ok := zwayOk;
    }

    /** `Watcher`: an update of the `level` data, phantom or not, refreshes `Level` with the
        state Z-Way reports (`level`); every other change is ignored. */
    method Watcher(changeType: uint8, path: string, instance: uint8, level: bool)
      requires Valid()
      requires IsUpdate(changeType) && path == "level" ==> Get(setup, values, instance, LevelIndex).Some?
      modifies this`values
      ensures IsUpdate(changeType) && path == "level" ==> values == Refresh(old(values), Key(instance, LevelIndex), BoolVal(level))
      ensures !(IsUpdate(changeType) && path == "level") ==> values == old(values)
      ensures Valid()
    {
      if WithoutPhantom(changeType) == Updated {
        if path == "level" {
          RefreshKeepsKeys(values, Key(instance, LevelIndex), BoolVal(level));
          values := Refresh(values, Key(instance, LevelIndex), BoolVal(level));
        }
      }
    }

    /** `CreateVars`: with a node, the version's values are created and `level` is watched. */
    method CreateVars(instance: uint8)
      requires Valid()
      modifies this`values, this`watches
      ensures setup.nodePresent ==> values == CreateAll(old(values), CreatedValues(setup.version, instance)) &&
                                    watches == old(watches) + [Watch(instance, "level")]
      ensures !setup.nodePresent ==> values == old(values) && watches == old(watches)
      ensures Valid()
    {
      if setup.nodePresent {
        ghost var news := CreatedValues(setup.version, instance);
        ghost var whole := CreateAll(values, news);
        if setup.version >= 2 {
          values := Create(values, Value(Key(instance, DurationIndex), System, "Transition Duration", "Sec", false, IntVal(-1), 0));
          assert whole == CreateAll(values, news[1..]);
          values := Create(values, Value(Key(instance, TargetStateIndex), System, "Target State", "", true, BoolVal(true), 0));
          assert whole == CreateAll(values, news[2..]);
        }
        values := Create(values, Value(Key(instance, LevelIndex), User, "Switch", "", false, BoolVal(false), 0));
        assert whole == CreateAll(values, []);
        watches := watches + [Watch(instance, "level")];
      }
    }
  }
}
