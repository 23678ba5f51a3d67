/**
 * The multilevel switch command class (`COMMAND_CLASS_SWITCH_MULTILEVEL`) as the Z-Way port
 * drives it: the values created for each class version, the dispatch of a value set by the
 * application (a level, a button that starts or stops a level change, or a setting kept
 * locally), the arguments of a level change, and the watcher on Z-Way's `level` data. Unlike
 * the binary switch, this class passes OpenZWave's instance number to Z-Way unchanged.
 */
module SwitchMultilevelCC {
  import opened Wrappers
  import opened ZWave
  import opened CommandClasses

  const SwitchMultilevelId: uint8 := 0x26

  /** The value indices, as OpenZWave's `ValueID_Index_SwitchMultiLevel` numbers them. */
  const LevelIndex: uint16 := 0
  const BrightIndex: uint16 := 1
  const DimIndex: uint16 := 2
  const IgnoreStartLevelIndex: uint16 := 3
  const StartLevelIndex: uint16 := 4
  const DurationIndex: uint16 := 5
  const StepIndex: uint16 := 6
  const IncIndex: uint16 := 7
  const DecIndex: uint16 := 8
  const TargetValueIndex: uint16 := 9

  /** `SwitchMultilevelDirection`. */
  const DirectionUp: uint8 := 0
  const DirectionDown: uint8 := 1
  const DirectionInc: uint8 := 2
  const DirectionDec: uint8 := 3

  function Key(instance: uint8, index: uint16): ValueKey
  {
    ValueKey(SwitchMultilevelId, instance, index)
  }

  function Get(setup: Setup, values: seq<Value>, instance: uint8, index: uint16): Option<Value>
  {
    GetValue(setup, values, SwitchMultilevelId, instance, index)
  }

  // ------------------------------------------------------------------
  // Value types
  // ------------------------------------------------------------------

  predicate IsButtonIndex(index: uint16)
  {
    index == BrightIndex || index == DimIndex || index == IncIndex || index == DecIndex
  }

  /** The payload type the class gives the value at `index`: `Level`, `StartLevel`, `Step` and
      `TargetValue` are bytes, the four buttons are buttons, `IgnoreStartLevel` is a bool and
      `Duration` an int. */
  predicate PayloadFits(index: uint16, p: Payload)
  {
    (index == LevelIndex || index == StartLevelIndex || index == StepIndex || index == TargetValueIndex ==> p.ByteVal?) &&
    (IsButtonIndex(index) ==> p.ButtonVal?) &&
    (index == IgnoreStartLevelIndex ==> p.BoolVal?) &&
    (index == DurationIndex ==> p.IntVal?)
  }

  /** Every value of the class on the node has its index's type. */
  predicate Typed(values: seq<Value>)
  {
    forall v :: v in values && v.key.commandClass == SwitchMultilevelId ==> PayloadFits(v.key.index, v.payload)
  }

  /** A refresh with a payload of the index's type keeps the values typed. */
  lemma RefreshTyped(values: seq<Value>, k: ValueKey, p: Payload)
    requires Typed(values) && (k.commandClass == SwitchMultilevelId ==> PayloadFits(k.index, p))
    ensures Typed(Refresh(values, k, p))
  {
    var r := Refresh(values, k, p);
    forall v | v in r && v.key.commandClass == SwitchMultilevelId ensures PayloadFits(v.key.index, v.payload) {
      var i :| 0 <= i < |r| && r[i] == v;
      assert values[i] in values;
    }
  }

  /** A creation of a typed value keeps the values typed. */
  lemma CreateTyped(values: Store, v: Value)
    requires Typed(values) && (v.key.commandClass == SwitchMultilevelId ==> PayloadFits(v.key.index, v.payload))
    ensures Typed(Create(values, v))
  {
  }

  // ------------------------------------------------------------------
  // Creating the values
  // ------------------------------------------------------------------

  function ByteValue(instance: uint8, index: uint16, genre: ValueGenre, caption: string, readOnly: bool): Value
  {
    Value(Key(instance, index), genre, caption, "", readOnly, ByteVal(0), 0)
  }

  function ButtonValue(instance: uint8, index: uint16, caption: string): Value
  {
    Value(Key(instance, index), User, caption, "", false, ButtonVal(false), 0)
  }

  /** The values `CreateVars` creates for an instance, in the order it creates them. */
  function CreatedValues(version: uint8, instance: uint8): seq<Value>
  {
    (if version >= 4 then [ByteValue(instance, TargetValueIndex, System, "Target Value", true)] else [])
    + (if version >= 3
       then [ByteValue(instance, StepIndex, User, "Step Size", false),
             ButtonValue(instance, IncIndex, "Inc"), ButtonValue(instance, DecIndex, "Dec")]
       else [])
    + (if version >= 2 then [Value(Key(instance, DurationIndex), System, "Dimming Duration", "", false, IntVal(-1), 0)] else [])
    + AlwaysCreated(instance)
  }

  /** The values every version creates, in order. */
  function AlwaysCreated(instance: uint8): seq<Value>
  {
    [ByteValue(instance, LevelIndex, User, "Level", false),
     ButtonValue(instance, BrightIndex, "Bright"), ButtonValue(instance, DimIndex, "Dim"),
     Value(Key(instance, IgnoreStartLevelIndex), System, "Ignore Start Level", "", false, BoolVal(true), 0),
     ByteValue(instance, StartLevelIndex, System, "Start Level", false)]
  }

  /** The indices a class version has: `Level`, `Bright`, `Dim`, `IgnoreStartLevel` and
      `StartLevel` always, `Duration` from version 2, `Step`, `Inc` and `Dec` from version 3,
      `TargetValue` from version 4. */
  predicate InVersion(version: uint8, index: uint16)
  {
    index == LevelIndex || index == BrightIndex || index == DimIndex || index == IgnoreStartLevelIndex ||
    index == StartLevelIndex ||
    (index == DurationIndex && version >= 2) ||
    ((index == StepIndex || index == IncIndex || index == DecIndex) && version >= 3) ||
    (index == TargetValueIndex && version >= 4)
  }

  /** The created values are exactly the version's indices of the instance, each typed. */
  lemma CreatedValuesByVersion(version: uint8, instance: uint8)
    ensures forall v :: v in CreatedValues(version, instance) ==>
              v.key.commandClass == SwitchMultilevelId && v.key.instance == instance &&
              InVersion(version, v.key.index) && PayloadFits(v.key.index, v.payload)
    ensures forall index: uint16 :: InVersion(version, index) ==>
              exists v :: v in CreatedValues(version, instance) && v.key == Key(instance, index)
  {
    CreatedValuesShape(version, instance);
    var news := CreatedValues(version, instance);
    forall index: uint16 | InVersion(version, index)
      ensures exists v :: v in news && v.key == Key(instance, index)
    {
      var i := if index == LevelIndex then |news| - 5 else if index == BrightIndex then |news| - 4
               else if index == DimIndex then |news| - 3 else if index == IgnoreStartLevelIndex then |news| - 2
               else if index == StartLevelIndex then |news| - 1 else if index == DurationIndex then |news| - 6
               else if index == DecIndex then |news| - 7 else if index == IncIndex then |news| - 8
               else if index == StepIndex then |news| - 9 else 0;
      assert news[i].key == Key(instance, index);
    }
  }

  /** A value `CreateVars` may create: of this class and instance, with an index of the version
      and a payload of the index's type. */
  predicate Fits(version: uint8, instance: uint8, v: Value)
  {
    v.key.commandClass == SwitchMultilevelId && v.key.instance == instance &&
    InVersion(version, v.key.index) && PayloadFits(v.key.index, v.payload)
  }

  /** The created values, version by version, written out. */
  lemma CreatedValuesShape(version: uint8, instance: uint8)
    ensures var news := CreatedValues(version, instance);
            |news| == (if version >= 4 then 10 else if version == 3 then 9 else if version == 2 then 6 else 5) &&
            (forall i :: 0 <= i < |news| ==> Fits(version, instance, news[i])) &&
            news[|news| - 5].key.index == LevelIndex && news[|news| - 4].key.index == BrightIndex &&
            news[|news| - 3].key.index == DimIndex && news[|news| - 2].key.index == IgnoreStartLevelIndex &&
            news[|news| - 1].key.index == StartLevelIndex &&
            (version >= 2 ==> news[|news| - 6].key.index == DurationIndex) &&
            (version >= 3 ==> news[|news| - 7].key.index == DecIndex && news[|news| - 8].key.index == IncIndex &&
                              news[|news| - 9].key.index == StepIndex) &&
            (version >= 4 ==> news[0].key.index == TargetValueIndex)
  {
    var t := ByteValue(instance, TargetValueIndex, System, "Target Value", true);
    var st := ByteValue(instance, StepIndex, User, "Step Size", false);
    var inc := ButtonValue(instance, IncIndex, "Inc");
    var dec := ButtonValue(instance, DecIndex, "Dec");
    var d := Value(Key(instance, DurationIndex), System, "Dimming Duration", "", false, IntVal(-1), 0);
    var news := CreatedValues(version, instance);
    if version >= 4 {
      assert news == [t, st, inc, dec, d] + AlwaysCreated(instance);
      WithAlways(version, instance, [t, st, inc, dec, d]);
    } else if version == 3 {
      assert news == [st, inc, dec, d] + AlwaysCreated(instance);
      WithAlways(version, instance, [st, inc, dec, d]);
    } else if version == 2 {
      assert news == [d] + AlwaysCreated(instance);
      WithAlways(version, instance, [d]);
    } else {
      assert news == [] + AlwaysCreated(instance);
      WithAlways(version, instance, []);
    }
  }

  /** A version's own values followed by the five every version creates. */
  lemma WithAlways(version: uint8, instance: uint8, pre: seq<Value>)
    requires forall i :: 0 <= i < |pre| ==> Fits(version, instance, pre[i])
    ensures var news := pre + AlwaysCreated(instance);
            |news| == |pre| + 5 && (forall i :: 0 <= i < |news| ==> Fits(version, instance, news[i])) &&
            (forall i :: 0 <= i < |pre| ==> news[i] == pre[i]) &&
            news[|news| - 5].key.index == LevelIndex && news[|news| - 4].key.index == BrightIndex &&
            news[|news| - 3].key.index == DimIndex && news[|news| - 2].key.index == IgnoreStartLevelIndex &&
            news[|news| - 1].key.index == StartLevelIndex
  {
    var a := AlwaysCreated(instance);
    assert forall i :: 0 <= i < |a| ==> Fits(version, instance, a[i]);
  }

  /** `CreateVars`' values are all on the node afterwards, and the node gains no others. */
  lemma CreateVarsKeys(vs: Store, version: uint8, instance: uint8)
    ensures var r := CreateAll(vs, CreatedValues(version, instance));
            (forall index: uint16 :: InVersion(version, index) ==> Has(r, Key(instance, index))) &&
            (forall k :: Has(r, k) && !Has(vs, k) ==> k.commandClass == SwitchMultilevelId &&
                                                       k.instance == instance && InVersion(version, k.index))
  {
    CreatedValuesByVersion(version, instance);
    CreateAllKeys(vs, CreatedValues(version, instance));
  }

  // ------------------------------------------------------------------
  // Requests
  // ------------------------------------------------------------------

  /** `RequestValue`: only `Level` can be requested, and only from a device that answers
      `Get`. */
  function RequestValueSpec(setup: Setup, index: uint16, instance: uint8, zwayOk: bool): Outcome
  {
    if index == LevelIndex && setup.getSupported then Outcome([], [MultilevelGet(setup.nodeId, instance)], zwayOk)
    else Outcome([], [], false)
  }

  /** `RequestState`: `RequestValue` for `Level`, only for a dynamic request. */
  function RequestStateSpec(setup: Setup, flags: uint32, instance: uint8, zwayOk: bool): Outcome
  {
    if HasFlag(flags, RequestFlagDynamic) then RequestValueSpec(setup, LevelIndex, instance, zwayOk)
    else Outcome([], [], false)
  }

  /** A value request issues one `get`, on the instance as given, exactly for `Level` on a
      device that answers `Get`; every other request fails without a command. */
  lemma RequestValueIssues(setup: Setup, index: uint16, instance: uint8, zwayOk: bool)
    ensures var o := RequestValueSpec(setup, index, instance, zwayOk);
            (o.calls != [] <==> index == LevelIndex && setup.getSupported) &&
            (o.calls != [] ==> o.calls == [MultilevelGet(setup.nodeId, instance)]) &&
            (o.result <==> o.calls != [] && zwayOk)
  {
  }

  // ------------------------------------------------------------------
  // Setting a level and changing it
  // ------------------------------------------------------------------

  /** `SetLevel` reads the `Duration` value, without a check, from version 2 on. */
  predicate SetLevelReady(setup: Setup, values: seq<Value>, instance: uint8)
  {
    setup.version >= 2 ==> Get(setup, values, instance, DurationIndex).Some?
  }

  /** The duration byte of `SetLevel`: the factory default before version 2, else the encoding
      of the `Duration` value read as unsigned. */
  function SetLevelDuration(setup: Setup, values: seq<Value>, instance: uint8): DurationCode
    requires Typed(values) && SetLevelReady(setup, values, instance)
  {
    if setup.version >= 2 then Encoded(ToUInt32(Get(setup, values, instance, DurationIndex).value.payload.i))
    else FactoryDefault
  }

  function SetLevelSpec(setup: Setup, values: seq<Value>, instance: uint8, level: uint8, zwayOk: bool): Outcome
    requires Typed(values) && SetLevelReady(setup, values, instance)
  {
    Outcome(values, [MultilevelSet(setup.nodeId, instance, level, SetLevelDuration(setup, values, instance))], zwayOk)
  }

  /** What `StartLevelChange` gathers before the command: the stored settings, or their
      defaults when the node lacks them; the step only for an `Inc` or `Dec` change. */
  datatype LevelChange = LevelChange(ignoreStartLevel: uint8, startLevel: uint8, duration: uint32, step: uint8)

  function LevelChangeOf(setup: Setup, values: seq<Value>, instance: uint8, direction: uint8): LevelChange
    requires Typed(values)
  {
    var ignore := Get(setup, values, instance, IgnoreStartLevelIndex);
    var start := Get(setup, values, instance, StartLevelIndex);
    var duration := Get(setup, values, instance, DurationIndex);
    var step := Get(setup, values, instance, StepIndex);
    LevelChange(
      if ignore.Some? then (if ignore.value.payload.b then 1 else 0) else 1,
      if start.Some? then start.value.payload.n else 0,
      if duration.Some? then ToUInt32(duration.value.payload.i) else 0xFFFF_FFFF,
      if (direction == DirectionInc || direction == DirectionDec) && step.Some? then step.value.payload.n else 0)
  }

  /** `StartLevelChange`: a direction past `Dec` is dropped; otherwise one command with the
      gathered settings, and an increment of 0 and a step of `0xFF` whatever was gathered. */
  function StartLevelChangeSpec(setup: Setup, values: seq<Value>, instance: uint8, direction: uint8,
                                zwayOk: bool): Outcome
    requires Typed(values)
  {
    if direction > 3 then Outcome(values, [], false)
    else
      var c := LevelChangeOf(setup, values, instance, direction);
      Outcome(values, [MultilevelStartLevelChange(setup.nodeId, instance, direction, c.duration,
                                                  c.ignoreStartLevel, c.startLevel, 0, 0xFF)], zwayOk)
  }

  function StopLevelChangeSpec(setup: Setup, values: seq<Value>, instance: uint8, zwayOk: bool): Outcome
  {
    Outcome(values, [MultilevelStopLevelChange(setup.nodeId, instance)], zwayOk)
  }

  /** Without stored settings a level change ignores the start level, starts from 0 and takes
      the whole-range duration `0xFFFFFFFF`; the step is 0 unless the change is an `Inc` or
      `Dec` and the node has a `Step` value. */
  lemma LevelChangeDefaults(setup: Setup, values: seq<Value>, instance: uint8, direction: uint8)
    requires Typed(values)
    ensures var c := LevelChangeOf(setup, values, instance, direction);
            (Get(setup, values, instance, IgnoreStartLevelIndex).None? ==> c.ignoreStartLevel == 1) &&
            (Get(setup, values, instance, StartLevelIndex).None? ==> c.startLevel == 0) &&
            (Get(setup, values, instance, DurationIndex).None? ==> c.duration == 0xFFFF_FFFF) &&
            (c.step != 0 ==> (direction == DirectionInc || direction == DirectionDec) &&
                             Get(setup, values, instance, StepIndex).Some?) &&
            c.ignoreStartLevel <= 1
  {
  }

  /** A level change either sends nothing and fails (a direction past `Dec`) or sends one start
      command in the requested direction, never passing on the gathered step. */
  lemma StartLevelChangeSends(setup: Setup, values: seq<Value>, instance: uint8, direction: uint8, zwayOk: bool)
    requires Typed(values)
    ensures var o := StartLevelChangeSpec(setup, values, instance, direction, zwayOk);
            o.values == values &&
            (direction > 3 <==> o.calls == []) &&
            (direction > 3 ==> !o.result) &&
            (direction <= 3 ==>
               o.result == zwayOk && |o.calls| == 1 &&
               o.calls[0].MultilevelStartLevelChange? && o.calls[0].direction == direction &&
               o.calls[0].instance == instance && o.calls[0].incDec == 0 && o.calls[0].step == 0xFF)
  {
  }

  // ------------------------------------------------------------------
  // SetValue
  // ------------------------------------------------------------------

  /** The direction a button starts: `Bright` up, `Dim` down, `Inc` and `Dec` as named. */
  function ButtonDirection(index: uint16): uint8
    requires IsButtonIndex(index)
  {
    if index == BrightIndex then DirectionUp
    else if index == DimIndex then DirectionDown
    else if index == IncIndex then DirectionInc
    else DirectionDec
  }

  /** The settings `SetValue` only stores locally. */
  predicate IsSettingIndex(index: uint16)
  {
    index == IgnoreStartLevelIndex || index == StartLevelIndex || index == DurationIndex || index == StepIndex
  }

  /** `SetValue` needs `SetLevel`'s `Duration` when it sets a level the node has. */
  predicate SetValueReady(setup: Setup, values: seq<Value>, v: Value)
  {
    v.key.index == LevelIndex && Get(setup, values, v.key.instance, LevelIndex).Some? ==>
      SetLevelReady(setup, values, v.key.instance)
  }

  /** `SetValue` on the value `v`. A button consults the node's own button value: pressed, it
      starts a level change; released, it stops one. */
  function SetValueSpec(setup: Setup, values: seq<Value>, v: Value, zwayOk: bool): Outcome
    requires Typed(values) && PayloadFits(v.key.index, v.payload) && SetValueReady(setup, values, v)
  {
    var instance := v.key.instance;
    var index := v.key.index;
    var stored := Get(setup, values, instance, index);
    if index == LevelIndex then
      if stored.Some? then SetLevelSpec(setup, values, instance, v.payload.n, zwayOk) else Outcome(values, [], false)
    else if IsButtonIndex(index) then
      if stored.None? then Outcome(values, [], false)
      else if stored.value.payload.pressed then StartLevelChangeSpec(setup, values, instance, ButtonDirection(index), zwayOk)
      else StopLevelChangeSpec(setup, values, instance, zwayOk)
    else if IsSettingIndex(index) then
      Outcome(RefreshIfPresent(setup, values, SwitchMultilevelId, instance, index, v.payload), [], true)
    else Outcome(values, [], false)
  }

  /** The four buttons: pressed `Bright`, `Dim`, `Inc` or `Dec` starts a change up, down,
      incrementing or decrementing; released, any of them stops the change. */
  lemma ButtonsStartAndStop(setup: Setup, values: seq<Value>, v: Value, zwayOk: bool)
    requires Typed(values) && PayloadFits(v.key.index, v.payload) && SetValueReady(setup, values, v)
    requires IsButtonIndex(v.key.index) && Get(setup, values, v.key.instance, v.key.index).Some?
    ensures var o := SetValueSpec(setup, values, v, zwayOk);
            var pressed := Get(setup, values, v.key.instance, v.key.index).value.payload.pressed;
            var d := if v.key.index == BrightIndex then DirectionUp else if v.key.index == DimIndex then DirectionDown
                     else if v.key.index == IncIndex then DirectionInc else DirectionDec;
            o.values == values && o.result == zwayOk && |o.calls| == 1 &&
            (pressed ==> o.calls[0].MultilevelStartLevelChange? && o.calls[0].direction == d) &&
            (!pressed ==> o.calls[0] == MultilevelStopLevelChange(setup.nodeId, v.key.instance))
  {
    var o := SetValueSpec(setup, values, v, zwayOk);
    if Get(setup, values, v.key.instance, v.key.index).value.payload.pressed {
      StartLevelChangeSends(setup, values, v.key.instance, ButtonDirection(v.key.index), zwayOk);
    }
  }

  /** A setting is stored locally, or ignored when the node lacks it, and `SetValue` answers
      true either way without a command; an index the class does not list fails and changes
      nothing. */
  lemma SettingsAndOthers(setup: Setup, values: seq<Value>, v: Value, zwayOk: bool)
    requires Typed(values) && PayloadFits(v.key.index, v.payload) && SetValueReady(setup, values, v)
    ensures var o := SetValueSpec(setup, values, v, zwayOk);
            (IsSettingIndex(v.key.index) ==>
               o.result && o.calls == [] &&
               o.values == RefreshIfPresent(setup, values, SwitchMultilevelId, v.key.instance, v.key.index, v.payload)) &&
            (v.key.index > TargetValueIndex || v.key.index == TargetValueIndex ==> o == Outcome(values, [], false))
  {
  }

  /** A level set before version 2 sends the factory-default duration `0xFF`. */
  lemma OldVersionDuration(setup: Setup, values: seq<Value>, v: Value, zwayOk: bool)
    requires Typed(values) && PayloadFits(v.key.index, v.payload) && SetValueReady(setup, values, v)
    requires v.key.index == LevelIndex && Get(setup, values, v.key.instance, LevelIndex).Some? && setup.version < 2
    ensures SetValueSpec(setup, values, v, zwayOk).calls ==
            [MultilevelSet(setup.nodeId, v.key.instance, v.payload.n, FactoryDefault)]
  {
  }

  /** `SetValue` keeps the node's values typed. */
  lemma SetValueTyped(setup: Setup, values: seq<Value>, v: Value, zwayOk: bool)
    requires Typed(values) && PayloadFits(v.key.index, v.payload) && SetValueReady(setup, values, v)
    ensures Typed(SetValueSpec(setup, values, v, zwayOk).values)
  {
    if IsSettingIndex(v.key.index) && Get(setup, values, v.key.instance, v.key.index).Some? {
      RefreshTyped(values, Key(v.key.instance, v.key.index), v.payload);
    }
  }

  // ------------------------------------------------------------------
  // The watcher
  // ------------------------------------------------------------------

  /** The change types the `level` callback acts on: exactly `Updated` and `PhantomUpdate`. */
  predicate RefreshesLevel(changeType: uint8)
  {
    changeType == Updated || changeType == PhantomUpdate
  }

  /** The multilevel watcher matches the change type exactly, where the binary switch masks
      the phantom bit: an update flagged phantom refreshes a binary switch but not a
      multilevel one, and a bare phantom flag the other way round. */
  lemma WatchersDiffer()
    ensures IsUpdate(Updated + PhantomUpdate) && !RefreshesLevel(Updated + PhantomUpdate)
    ensures !IsUpdate(PhantomUpdate) && RefreshesLevel(PhantomUpdate)
  {
    IsUpdateCases(Updated + PhantomUpdate);
    IsUpdateCases(PhantomUpdate);
  }

  // ------------------------------------------------------------------
  // The command class
  // ------------------------------------------------------------------

  class SwitchMultilevel {
    const setup: Setup
    var values: seq<Value>
    var calls: seq<ZWayCall>
    var watches: seq<Watch>

    constructor(setup: Setup, values: Store)
      requires Typed(values)
      ensures this.setup == setup && this.values == values && calls == [] && watches == []
      ensures Valid()
    {
      this.setup := setup;
      this.values := values;
      calls := [];
      watches := [];
    }

    predicate Valid()
      reads this
    {
      DistinctKeys(values) && Typed(values)
    }

    /** `RequestState`. */
    method RequestState(flags: uint32, instance: uint8, zwayOk: bool) returns (ok: bool)
      modifies this`calls
      ensures calls == old(calls) + RequestStateSpec(setup, flags, instance, zwayOk).calls
      ensures ok == RequestStateSpec(setup, flags, instance, zwayOk).result
    {
      if HasFlag(flags, RequestFlagDynamic) {
        ok := RequestValue(flags, LevelIndex, instance, zwayOk);
      } else {
        ok := false;
      }
    }

    /** `RequestValue`. */
    method RequestValue(flags: uint32, index: uint16, instance: uint8, zwayOk: bool) returns (ok: bool)
      modifies this`calls
      ensures calls == old(calls) + RequestValueSpec(setup, index, instance, zwayOk).calls
      ensures ok == RequestValueSpec(setup, index, instance, zwayOk).result
    {
      ok := false;
      if index == LevelIndex {
        if setup.getSupported {
          calls := calls + [MultilevelGet(setup.nodeId, instance)];
          ok := zwayOk;
        }
      }
    }

    /** `SetValue`. */
    method SetValue(v: Value, zwayOk: bool) returns (res: bool)
      requires Valid() && PayloadFits(v.key.index, v.payload) && SetValueReady(setup, values, v)
      modifies this`values, this`calls
      ensures values == SetValueSpec(setup, old(values), v, zwayOk).values
      ensures calls == old(calls) + SetValueSpec(setup, old(values), v, zwayOk).calls
      ensures res == SetValueSpec(setup, old(values), v, zwayOk).result
      ensures Valid()
    {
      res := false;
      var instance := v.key.instance;
      var index := v.key.index;
      var stored := Get(setup, values, instance, index);
      if index == LevelIndex {
        if stored.Some? {
          res := SetLevel(instance, v.payload.n, zwayOk);
        }
      } else if IsButtonIndex(index) {
        if stored.Some? {
          if stored.value.payload.pressed {
            res := StartLevelChange(instance, ButtonDirection(index), zwayOk);
          } else {
            res := StopLevelChange(instance, zwayOk);
          }
        }
      } else if IsSettingIndex(index) {
        if stored.Some? {
          RefreshKeepsKeys(values, Key(instance, index), v.payload);
          RefreshTyped(values, Key(instance, index), v.payload);
          values := Refresh(values, Key(instance, index), v.payload);
        }
        res := true;
      }
    }

    /** `SetValueBasic`: a Basic report refreshes `Level` with 1 for a non-zero byte and 0 for
        zero, not with the byte itself. */
    method SetValueBasic(instance: uint8, value: uint8)
      requires Valid()
      modifies this`values
      ensures values == RefreshIfPresent(setup, old(values), SwitchMultilevelId, instance, LevelIndex,
                                         ByteVal(if value != 0 then 1 else 0))
      ensures Valid()
    {
      if setup.nodePresent && Get(setup, values, instance, LevelIndex).Some? {
        var level: uint8 := if value != 0 then 1 else 0;
        RefreshKeepsKeys(values, Key(instance, LevelIndex), ByteVal(level));
        RefreshTyped(values, Key(instance, LevelIndex), ByteVal(level));
        values := Refresh(values, Key(instance, LevelIndex), ByteVal(level));
      }
    }

    /** `SetLevel`. */
    method SetLevel(instance: uint8, level: uint8, zwayOk: bool) returns (ok: bool)
      requires Valid() && SetLevelReady(setup, values, instance)
      modifies this`calls
      ensures calls == old(calls) + SetLevelSpec(setup, values, instance, level, zwayOk).calls
      ensures ok == zwayOk
    {
      var duration := FactoryDefault;
      if setup.version >= 2 {
        var durationValue := Get(setup, values, instance, DurationIndex).value;
        duration := Encoded(ToUInt32(durationValue.payload.i));
      }
      calls := calls + [MultilevelSet(setup.nodeId, instance, level, duration)];
      ok := zwayOk;
    }

    /** `StartLevelChange`. */
    method StartLevelChange(instance: uint8, direction: uint8, zwayOk: bool) returns (ok: bool)
      requires Valid()
      modifies this`calls
      ensures calls == old(calls) + StartLevelChangeSpec(setup, values, instance, direction, zwayOk).calls
      ensures ok == StartLevelChangeSpec(setup, values, instance, direction, zwayOk).result
    {
      if direction > 3 {
        return false;
      }
      var ignoreStartLevel: uint8 := 1;
      var ignoreValue := Get(setup, values, instance, IgnoreStartLevelIndex);
      if ignoreValue.Some? {
        ignoreStartLevel := if ignoreValue.value.payload.b then 1 else 0;
      }
      var startLevel: uint8 := 0;
      var startValue := Get(setup, values, instance, StartLevelIndex);
      if startValue.Some? {
        startLevel := startValue.value.payload.n;
      }
      var duration: uint32 := 0xFFFF_FFFF;
      var durationValue := Get(setup, values, instance, DurationIndex);
      if durationValue.Some? {
        duration := ToUInt32(durationValue.value.payload.i);
      }
      calls := calls + [MultilevelStartLevelChange(setup.nodeId, instance, direction, duration, ignoreStartLevel, startLevel, 0, 0xFF)];
      ok := zwayOk;
    }

    /** `StopLevelChange`. */
    method StopLevelChange(instance: uint8, zwayOk: bool) returns (ok: bool)
      modifies this`calls
      ensures calls == old(calls) + StopLevelChangeSpec(setup, values, instance, zwayOk).calls
      ensures ok == zwayOk
    {
      calls := calls + [MultilevelStopLevelChange(setup.nodeId, instance)];
      ok := zwayOk;
    }

    /** `Watcher` on instance `instance`'s `level` data: an update or a phantom update refreshes
        the `Level` value with the integer Z-Way reports, cut to a byte; the other change types
        leave the values alone. */
    method Watcher(changeType: uint8, instance: uint8, level: int32)
      requires Valid()
      requires RefreshesLevel(changeType) ==> Get(setup, values, instance, LevelIndex).Some?
      modifies this`values
      ensures RefreshesLevel(changeType) ==> values == Refresh(old(values), Key(instance, LevelIndex), ByteVal(ToUInt8(level)))
      ensures !RefreshesLevel(changeType) ==> values == old(values)
      ensures Valid()
    {
      if changeType == Updated || changeType == PhantomUpdate {
        RefreshKeepsKeys(values, Key(instance, LevelIndex), ByteVal(ToUInt8(level)));
        RefreshTyped(values, Key(instance, LevelIndex), ByteVal(ToUInt8(level)));
        values := Refresh(values, Key(instance, LevelIndex), ByteVal(ToUInt8(level)));
      }
    }

    /** `CreateVars`: with a node, the version's values are created and `level` is watched. */
    method CreateVars(instance: uint8)
      requires Valid()
      modifies this`values, this`watches
      ensures setup.nodePresent ==> values == CreateAll(old(values), CreatedValues(setup.version, instance)) &&
                                    watches == old(watches) + [Watch(instance, "level")]
      ensures !setup.nodePresent ==> values == old(values) && watches == old(watches)
      ensures Valid()
    {
      if setup.nodePresent {
        CreatedValuesByVersion(setup.version, instance);
        var news := CreatedValues(setup.version, instance);
        CreateAllTyped(values, news);
        values := CreateAll(values, news);
        watches := watches + [Watch(instance, "level")];
      }
    }
  }

  /** Creating typed values keeps the node's values typed. */
  lemma {:induction false} CreateAllTyped(vs: Store, news: seq<Value>)
    requires Typed(vs)
    requires forall v :: v in news && v.key.commandClass == SwitchMultilevelId ==> PayloadFits(v.key.index, v.payload)
    ensures Typed(CreateAll(vs, news))
    decreases |news|
  {
    if news != [] {
      assert news[0] in news;
      CreateTyped(vs, news[0]);
      forall v | v in news[1..] ensures v in news { }
      CreateAllTyped(Create(vs, news[0]), news[1..]);
    }
  }
}
