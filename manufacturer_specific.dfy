/**
 * The manufacturer-specific command class (`COMMAND_CLASS_MANUFACTURER_SPECIFIC`) as the Z-Way
 * port drives it: the three config-revision counters and the values that mirror them, the
 * "Unknown" names a node gets from its manufacturer and product ids, the gates of loading a
 * device's config file, and the serial number built from Z-Way's data. The ids and the serial
 * number Z-Way holds, the `ConfigPath` option and the config files are parameters.
 */
module ManufacturerSpecificCC {
  import opened Wrappers
  import opened ZWave
  import opened CommandClasses
  import CText

  const ManufacturerSpecificId: uint8 := 0x72

  /** The value indices, as OpenZWave's `ValueID_Index_ManufacturerSpecific` numbers them. */
  const LoadedConfigIndex: uint16 := 0
  const LocalConfigIndex: uint16 := 1
  const LatestConfigIndex: uint16 := 2
  const SerialNumberIndex: uint16 := 4

  /** The namespace a device config file may declare. */
  const OzwNamespace := "https://github.com/OpenZWave/open-zwave"

  function Key(instance: uint8, index: uint16): ValueKey
  {
    ValueKey(ManufacturerSpecificId, instance, index)
  }

  // ------------------------------------------------------------------
  // The state
  // ------------------------------------------------------------------

  /** The fields of the node this class reads or writes. */
  datatype DeviceInfo = DeviceInfo(
    manufacturerName: string,
    productName: string,
    manufacturerId: uint16,
    productType: uint16,
    productId: uint16,
    configPath: string,
    stage: QueryStage,
    classReceived: bool)

  /** A device config file: whether its root element carries an `xmlns` attribute, and which. */
  datatype ConfigDoc = ConfigDoc(xmlns: Option<string>)

  /** What the node reads from a loaded config file, with the file's name. */
  datatype XmlRead =
    | DeviceProtocolRead(file: string)
    | CommandClassesRead(file: string)
    | MetaDataRead(file: string)

  /** The serial number as Z-Way holds it: binary, a string, or data of another type. */
  datatype SerialData = BinarySerial(bytes: seq<uint8>) | StringSerial(text: string) | OtherSerial

  /** The class's counters and static-request flag, and what it changes on its node: the
      node's fields, its values, the watched data paths, the queued notifications and the
      config-file reads. */
  datatype MsState = MsState(
    fileRevision: uint32,
    loadedRevision: uint32,
    latestRevision: uint32,
    staticRequestValues: bool,
    node: Option<DeviceInfo>,
    values: Store,
    watches: seq<Watch>,
    notifications: seq<Notification>,
    xmlReads: seq<XmlRead>)

  /** `CommandClass::GetValue`: none without a node. */
  function Get(s: MsState, instance: uint8, index: uint16): (r: Option<Value>)
    ensures r.Some? ==> s.node.Some? && Has(s.values, Key(instance, index))
  {
    if s.node.Some? then Lookup(s.values, Key(instance, index)) else None
  }

  // ------------------------------------------------------------------
  // The revision counters
  // ------------------------------------------------------------------

  datatype Revision = LoadedRevision | FileRevision | LatestRevision

  /** The instance-1 value that mirrors a counter. */
  function RevisionIndex(r: Revision): uint16
  {
    match r
    case LoadedRevision => LoadedConfigIndex
    case FileRevision => LocalConfigIndex
    case LatestRevision => LatestConfigIndex
  }

  function Counter(s: MsState, r: Revision): uint32
  {
    match r
    case LoadedRevision => s.loadedRevision
    case FileRevision => s.fileRevision
    case LatestRevision => s.latestRevision
  }

  /** The values after a counter takes `rev`: its instance-1 value, when the node has it, is
      refreshed to `rev` as a signed 32-bit integer. */
  function MirrorRevision(s: MsState, r: Revision, rev: uint32): Store
  {
    if Get(s, 1, RevisionIndex(r)).Some?
    then RefreshKeepsKeys(s.values, Key(1, RevisionIndex(r)), IntVal(ToInt32(rev)));
         Refresh(s.values, Key(1, RevisionIndex(r)), IntVal(ToInt32(rev)))
    else s.values
  }

  /** `setLoadedConfigRevision`, `setFileConfigRevision` and `setLatestConfigRevision`: the
      counter takes `rev` and its value mirrors it. */
  function WithRevision(s: MsState, r: Revision, rev: uint32): MsState
  {
    var vs := MirrorRevision(s, r, rev);
    match r
    case LoadedRevision => s.(loadedRevision := rev, values := vs)
    case FileRevision => s.(fileRevision := rev, values := vs)
    case LatestRevision => s.(latestRevision := rev, values := vs)
  }

  /** A setter changes its own counter and nothing else of the class but the values. */
  lemma WithRevisionFrame(s: MsState, r: Revision, rev: uint32)
    ensures var t := WithRevision(s, r, rev);
            Counter(t, r) == rev &&
            (forall q :: q != r ==> Counter(t, q) == Counter(s, q)) &&
            t.node == s.node && t.watches == s.watches && t.notifications == s.notifications &&
            t.xmlReads == s.xmlReads && t.staticRequestValues == s.staticRequestValues &&
            t.values == MirrorRevision(s, r, rev)
  {
  }

  /** The mirroring value, when present, reads back as `rev` taken unsigned; every other value
      keeps its payload, and the set of values is the same. */
  lemma MirrorRevisionValues(s: MsState, r: Revision, rev: uint32)
    ensures var vs := MirrorRevision(s, r, rev);
            (forall k :: Has(vs, k) <==> Has(s.values, k)) &&
            (forall k :: k != Key(1, RevisionIndex(r)) ==> Lookup(vs, k) == Lookup(s.values, k)) &&
            (Get(s, 1, RevisionIndex(r)).Some? ==>
               Lookup(vs, Key(1, RevisionIndex(r))).value.payload.IntVal? &&
               ToUInt32(Lookup(vs, Key(1, RevisionIndex(r))).value.payload.i) == rev)
  {
    var k0 := Key(1, RevisionIndex(r));
    var p := IntVal(ToInt32(rev));
    if Get(s, 1, RevisionIndex(r)).Some? {
      RefreshKeepsKeys(s.values, k0, p);
      Int32RoundTrip(rev);
      forall k | k != k0 ensures Lookup(Refresh(s.values, k0, p), k) == Lookup(s.values, k) {
        RefreshOtherKey(s.values, k0, p, k);
      }
    }
  }

  /** Refreshing one key leaves the lookup of every other key alone. */
  lemma {:induction false} RefreshOtherKey(vs: seq<Value>, k0: ValueKey, p: Payload, k: ValueKey)
    requires k != k0
    ensures Lookup(Refresh(vs, k0, p), k) == Lookup(vs, k)
  {
    if vs != [] {
      assert Refresh(vs, k0, p)[1..] == Refresh(vs[1..], k0, p);
      RefreshOtherKey(vs[1..], k0, p, k);
    }
  }

  // ------------------------------------------------------------------
  // Product details
  // ------------------------------------------------------------------

  /** `Unknown: id=%.4x`. */
  function UnknownManufacturerName(manufacturerId: uint16): string
  {
    "Unknown: id=" + CText.Hex(manufacturerId, 4)
  }

  /** `Unknown: type=%.4x, id=%.4x`. */
  function UnknownProductName(productType: uint16, productId: uint16): string
  {
    "Unknown: type=" + CText.Hex(productType, 4) + ", id=" + CText.Hex(productId, 4)
  }

  /** `SetProductDetails`: no product descriptor is ever found, so the names are the "Unknown"
      ones, and the three ids are stored. */
  function ProductDetails(d: DeviceInfo, manufacturerId: uint16, productType: uint16, productId: uint16): DeviceInfo
  {
    d.(manufacturerName := UnknownManufacturerName(manufacturerId),
       productName := UnknownProductName(productType, productId),
       manufacturerId := manufacturerId, productType := productType, productId := productId)
  }

  /** The "Unknown" names have fixed lengths, and their four-digit fields read back as the
      ids, so different ids give different names. */
  lemma UnknownNamesDecode(manufacturerId: uint16, productType: uint16, productId: uint16)
    ensures var m := UnknownManufacturerName(manufacturerId);
            |m| == 16 && m[..12] == "Unknown: id=" && CText.DigitsValue(m[12..], 16) == manufacturerId
    ensures var p := UnknownProductName(productType, productId);
            |p| == 27 && p[..14] == "Unknown: type=" && p[18..23] == ", id=" &&
            CText.DigitsValue(p[14..18], 16) == productType && CText.DigitsValue(p[23..], 16) == productId
  {
    assert CText.Pow(16, 4) == 0x1_0000 by {
      assert CText.Pow(16, 2) == 256 by { assert CText.Pow(16, 1) == 16 by { assert CText.Pow(16, 0) == 1; } }
      assert CText.Pow(16, 4) == 16 * CText.Pow(16, 3);
      assert CText.Pow(16, 3) == 16 * CText.Pow(16, 2);
    }
    CText.HexFacts(manufacturerId, 4);
    CText.HexFacts(productType, 4);
    CText.HexFacts(productId, 4);
    var m := UnknownManufacturerName(manufacturerId);
    assert m[12..] == CText.Hex(manufacturerId, 4);
    var p := UnknownProductName(productType, productId);
    assert p[14..18] == CText.Hex(productType, 4);
    assert p[23..] == CText.Hex(productId, 4);
  }

  /** The product details a node takes from three ids. */
  lemma ProductDetailsStored(d: DeviceInfo, manufacturerId: uint16, productType: uint16, productId: uint16)
    ensures var e := ProductDetails(d, manufacturerId, productType, productId);
            e.manufacturerId == manufacturerId && e.productType == productType && e.productId == productId &&
            e.configPath == d.configPath && e.stage == d.stage && e.classReceived == d.classReceived &&
            (manufacturerId != d.manufacturerId ==> e.manufacturerName != UnknownManufacturerName(d.manufacturerId))
  {
    if manufacturerId != d.manufacturerId {
      UnknownNamesDecode(manufacturerId, productType, productId);
      UnknownNamesDecode(d.manufacturerId, d.productType, d.productId);
    }
  }

  // ------------------------------------------------------------------
  // Loading the config file
  // ------------------------------------------------------------------

  datatype ConfigLoad = ConfigLoad(ok: bool, xmlReads: seq<XmlRead>)

  /** `LoadConfigXML` for a node, with `configDir` the `ConfigPath` option and `docs` the files
      that load. */
  function LoadConfig(d: DeviceInfo, configDir: string, docs: map<string, ConfigDoc>): ConfigLoad
  {
    var file := configDir + d.configPath;
    if |d.configPath| == 0 || file !in docs then ConfigLoad(false, [])
    else if docs[file].xmlns.Some? && docs[file].xmlns.value != OzwNamespace then ConfigLoad(false, [])
    else
      var protocol := d.stage == ManufacturerSpecific1 || !d.classReceived;
      ConfigLoad(true, (if protocol then [DeviceProtocolRead(file)] else []) +
                       [CommandClassesRead(file), MetaDataRead(file)])
  }

  /** A config file is accepted exactly when the node has a config path, the file loads, and
      its namespace, if it declares one, is OpenZWave's; an accepted file always gives its
      command classes and metadata, and its device protocol exactly at the
      `ManufacturerSpecific1` stage or before any manufacturer report. A rejected file gives
      nothing. */
  lemma LoadConfigGates(d: DeviceInfo, configDir: string, docs: map<string, ConfigDoc>)
    ensures var c := LoadConfig(d, configDir, docs);
            var file := configDir + d.configPath;
            (c.ok <==> |d.configPath| > 0 && file in docs &&
                       (docs[file].xmlns.None? || docs[file].xmlns.value == OzwNamespace)) &&
            (!c.ok ==> c.xmlReads == []) &&
            (c.ok ==> CommandClassesRead(file) in c.xmlReads && MetaDataRead(file) in c.xmlReads) &&
            (DeviceProtocolRead(file) in c.xmlReads <==> c.ok && (d.stage == ManufacturerSpecific1 || !d.classReceived)) &&
            (forall x :: x in c.xmlReads ==> x.file == file)
  {
  }

  /** A node's state with a config load applied. */
  function WithLoad(s: MsState, configDir: string, docs: map<string, ConfigDoc>): MsState
    requires s.node.Some?
  {
    s.(xmlReads := s.xmlReads + LoadConfig(s.node.value, configDir, docs).xmlReads)
  }

  // ------------------------------------------------------------------
  // The manufacturer report
  // ------------------------------------------------------------------

  /** `_SetManufacturerProductId` with the ids `vendorId`, `productType` and `productId` Z-Way
      holds: with a node, its product details are set from the ids cut to 16 bits, the static
      value request is cleared, the report is marked received, and the config file is loaded
      when the node has a path; with or without a node, a `NodeNaming` notification is queued. */
  function ProductIdSpec(s: MsState, homeId: uint32, nodeId: uint8, vendorId: int, productType: int,
                         productId: int, configDir: string, docs: map<string, ConfigDoc>): MsState
  {
    var s1 :=
      if s.node.Some? then
        var d := ProductDetails(s.node.value, ToUInt16(vendorId), ToUInt16(productType), ToUInt16(productId));
        var s0 := s.(node := Some(d.(classReceived := true)), staticRequestValues := false);
        if |d.configPath| > 0 then WithLoad(s0, configDir, docs) else s0
      else s;
    s1.(notifications := s1.notifications + [NodeNote(NodeNaming, homeId, nodeId)])
  }

  /** The report always ends with `NodeNaming`; without a node nothing else changes. With one,
      the node takes the "Unknown" names of the ids, and because the report is marked received
      before the file is read, the device protocol is read only at the `ManufacturerSpecific1`
      stage. The counters and the values never change. */
  lemma ProductIdEffects(s: MsState, homeId: uint32, nodeId: uint8, vendorId: int, productType: int,
                         productId: int, configDir: string, docs: map<string, ConfigDoc>)
    ensures var t := ProductIdSpec(s, homeId, nodeId, vendorId, productType, productId, configDir, docs);
            t.notifications == s.notifications + [NodeNote(NodeNaming, homeId, nodeId)] &&
            t.values == s.values && t.fileRevision == s.fileRevision && t.loadedRevision == s.loadedRevision &&
            t.latestRevision == s.latestRevision && t.watches == s.watches &&
            (s.node.None? ==> t == s.(notifications := t.notifications)) &&
            (s.node.Some? ==>
               t.node.Some? && !t.staticRequestValues && t.node.value.classReceived &&
               t.node.value.manufacturerName == UnknownManufacturerName(ToUInt16(vendorId)) &&
               t.node.value.productName == UnknownProductName(ToUInt16(productType), ToUInt16(productId)) &&
               t.node.value.manufacturerId == ToUInt16(vendorId) &&
               t.node.value.productType == ToUInt16(productType) && t.node.value.productId == ToUInt16(productId) &&
               |t.xmlReads| >= |s.xmlReads| && t.xmlReads[..|s.xmlReads|] == s.xmlReads &&
               (var file := configDir + s.node.value.configPath;
                DeviceProtocolRead(file) in t.xmlReads[|s.xmlReads|..] ==> s.node.value.stage == ManufacturerSpecific1))
  {
    var t := ProductIdSpec(s, homeId, nodeId, vendorId, productType, productId, configDir, docs);
    if s.node.Some? {
      var d := ProductDetails(s.node.value, ToUInt16(vendorId), ToUInt16(productType), ToUInt16(productId)).(classReceived := true);
      LoadConfigGates(d, configDir, docs);
      if |d.configPath| > 0 {
        assert t.xmlReads[|s.xmlReads|..] == LoadConfig(d, configDir, docs).xmlReads;
      }
    }
  }

  // ------------------------------------------------------------------
  // The serial number
  // ------------------------------------------------------------------

  /** A binary serial number printed with `%.2x` per byte, in byte order. */
  function SerialHex(bytes: seq<uint8>): string
  {
    if bytes == [] then "" else CText.Hex(bytes[0], 2) + SerialHex(bytes[1..])
  }

  /** The device id the watcher makes of the serial number: the bytes in hex, the string as
      it is, empty for any other type. */
  function DeviceId(serial: SerialData): string
  {
    match serial
    case BinarySerial(bytes) => SerialHex(bytes)
    case StringSerial(text) => text
    case OtherSerial => ""
  }

  /** The reading of a hex serial number, two digits at a time. */
  function SerialBytes(s: string): seq<uint8>
    decreases |s|
  {
    if |s| < 2 then [] else [ToUInt8(CText.DigitsValue(s[..2], 16))] + SerialBytes(s[2..])
  }

  lemma HexByte(b: uint8)
    ensures |CText.Hex(b, 2)| == 2 && CText.DigitsValue(CText.Hex(b, 2), 16) == b
    ensures forall i :: 0 <= i < 2 ==> CText.IsLowerHexChar(CText.Hex(b, 2)[i])
  {
    assert CText.Pow(16, 2) == 256 by { assert CText.Pow(16, 1) == 16 by { assert CText.Pow(16, 0) == 1; } }
    CText.HexFacts(b, 2);
  }

  /** `n` bytes give `2n` lower-case hex digits, and the bytes read back from them. */
  lemma {:induction false} SerialRoundTrip(bytes: seq<uint8>)
    ensures |SerialHex(bytes)| == 2 * |bytes|
    ensures forall i :: 0 <= i < |SerialHex(bytes)| ==> CText.IsLowerHexChar(SerialHex(bytes)[i])
    ensures SerialBytes(SerialHex(bytes)) == bytes
  {
    if bytes != [] {
      var h := CText.Hex(bytes[0], 2);
      var rest := SerialHex(bytes[1..]);
      HexByte(bytes[0]);
      SerialRoundTrip(bytes[1..]);
      var s := h + rest;
      assert s[..2] == h && s[2..] == rest;
      forall i | 0 <= i < |s| ensures CText.IsLowerHexChar(s[i]) {
        if i >= 2 { assert s[i] == rest[i - 2]; }
      }
      assert bytes == [bytes[0]] + bytes[1..];
    }
  }

  /** Appending a byte appends its two digits. */
  lemma {:induction false} SerialHexAppend(bytes: seq<uint8>, b: uint8)
    ensures SerialHex(bytes + [b]) == SerialHex(bytes) + CText.Hex(b, 2)
  {
    if bytes == [] {
      assert [b][1..] == [];
    } else {
      assert (bytes + [b])[1..] == bytes[1..] + [b];
      SerialHexAppend(bytes[1..], b);
    }
  }

  /** The serial value the watcher creates when the node lacks one. */
  function SerialValue(instance: uint8): Value
  {
    Value(Key(instance, SerialNumberIndex), System, "Serial Number", "", true, StringVal(""), 0)
  }

  /** The values after a serial id arrives: the serial value is created if absent and then
      holds the id. */
  function WithSerial(vs: Store, instance: uint8, id: string): Store
  {
    var c := Create(vs, SerialValue(instance));
    RefreshKeepsKeys(c, Key(instance, SerialNumberIndex), StringVal(id));
    Refresh(c, Key(instance, SerialNumberIndex), StringVal(id))
  }

  /** The serial number reaches the node only with a node and a non-empty id. */
  function SerialSpec(s: MsState, instance: uint8, id: string): MsState
  {
    if id != "" && s.node.Some? then s.(values := WithSerial(s.values, instance, id)) else s
  }

  /** After a non-empty id, a node has exactly one serial value for the instance, holding the
      id; the value is new only when it was absent. An empty id or a missing node changes
      nothing. */
  lemma SerialStored(s: MsState, instance: uint8, id: string)
    ensures var t := SerialSpec(s, instance, id);
            var k := Key(instance, SerialNumberIndex);
            (id != "" && s.node.Some? ==>
               Lookup(t.values, k).Some? && Lookup(t.values, k).value.payload == StringVal(id) &&
               (forall k' :: Has(t.values, k') <==> Has(s.values, k') || k' == k) &&
               (Has(s.values, k) ==> Lookup(t.values, k) == Some(Lookup(s.values, k).value.(payload := StringVal(id))))) &&
            (id == "" || s.node.None? ==> t == s) &&
            t.node == s.node && t.notifications == s.notifications
  {
    var k := Key(instance, SerialNumberIndex);
    if id != "" && s.node.Some? {
      var vs := Create(s.values, SerialValue(instance));
      CreateKeys(s.values, SerialValue(instance));
      RefreshKeepsKeys(vs, k, StringVal(id));
      assert SerialSpec(s, instance, id).values == Refresh(vs, k, StringVal(id));
    }
  }

  // ------------------------------------------------------------------
  // The watcher and the values
  // ------------------------------------------------------------------

  /** `Watcher`: for an update, phantom or not, on `productId` the manufacturer report is
      applied; on `serialNumber` the device id reaches the node. Other change types and paths
      change nothing. */
  function WatcherSpec(s: MsState, homeId: uint32, nodeId: uint8, changeType: uint8, path: string,
                       instance: uint8, vendorId: int, productType: int, productId: int,
                       serial: SerialData, configDir: string, docs: map<string, ConfigDoc>): MsState
  {
    if !IsUpdate(changeType) then s
    else
      var s1 := if path == "productId" then ProductIdSpec(s, homeId, nodeId, vendorId, productType, productId, configDir, docs) else s;
      if path == "serialNumber" then SerialSpec(s1, instance, DeviceId(serial)) else s1
  }

  /** The watcher ignores every change but an update, and every path but the two it watches. */
  lemma WatcherIgnores(s: MsState, homeId: uint32, nodeId: uint8, changeType: uint8, path: string,
                       instance: uint8, vendorId: int, productType: int, productId: int,
                       serial: SerialData, configDir: string, docs: map<string, ConfigDoc>)
    ensures (changeType != Updated && changeType != Updated + PhantomUpdate) || (path != "productId" && path != "serialNumber") ==>
              WatcherSpec(s, homeId, nodeId, changeType, path, instance, vendorId, productType, productId, serial, configDir, docs) == s
    ensures path == "serialNumber" && IsUpdate(changeType) ==>
              WatcherSpec(s, homeId, nodeId, changeType, path, instance, vendorId, productType, productId, serial, configDir, docs) ==
              SerialSpec(s, instance, DeviceId(serial))
  {
    IsUpdateCases(changeType);
  }

  /** The three revision values `CreateVars` creates, each holding its counter. */
  function RevisionValues(s: MsState): seq<Value>
  {
    [Value(Key(1, LoadedConfigIndex), System, "Loaded Config Revision", "", true, IntVal(ToInt32(s.loadedRevision)), 0),
     Value(Key(1, LocalConfigIndex), System, "Config File Revision", "", true, IntVal(ToInt32(s.fileRevision)), 0),
     Value(Key(1, LatestConfigIndex), System, "Latest Available Config File Revision", "", true,
           IntVal(ToInt32(s.latestRevision)), 0)]
  }

  /** `CreateVars`: only for instance 1 and with a node, the three revision values are created,
      `productId` and `serialNumber` are watched, and the manufacturer report is applied. */
  function CreateVarsSpec(s: MsState, instance: uint8, homeId: uint32, nodeId: uint8, vendorId: int,
                          productType: int, productId: int, configDir: string, docs: map<string, ConfigDoc>): MsState
  {
    if instance == 1 && s.node.Some? then
      var s0 := s.(values := CreateAll(s.values, RevisionValues(s)),
                   watches := s.watches + [Watch(1, "productId"), Watch(1, "serialNumber")]);
      ProductIdSpec(s0, homeId, nodeId, vendorId, productType, productId, configDir, docs)
    else s
  }

  /** Every instance but 1, and a missing node, leave the class alone; otherwise the three
      revision values are there afterwards, a new one holding its counter, and the report's
      `NodeNaming` is queued. */
  lemma CreateVarsEffects(s: MsState, instance: uint8, homeId: uint32, nodeId: uint8, vendorId: int,
                          productType: int, productId: int, configDir: string, docs: map<string, ConfigDoc>)
    ensures var t := CreateVarsSpec(s, instance, homeId, nodeId, vendorId, productType, productId, configDir, docs);
            (instance != 1 || s.node.None? ==> t == s) &&
            (instance == 1 && s.node.Some? ==>
               (forall r: Revision :: Has(t.values, Key(1, RevisionIndex(r)))) &&
               (forall r: Revision :: !Has(s.values, Key(1, RevisionIndex(r))) ==>
                  Lookup(t.values, Key(1, RevisionIndex(r))) == Some(RevisionValues(s)[RevisionPosition(r)])) &&
               t.watches == s.watches + [Watch(1, "productId"), Watch(1, "serialNumber")] &&
               t.notifications == s.notifications + [NodeNote(NodeNaming, homeId, nodeId)])
  {
    if instance == 1 && s.node.Some? {
      var news := RevisionValues(s);
      CreateAllKeys(s.values, news);
      CreateRevisionValues(s.values, s);
      forall r: Revision | !Has(s.values, Key(1, RevisionIndex(r)))
        ensures Lookup(CreateAll(s.values, news), Key(1, RevisionIndex(r))) == Some(news[RevisionPosition(r)])
      {
      }
      var s0 := s.(values := CreateAll(s.values, news),
                   watches := s.watches + [Watch(1, "productId"), Watch(1, "serialNumber")]);
      ProductIdEffects(s0, homeId, nodeId, vendorId, productType, productId, configDir, docs);
      assert news[0] in news && news[1] in news && news[2] in news;
    }
  }

  /** The three revision values, created over a store that lacks one, put it there with its
      counter. */
  lemma CreateRevisionValues(vs: Store, s: MsState)
    ensures var news := RevisionValues(s);
            var r := CreateAll(vs, news);
            (!Has(vs, Key(1, LoadedConfigIndex)) ==> Lookup(r, Key(1, LoadedConfigIndex)) == Some(news[0])) &&
            (!Has(vs, Key(1, LocalConfigIndex)) ==> Lookup(r, Key(1, LocalConfigIndex)) == Some(news[1])) &&
            (!Has(vs, Key(1, LatestConfigIndex)) ==> Lookup(r, Key(1, LatestConfigIndex)) == Some(news[2]))
  {
    var news := RevisionValues(s);
    var v0 := Create(vs, news[0]);
    var v1 := Create(v0, news[1]);
    var v2 := Create(v1, news[2]);
    assert CreateAll(vs, news) == CreateAll(v0, news[1..]);
    assert CreateAll(v0, news[1..]) == CreateAll(v1, news[1..][1..]);
    assert CreateAll(v1, news[1..][1..]) == CreateAll(v2, news[1..][1..][1..]);
    assert news[1..][1..][1..] == [];
    CreateKeys(vs, news[0]);
    CreateKeys(v0, news[1]);
    CreateKeys(v1, news[2]);
  }

  /** Where a counter's value sits among `RevisionValues`. */
  function RevisionPosition(r: Revision): (i: nat)
    ensures i < 3
  {
    match r
    case LoadedRevision => 0
    case FileRevision => 1
    case LatestRevision => 2
  }

  // ------------------------------------------------------------------
  // The command class
  // ------------------------------------------------------------------

  /** `Init` has nothing to request, since Z-Way asks during the interview; it succeeds whether
      or not the device answers `Get`. */
  function Init(getSupported: bool): (ok: bool)
    ensures ok
  {
    true
  }

  /** `RequestState`, for the same reason, succeeds without a request. */
  function RequestState(flags: uint32, instance: uint8): (ok: bool)
    ensures ok
  {
    true
  }

  class ManufacturerSpecific {
    const homeId: uint32
    const nodeId: uint8
    var fileRevision: uint32
    var loadedRevision: uint32
    var latestRevision: uint32
    var staticRequestValues: bool
    var node: Option<DeviceInfo>
    var values: Store
    var watches: seq<Watch>
    var notifications: seq<Notification>
    var xmlReads: seq<XmlRead>

    function State(): MsState
      reads this
    {
      MsState(fileRevision, loadedRevision, latestRevision, staticRequestValues, node, values, watches,
              notifications, xmlReads)
    }

    /** The constructor: the three counters start at 0 and the static value request is set. */
    constructor(homeId: uint32, nodeId: uint8, node: Option<DeviceInfo>, values: Store)
      ensures this.homeId == homeId && this.nodeId == nodeId
      ensures State() == MsState(0, 0, 0, true, node, values, [], [], [])
    {
      this.homeId := homeId;
      this.nodeId := nodeId;
      fileRevision := 0;
      loadedRevision := 0;
      latestRevision := 0;
      staticRequestValues := true;
      this.node := node;
      this.values := values;
      watches := [];
      notifications := [];
      xmlReads := [];
    }

    /** Refreshes the instance-1 value `index` to `rev` when the node has it. */
    method RefreshRevision(index: uint16, rev: uint32)
      modifies this`values
      ensures values == (if Get(old(State()), 1, index).Some?
                         then Refresh(old(values), Key(1, index), IntVal(ToInt32(rev))) else old(values))
    {
      if node.Some? && Lookup(values, Key(1, index)).Some? {
        RefreshKeepsKeys(values, Key(1, index), IntVal(ToInt32(rev)));
        values := Refresh(values, Key(1, index), IntVal(ToInt32(rev)));
      }
    }

    method SetLatestConfigRevision(rev: uint32)
      modifies this
      ensures State() == WithRevision(old(State()), LatestRevision, rev)
    {
      latestRevision := rev;
      RefreshRevision(LatestConfigIndex, rev);
    }

    method SetFileConfigRevision(rev: uint32)
      modifies this
      ensures State() == WithRevision(old(State()), FileRevision, rev)
    {
      fileRevision := rev;
      RefreshRevision(LocalConfigIndex, rev);
    }

    method SetLoadedConfigRevision(rev: uint32)
      modifies this
      ensures State() == WithRevision(old(State()), LoadedRevision, rev)
    {
      loadedRevision := rev;
      RefreshRevision(LoadedConfigIndex, rev);
    }

    /** `SetProductDetails`; the node must exist, as the source dereferences it. */
    method SetProductDetails(manufacturerId: uint16, productType: uint16, productId: uint16)
      requires node.Some?
      modifies this`node
      ensures node == Some(ProductDetails(old(node).value, manufacturerId, productType, productId))
    {
      var d := node.value;
      var manufacturerName := "Unknown: id=" + CText.Hex(manufacturerId, 4);
      var productName := "Unknown: type=" + CText.Hex(productType, 4) + ", id=" + CText.Hex(productId, 4);
      d := d.(manufacturerName := manufacturerName, productName := productName);
      d := d.(manufacturerId := manufacturerId);
      d := d.(productType := productType);
      d := d.(productId := productId);
      node := Some(d);
    }

    /** `LoadConfigXML`; the node must exist, as the source dereferences it. */
    method LoadConfigXML(configDir: string, docs: map<string, ConfigDoc>) returns (ok: bool)
      requires node.Some?
      modifies this`xmlReads
      ensures State() == WithLoad(old(State()), configDir, docs)
      ensures ok == LoadConfig(node.value, configDir, docs).ok
    {
      var d := node.value;
      ok := false;
      var file := configDir + d.configPath;
      if |d.configPath| != 0 && file in docs {
        var xmlns := docs[file].xmlns;
        if !(xmlns.Some? && xmlns.value != OzwNamespace) {
          if d.stage == ManufacturerSpecific1 {
            xmlReads := xmlReads + [DeviceProtocolRead(file)];
          } else if !d.classReceived {
            xmlReads := xmlReads + [DeviceProtocolRead(file)];
          }
          xmlReads := xmlReads + [CommandClassesRead(file), MetaDataRead(file)];
          ok := true;
        }
      }
    }

    /** `ReLoadConfigXML`. */
    method ReLoadConfigXML(configDir: string, docs: map<string, ConfigDoc>)
      requires node.Some?
      modifies this`xmlReads
      ensures State() == WithLoad(old(State()), configDir, docs)
    {
      var _ := LoadConfigXML(configDir, docs);
    }

    /** `SetManufacturerProductId` and `_SetManufacturerProductId` (the Z-Way lock is not part
        of this model), with the ids Z-Way holds. */
    method SetManufacturerProductId(vendorId: int, productType: int, productId: int,
                                    configDir: string, docs: map<string, ConfigDoc>)
      modifies this
      ensures State() == ProductIdSpec(old(State()), homeId, nodeId, vendorId, productType, productId, configDir, docs)
    {
      if node.Some? {
        SetProductDetails(ToUInt16(vendorId), ToUInt16(productType), ToUInt16(productId));
        staticRequestValues := false;
        node := Some(node.value.(classReceived := true));
        if |node.value.configPath| > 0 {
          var _ := LoadConfigXML(configDir, docs);
        }
      }
      notifications := notifications + [NodeNote(NodeNaming, homeId, nodeId)];
    }

    /** The device id of the serial number; the binary case is the source's loop over the
        bytes. */
    method SerialDeviceId(serial: SerialData) returns (id: string)
      ensures id == DeviceId(serial)
    {
      id := "";
      match serial {
        case BinarySerial(bytes) =>
          var i := 0;
          while i < |bytes|
            invariant 0 <= i <= |bytes|
            invariant id == SerialHex(bytes[..i])
          {
            SerialHexAppend(bytes[..i], bytes[i]);
            assert bytes[..i + 1] == bytes[..i] + [bytes[i]];
            id := id + CText.Hex(bytes[i], 2);
            i := i + 1;
          }
          assert bytes[..|bytes|] == bytes;
        case StringSerial(text) =>
          id := text;
        case OtherSerial =>
      }
    }

    /** `Watcher` on the instance's `productId` or `serialNumber` data. */
    method Watcher(changeType: uint8, path: string, instance: uint8, vendorId: int, productType: int,
                   productId: int, serial: SerialData, configDir: string, docs: map<string, ConfigDoc>)
      modifies this
      ensures State() == WatcherSpec(old(State()), homeId, nodeId, changeType, path, instance, vendorId,
                                     productType, productId, serial, configDir, docs)
    {
      if WithoutPhantom(changeType) == Updated {
        if path == "productId" {
          SetManufacturerProductId(vendorId, productType, productId, configDir, docs);
        }
        if path == "serialNumber" {
          var id := SerialDeviceId(serial);
          StoreSerial(instance, id);
        }
      }
    }

    /** The serial-number part of `Watcher`, once the device id is built. */
    method StoreSerial(instance: uint8, id: string)
      modifies this`values
      ensures values == (if id != "" && node.Some? then WithSerial(old(values), instance, id) else old(values))
    {
      if id != "" && node.Some? {
        var vs := values;
        if Lookup(vs, Key(instance, SerialNumberIndex)).None? {
          vs := Create(vs, SerialValue(instance));
        }
        assert vs == Create(values, SerialValue(instance));
        RefreshKeepsKeys(vs, Key(instance, SerialNumberIndex), StringVal(id));
        values := Refresh(vs, Key(instance, SerialNumberIndex), StringVal(id));
      }
    }

    /** `CreateVars`. */
    method CreateVars(instance: uint8, vendorId: int, productType: int, productId: int,
                      configDir: string, docs: map<string, ConfigDoc>)
      modifies this
      ensures State() == CreateVarsSpec(old(State()), instance, homeId, nodeId, vendorId, productType, productId,
                                        configDir, docs)
    {
      if instance == 1 && node.Some? {
        values := CreateAll(values, RevisionValues(State()));
        watches := watches + [Watch(1, "productId"), Watch(1, "serialNumber")];
        SetManufacturerProductId(vendorId, productType, productId, configDir, docs);
      }
    }
  }
}
