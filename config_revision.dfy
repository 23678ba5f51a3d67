/**
 * Keeping device configuration files up to date: the DNS names and download URLs the driver
 * builds from a device's ids, what it makes of a DNS answer or a finished download, the gates
 * in front of a download, and the policy for reloading a node once a new file is in place.
 * The manufacturer-specific database is a collaborator whose two revision counters are state
 * here and whose other operations are recorded as calls.
 */
module ConfigRevision {
  import opened Wrappers
  import opened ZWave
  import CText

  // ------------------------------------------------------------------
  // Names and URLs
  // ------------------------------------------------------------------

  /** `std::hex << std::setw(4) << std::setfill('0') << id`. */
  function Hex4(id: uint16): string
  {
    CText.Hex(id, 4)
  }

  /** Product id, product type and manufacturer id, in that order, joined by dots. */
  function IdTriple(productId: uint16, productType: uint16, manufacturerId: uint16): string
  {
    Hex4(productId) + "." + Hex4(productType) + "." + Hex4(manufacturerId)
  }

  /** The DNS name whose TXT record holds a device's latest configuration revision. */
  function LookupName(productId: uint16, productType: uint16, manufacturerId: uint16): string
  {
    IdTriple(productId, productType, manufacturerId) + ".db.openzwave.com"
  }

  const MfsLookupName := "mfs.db.openzwave.com"
  const DownloadBase := "http://download.db.openzwave.com/"
  const MfsUrl := "http://download.db.openzwave.com/mfs.xml"

  /** The URL of a device's configuration file. */
  function ConfigUrl(productId: uint16, productType: uint16, manufacturerId: uint16): string
  {
    DownloadBase + IdTriple(productId, productType, manufacturerId) + ".xml"
  }

  /** The triple is fourteen characters: three four-digit lower-case hex fields, each denoting
      its id, separated by dots. */
  lemma TripleShape(productId: uint16, productType: uint16, manufacturerId: uint16)
    ensures var t := IdTriple(productId, productType, manufacturerId);
            |t| == 14 && t[4] == '.' && t[9] == '.' &&
            t[..4] == Hex4(productId) && t[5..9] == Hex4(productType) && t[10..] == Hex4(manufacturerId) &&
            CText.DigitsValue(t[..4], 16) == productId &&
            CText.DigitsValue(t[5..9], 16) == productType &&
            CText.DigitsValue(t[10..], 16) == manufacturerId
  {
    assert CText.Pow(16, 4) == 0x1_0000;
    CText.HexFacts(productId, 4);
    CText.HexFacts(productType, 4);
    CText.HexFacts(manufacturerId, 4);
    var t := IdTriple(productId, productType, manufacturerId);
    assert t == Hex4(productId) + "." + Hex4(productType) + "." + Hex4(manufacturerId);
  }

  /** Different devices get different names: the triple determines all three ids. */
  lemma TripleInjective(p1: uint16, t1: uint16, m1: uint16, p2: uint16, t2: uint16, m2: uint16)
    requires IdTriple(p1, t1, m1) == IdTriple(p2, t2, m2)
    ensures p1 == p2 && t1 == t2 && m1 == m2
  {
    TripleShape(p1, t1, m1);
    TripleShape(p2, t2, m2);
  }

  /** The lookup name and the download URL carry the same triple, at known places. */
  lemma NameAndUrlAgree(productId: uint16, productType: uint16, manufacturerId: uint16)
    ensures var t := IdTriple(productId, productType, manufacturerId);
            var name := LookupName(productId, productType, manufacturerId);
            var url := ConfigUrl(productId, productType, manufacturerId);
            |name| == 31 && name[..14] == t && name[14..] == ".db.openzwave.com" &&
            |url| == 51 && url[..33] == DownloadBase && url[33..47] == t && url[47..] == ".xml"
  {
    TripleShape(productId, productType, manufacturerId);
    var t := IdTriple(productId, productType, manufacturerId);
    assert LookupName(productId, productType, manufacturerId) == t + ".db.openzwave.com";
    assert ConfigUrl(productId, productType, manufacturerId) == DownloadBase + t + ".xml";
  }

  // ------------------------------------------------------------------
  // Requests, answers and the database collaborator
  // ------------------------------------------------------------------

  datatype LookupType = RevisionLookup | OtherLookup

  /** A DNS request the driver hands to its resolver thread. */
  datatype DnsRequest = DnsRequest(nodeId: uint8, name: string, kind: LookupType)

  datatype DnsStatus = DnsOk | DnsNotFound | DnsDomainError | DnsInternalError

  /** A completed lookup: the request, its status and the TXT record's text. */
  datatype DnsResult = DnsResult(request: DnsRequest, status: DnsStatus, result: string)

  datatype DownloadOp = ConfigOp | MfsConfigOp

  /** A download the driver hands to its HTTP client. */
  datatype HttpDownload = HttpDownload(url: string, filename: string, operation: DownloadOp, node: uint8)

  /** `CheckNodeConfigRevision`: a revision lookup for the device's name. */
  function NodeRevisionRequest(node: Node): (r: DnsRequest)
    ensures r.nodeId == node.id && r.kind == RevisionLookup
    ensures r.name == LookupName(node.productId, node.productType, node.manufacturerId)
  {
    DnsRequest(node.id, LookupName(node.productId, node.productType, node.manufacturerId), RevisionLookup)
  }

  /** `CheckMFSConfigRevision`: a revision lookup for the database itself, as node 0. */
  function MfsRevisionRequest(): (r: DnsRequest)
    ensures r.nodeId == 0 && r.kind == RevisionLookup && r.name == MfsLookupName
  {
    DnsRequest(0, MfsLookupName, RevisionLookup)
  }

  /** `startConfigDownload`. */
  function ConfigDownload(manufacturerId: uint16, productType: uint16, productId: uint16,
                          file: string, node: uint8): (d: HttpDownload)
    ensures d.url == ConfigUrl(productId, productType, manufacturerId)
    ensures d.filename == file && d.operation == ConfigOp && d.node == node
  {
    HttpDownload(ConfigUrl(productId, productType, manufacturerId), file, ConfigOp, node)
  }

  /** `startMFSDownload`. */
  function MfsDownload(file: string): (d: HttpDownload)
    ensures d.url == MfsUrl && d.filename == file && d.operation == MfsConfigOp && d.node == 0
  {
    HttpDownload(MfsUrl, file, MfsConfigOp, 0)
  }

  /** The operations of the manufacturer-specific database the driver invokes. */
  datatype MfsCall =
    | UpdateConfigFile(nodeId: uint8)
    | UpdateMfsConfigFile
    | CheckInitialized
    | CheckConfigFiles
    | ConfigDownloaded(file: string, node: uint8, ok: bool)
    | MfsConfigDownloaded(file: string, ok: bool)

  /** The database's own revision, the latest one known, and the calls it has received. */
  datatype MfsDb = MfsDb(revision: uint32, latestRevision: uint32, calls: seq<MfsCall>)

  function Call(mfs: MfsDb, c: MfsCall): MfsDb
  {
    mfs.(calls := mfs.calls + [c])
  }

  /** `(unsigned long) v` on a 64-bit `long`. */
  function ToULong(v: int): nat
  {
    v % (CText.ULongMax + 1)
  }

  // ------------------------------------------------------------------
  // processConfigRevision
  // ------------------------------------------------------------------

  /** What handling one DNS answer does: the node of the requested id (when that slot is
      consulted), the database, and the notifications queued. */
  datatype RevisionOutcome = RevisionOutcome(node: Option<Node>, mfs: MfsDb, notes: seq<Notification>)

  function AlertFor(homeId: uint32, nodeId: uint8, a: UserAlert): Notification
  {
    Notification(UserAlerts, homeId, nodeId, NoValueId, 0, Some(a))
  }

  /** The device branch of `processConfigRevision` for a known node, once the answer has been
      read as the revision `latest`. */
  function DeviceRevision(latest: uint32, node: Node, mfs: MfsDb, autoUpdate: bool, homeId: uint32): RevisionOutcome
  {
    var n := node.(latestConfigRevision := latest);
    if n.fileConfigRevision < latest then
      RevisionOutcome(Some(n), if autoUpdate then Call(mfs, UpdateConfigFile(n.id)) else mfs,
                      [AlertFor(homeId, n.id, ConfigOutOfDate)])
    else RevisionOutcome(Some(n), mfs, [])
  }

  /** The database branch of `processConfigRevision` once the answer reads as the `long` `v`. */
  function DatabaseRevision(v: int, mfs: MfsDb, autoUpdate: bool): (MfsDb, seq<Notification>)
  {
    var m := mfs.(latestRevision := ToUInt32(v));
    if m.revision < ToULong(v) then
      (Call(m, if autoUpdate then UpdateMfsConfigFile else CheckInitialized), [AlertNote(MFSOutOfDate)])
    else (Call(m, CheckConfigFiles), [])
  }

  /** `processConfigRevision`, given the table slot of the answer's node id. */
  function ProcessConfigRevision(r: DnsResult, node: Option<Node>, mfs: MfsDb, autoUpdate: bool,
                                 homeId: uint32): RevisionOutcome
  {
    if r.status == DnsOk then
      if r.request.kind != RevisionLookup then RevisionOutcome(node, Call(mfs, CheckInitialized), [])
      else if r.request.nodeId > 0 then
        if node.None? then RevisionOutcome(node, mfs, [])
        else DeviceRevision(ToUInt32(CText.Atol(r.result)), node.value, mfs, autoUpdate, homeId)
      else
        var (m, notes) := DatabaseRevision(CText.Atol(r.result), mfs, autoUpdate);
        RevisionOutcome(node, m, notes)
    else RevisionOutcome(node, Call(mfs, CheckInitialized), [AlertNote(DNSError)])
  }

  /** A device answer sets the node's latest revision and leaves the rest of the node alone;
      it raises `ConfigOutOfDate` exactly when the node's file is older, and asks for an update
      exactly when, in addition, automatic updates are on. */
  lemma DeviceAnswer(r: DnsResult, node: Node, mfs: MfsDb, autoUpdate: bool, homeId: uint32)
    requires r.status == DnsOk && r.request.kind == RevisionLookup && r.request.nodeId > 0
    ensures var o := ProcessConfigRevision(r, Some(node), mfs, autoUpdate, homeId);
            var latest := ToUInt32(CText.Atol(r.result));
            o.node == Some(node.(latestConfigRevision := latest)) &&
            (o.notes != [] <==> node.fileConfigRevision < latest) &&
            (o.notes != [] ==> o.notes == [AlertFor(homeId, node.id, ConfigOutOfDate)]) &&
            o.mfs.revision == mfs.revision && o.mfs.latestRevision == mfs.latestRevision &&
            (o.mfs.calls == mfs.calls + [UpdateConfigFile(node.id)] <==> node.fileConfigRevision < latest && autoUpdate) &&
            (o.mfs.calls != mfs.calls ==> o.mfs.calls == mfs.calls + [UpdateConfigFile(node.id)])
  {
  }

  /** An answer for a node that has gone does nothing at all (not even `checkInitialized`). */
  lemma VanishedNode(r: DnsResult, mfs: MfsDb, autoUpdate: bool, homeId: uint32)
    requires r.status == DnsOk && r.request.kind == RevisionLookup && r.request.nodeId > 0
    ensures ProcessConfigRevision(r, None, mfs, autoUpdate, homeId) == RevisionOutcome(None, mfs, [])
  {
  }

  /** An answer for the database records its latest revision; it is out of date when its own
      revision is below the answer read as an `unsigned long`, and then updates itself or,
      without automatic updates, checks that it is initialised; otherwise it checks its files. */
  lemma DatabaseAnswer(r: DnsResult, node: Option<Node>, mfs: MfsDb, autoUpdate: bool, homeId: uint32)
    requires r.status == DnsOk && r.request.kind == RevisionLookup && r.request.nodeId == 0
    ensures var o := ProcessConfigRevision(r, node, mfs, autoUpdate, homeId);
            var v := CText.Atol(r.result);
            o.node == node &&
            o.mfs.revision == mfs.revision && o.mfs.latestRevision == ToUInt32(v) &&
            (mfs.revision < ToULong(v) ==>
               o.notes == [AlertNote(MFSOutOfDate)] &&
               o.mfs.calls == mfs.calls + [if autoUpdate then UpdateMfsConfigFile else CheckInitialized]) &&
            (mfs.revision >= ToULong(v) ==> o.notes == [] && o.mfs.calls == mfs.calls + [CheckConfigFiles])
  {
  }

  /** A negative revision text wraps to a huge unsigned value, so it always reads as newer. */
  lemma NegativeAnswerIsNewer(r: DnsResult, node: Option<Node>, mfs: MfsDb, autoUpdate: bool, homeId: uint32)
    requires r.status == DnsOk && r.request.kind == RevisionLookup && r.request.nodeId == 0
    requires CText.Atol(r.result) < 0
    ensures ProcessConfigRevision(r, node, mfs, autoUpdate, homeId).notes == [AlertNote(MFSOutOfDate)]
  {
    var v := CText.Atol(r.result);
    assert ToULong(v) == v + CText.ULongMax + 1;
    assert DatabaseRevision(v, mfs, autoUpdate).1 == [AlertNote(MFSOutOfDate)];
  }

  /** A failed lookup raises one `DNSError` alert and then checks the database is initialised;
      a non-revision answer only does the latter. Neither touches the node. */
  lemma FailedLookup(r: DnsResult, node: Option<Node>, mfs: MfsDb, autoUpdate: bool, homeId: uint32)
    requires r.status != DnsOk || r.request.kind != RevisionLookup
    ensures var o := ProcessConfigRevision(r, node, mfs, autoUpdate, homeId);
            o.node == node && o.mfs == Call(mfs, CheckInitialized) &&
            o.notes == (if r.status != DnsOk then [AlertNote(DNSError)] else [])
  {
  }

  // ------------------------------------------------------------------
  // Downloads
  // ------------------------------------------------------------------

  /** What a download request or completion does to the database and the queue. */
  datatype DownloadOutcome = DownloadOutcome(started: bool, mfs: MfsDb, notes: seq<Notification>)

  /** Only a file of revision 1 or higher that is older than the latest one is replaced. */
  predicate DownloadGate(local: uint32, latest: uint32)
  {
    0 < local < latest
  }

  /** `downloadConfigRevision(node)`. */
  function DownloadConfigRevision(node: Node, mfs: MfsDb): DownloadOutcome
  {
    if node.fileConfigRevision <= 0 then DownloadOutcome(false, mfs, [AlertNote(ConfigFileDownloadFailed)])
    else if node.fileConfigRevision >= node.latestConfigRevision then
      DownloadOutcome(false, mfs, [AlertNote(ConfigFileDownloadFailed)])
    else DownloadOutcome(true, Call(mfs, UpdateConfigFile(node.id)), [])
  }

  /** `downloadMFSRevision()`. */
  function DownloadMfsRevision(mfs: MfsDb): DownloadOutcome
  {
    if mfs.revision <= 0 then DownloadOutcome(false, mfs, [AlertNote(ConfigFileDownloadFailed)])
    else if mfs.revision >= mfs.latestRevision then DownloadOutcome(false, mfs, [AlertNote(ConfigFileDownloadFailed)])
    else DownloadOutcome(true, Call(mfs, UpdateMfsConfigFile), [])
  }

  /** Both gates start an update exactly when 0 < local < latest; otherwise they only raise
      `ConfigFileDownloadFailed`. */
  lemma DownloadGates(node: Node, mfs: MfsDb)
    ensures DownloadConfigRevision(node, mfs).started <==> DownloadGate(node.fileConfigRevision, node.latestConfigRevision)
    ensures DownloadMfsRevision(mfs).started <==> DownloadGate(mfs.revision, mfs.latestRevision)
    ensures var o := DownloadConfigRevision(node, mfs);
            if o.started then o.notes == [] && o.mfs == Call(mfs, UpdateConfigFile(node.id))
            else o.notes == [AlertNote(ConfigFileDownloadFailed)] && o.mfs == mfs
    ensures var o := DownloadMfsRevision(mfs);
            if o.started then o.notes == [] && o.mfs == Call(mfs, UpdateMfsConfigFile)
            else o.notes == [AlertNote(ConfigFileDownloadFailed)] && o.mfs == mfs
  {
  }

  /** `processDownload`: the database hears of every completion of a known operation; a failed
      one also raises `ConfigFileDownloadFailed`. */
  function ProcessDownload(d: HttpDownload, ok: bool, mfs: MfsDb): (o: DownloadOutcome)
    ensures o.mfs.revision == mfs.revision && o.mfs.latestRevision == mfs.latestRevision
    ensures o.mfs.calls == mfs.calls + [if d.operation == ConfigOp then ConfigDownloaded(d.filename, d.node, ok)
                                        else MfsConfigDownloaded(d.filename, ok)]
    ensures o.notes == (if ok then [] else [AlertNote(ConfigFileDownloadFailed)])
    ensures !o.started
  {
    var c := if d.operation == ConfigOp then ConfigDownloaded(d.filename, d.node, ok)
             else MfsConfigDownloaded(d.filename, ok);
    DownloadOutcome(false, Call(mfs, c), if ok then [] else [AlertNote(ConfigFileDownloadFailed)])
  }

  /** A download the driver started comes back to the database under the file and node it was
      started with: a device file as `configDownloaded` for that node, the database file as
      `mfsConfigDownloaded`. Either way the success flag is passed on, only a failure raises
      `ConfigFileDownloadFailed`, and the database's revision counters stay as they were. */
  lemma DownloadCompletion(manufacturerId: uint16, productType: uint16, productId: uint16,
                           file: string, node: uint8, ok: bool, mfs: MfsDb)
    ensures var o := ProcessDownload(ConfigDownload(manufacturerId, productType, productId, file, node), ok, mfs);
            o.mfs.calls == mfs.calls + [ConfigDownloaded(file, node, ok)] &&
            (o.notes != [] <==> !ok) && (!ok ==> o.notes == [AlertNote(ConfigFileDownloadFailed)]) &&
            o.mfs.revision == mfs.revision && o.mfs.latestRevision == mfs.latestRevision
    ensures var o := ProcessDownload(MfsDownload(file), ok, mfs);
            o.mfs.calls == mfs.calls + [MfsConfigDownloaded(file, ok)] &&
            (o.notes != [] <==> !ok) && (!ok ==> o.notes == [AlertNote(ConfigFileDownloadFailed)]) &&
            o.mfs.revision == mfs.revision && o.mfs.latestRevision == mfs.latestRevision
  {
  }

  // ------------------------------------------------------------------
  // refreshNodeConfig
  // ------------------------------------------------------------------

  /** What `refreshNodeConfig` does beyond returning its result. */
  datatype RefreshStep = RaiseReloadAlert | ReloadNow | QueueReload | NoStep

  datatype RefreshDecision = RefreshDecision(step: RefreshStep, result: bool)

  /** The reload policy for the `ReloadAfterUpdate` option `action`, matched case-insensitively.
      `AWAKE` consults the node, which the source dereferences without a check. */
  function RefreshPolicy(action: string, node: Option<Node>): RefreshDecision
    requires CText.ToUpper(action) == "AWAKE" ==> node.Some?
  {
    var a := CText.ToUpper(action);
    if a == "NEVER" then RefreshDecision(RaiseReloadAlert, true)
    else if a == "IMMEDIATE" then RefreshDecision(ReloadNow, true)
    else if a == "AWAKE" then
      var n := node.value;
      if !n.listening then
        if n.wakeUp.Some? then
          if !n.wakeUp.value.awake then RefreshDecision(QueueReload, false)
          else RefreshDecision(ReloadNow, true)
        else RefreshDecision(NoStep, false)
      else RefreshDecision(ReloadNow, false)
    else RefreshDecision(NoStep, false)
  }

  /** The policy, case by case, with its uneven results: `NEVER` alerts and `IMMEDIATE` reloads,
      both answering true; under `AWAKE` an asleep node is queued (false), an awake one reloaded
      (true), a listening one reloaded (false), one without wake-up support left alone (false);
      any other action does nothing and answers false. */
  lemma RefreshPolicyCases(action: string, node: Option<Node>)
    requires CText.ToUpper(action) == "AWAKE" ==> node.Some?
    ensures var a := CText.ToUpper(action);
            var d := RefreshPolicy(action, node);
            (a == "NEVER" ==> d == RefreshDecision(RaiseReloadAlert, true)) &&
            (a == "IMMEDIATE" ==> d == RefreshDecision(ReloadNow, true)) &&
            (a == "AWAKE" && node.value.listening ==> d == RefreshDecision(ReloadNow, false)) &&
            (a == "AWAKE" && !node.value.listening && node.value.wakeUp.None? ==> d == RefreshDecision(NoStep, false)) &&
            (a == "AWAKE" && !node.value.listening && node.value.wakeUp.Some? ==>
               d == if node.value.wakeUp.value.awake then RefreshDecision(ReloadNow, true)
                    else RefreshDecision(QueueReload, false)) &&
            (a != "NEVER" && a != "IMMEDIATE" && a != "AWAKE" ==> d == RefreshDecision(NoStep, false))
  {
  }

  /** The match ignores case: a lower-case "never" is the `NEVER` policy. */
  lemma RefreshIgnoresCase()
    ensures RefreshPolicy("never", None) == RefreshDecision(RaiseReloadAlert, true)
  {
    assert CText.ToUpper("never") == "NEVER";
  }
}
