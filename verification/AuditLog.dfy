/** The audit log: what is recorded, how a record is written, and the writer itself. */
module AuditLog {
  import opened Bytes
  import opened Digits
  import opened Tokens

  // -- what is recorded

  const IP_TEXT: nat := 16
  const HOST_TEXT: nat := 256
  const REASON_TEXT: nat := 32
  const MAC_MESSAGE_BYTES: nat := 1024
  const MAC_COMMENT_BYTES: nat := 160
  const MAC_ROW_BYTES: nat := 128

  datatype Kind = Accept | Drop | BackendConnect | BackendFail | Close

  const KINDS: nat := 5

  function KindText(k: Kind): string {
    match k
    case Accept => "accept"
    case Drop => "drop"
    case BackendConnect => "backend_connect"
    case BackendFail => "backend_fail"
    case Close => "close"
  }

  function KindIndex(k: Kind): (i: nat)
    ensures i < KINDS
  {
    match k
    case Accept => 0
    case Drop => 1
    case BackendConnect => 2
    case BackendFail => 3
    case Close => 4
  }

  function KindFromText(s: string): (r: Option<Kind>)
    ensures r.Some? ==> KindText(r.value) == s
    ensures r.None? ==> forall k :: KindText(k) != s
  {
    if s == "accept" then Some(Accept)
    else if s == "drop" then Some(Drop)
    else if s == "backend_connect" then Some(BackendConnect)
    else if s == "backend_fail" then Some(BackendFail)
    else if s == "close" then Some(Close)
    else None
  }

  datatype Role = Client | Listen | Target | Backend

  function RoleText(r: Role): string {
    match r
    case Client => "client"
    case Listen => "listen"
    case Target => "target"
    case Backend => "backend"
  }

  function HostCap(r: Role): nat {
    if r.Client? || r.Backend? then IP_TEXT else HOST_TEXT
  }

  datatype Endpoint = Endpoint(host: string, port: nat)

  datatype Peers = Peers(client: Endpoint, listen: Endpoint, target: Endpoint, backend: Endpoint) {
    function At(r: Role): Endpoint {
      match r
      case Client => client
      case Listen => listen
      case Target => target
      case Backend => backend
    }
  }

  datatype Event = Event(kind: Kind, requestNo: nat, timeNs: nat, durationNs: nat, session: nat,
                         peers: Peers, reason: string)

  /** `patrols` are the eight 64-bit counters of a row, `settings` its five 32-bit ones. */
  datatype Evidence = Evidence(event: string, timeNs: nat, status: nat, failureMask: nat,
                               patrols: seq<nat>, settings: seq<nat>)

  /** The fields of an `+audit` row. */
  datatype AuditRow = AuditRow(seqNo: nat, requestNo: nat, kind: Kind, eventNo: nat, totalEvents: nat, timeNs: nat,
                               session: nat, reason: string, durationNs: nat, crc: nat)

  /** The fields of an `+evidence` row. */
  datatype EvidenceRow = EvidenceRow(seqNo: nat, evidence: Evidence, crc: nat)

  // -- checksums and keys

  /** HMAC under one key file: the key's fingerprint, and the hexadecimal tag of a message. */
  datatype Key = Key(fingerprint: nat, tag: string -> string)

  /** The checksum over a byte string, and the key if records are authenticated. */
  datatype Env = Env(crc: seq<int> -> nat, key: Option<Key>)

  predicate IsTag(s: string) {
    |s| == 64 && AllHex(s) && LowerAll(s) == s
  }

  ghost predicate EnvOk(env: Env) {
    && (forall s :: env.crc(s) < U32)
    && (env.key.Some? ==> 0 < env.key.value.fingerprint < U32 && forall m :: IsTag(env.key.value.tag(m)))
  }

  function LittleEndian(n: nat, k: nat): seq<int> {
    if k == 0 then [] else [n % 256] + LittleEndian(n / 256, k - 1)
  }

  function CText(s: string): seq<int> {
    seq(|s|, i requires 0 <= i < |s| => s[i] as int) + [0]
  }

  function PeerBytes(e: Endpoint): seq<int> {
    CText(e.host) + LittleEndian(e.port, 4)
  }

  function AuditCrc(env: Env, row: AuditRow, peers: Peers): nat {
    env.crc(LittleEndian(row.seqNo, 8) + LittleEndian(row.requestNo, 8) + LittleEndian(row.eventNo, 8)
            + LittleEndian(row.totalEvents, 8) + LittleEndian(KindIndex(row.kind), 4)
            + LittleEndian(row.timeNs, 8) + LittleEndian(row.durationNs, 8) + LittleEndian(row.session, 4)
            + PeerBytes(peers.client) + PeerBytes(peers.listen) + PeerBytes(peers.target) + PeerBytes(peers.backend)
            + CText(row.reason))
  }

  function Words(ns: seq<nat>, k: nat): seq<int> {
    if ns == [] then [] else LittleEndian(ns[0], k) + Words(ns[1..], k)
  }

  function EvidenceCrc(env: Env, n: nat, e: Evidence): nat {
    env.crc(LittleEndian(n, 8) + CText(e.event) + LittleEndian(e.timeNs, 8) + LittleEndian(e.status, 4)
            + LittleEndian(e.failureMask, 4) + Words(e.patrols, 8) + Words(e.settings, 4))
  }

  // -- rows

  function Decimals(ns: seq<nat>): (r: seq<string>)
    ensures |r| == |ns|
  {
    if ns == [] then [] else [Decimal(ns[0])] + Decimals(ns[1..])
  }

  function Hexes(ns: seq<nat>): (r: seq<string>)
    ensures |r| == |ns|
  {
    if ns == [] then [] else [Hex32(ns[0])] + Hexes(ns[1..])
  }

  function AuditFields(row: AuditRow): (f: seq<string>)
    ensures |f| == 10
  {
    [Decimal(row.seqNo), Decimal(row.requestNo), KindText(row.kind), Decimal(row.eventNo), Decimal(row.totalEvents),
     Decimal(row.timeNs), Decimal(row.session), row.reason, Decimal(row.durationNs), Hex32(row.crc)]
  }

  function EndpointFields(n: nat, r: Role, e: Endpoint): (f: seq<string>)
    ensures |f| == 4
  {
    [Decimal(n), RoleText(r), e.host, Decimal(e.port)]
  }

  function MacFields(n: nat, fingerprint: nat, tag: string): (f: seq<string>)
    ensures |f| == 3
  {
    [Decimal(n), Hex32(fingerprint), tag]
  }

  function EvidenceFields(row: EvidenceRow): (f: seq<string>)
    ensures |f| == 6 + |row.evidence.patrols| + |row.evidence.settings|
  {
    var e := row.evidence;
    [Decimal(row.seqNo), e.event, Decimal(e.timeNs), Hex32(e.status), Hex32(e.failureMask)]
    + Decimals(e.patrols) + Hexes(e.settings) + [Hex32(row.crc)]
  }

  function PeerFields(e: Endpoint): seq<string> {
    [e.host, Decimal(e.port)]
  }

  /** The authenticated text of a record. */
  function AuditMessage(row: AuditRow, peers: Peers): string {
    Join(["audit/v1"] + AuditFields(row) + PeerFields(peers.client) + PeerFields(peers.listen)
         + PeerFields(peers.target) + PeerFields(peers.backend), '|')
  }

  function EvidenceMessage(row: EvidenceRow): string {
    Join(["evidence/v1"] + EvidenceFields(row), '|')
  }

  function Row(head: string, fields: seq<string>): string {
    head + " " + Join(fields, ' ')
  }

  // -- the text of a record

  function Note(name: string, value: string): string {
    "#   " + name + ": " + value
  }

  function PeerNote(r: Role, e: Endpoint): string {
    "#     " + RoleText(r) + ": " + e.host + ":" + Decimal(e.port)
  }

  function Notes(names: seq<string>, values: seq<string>): (r: seq<string>)
    requires |names| == |values|
    ensures |r| == |names| && forall i :: 0 <= i < |r| ==> r[i] == Note(names[i], values[i])
  {
    seq(|names|, i requires 0 <= i < |names| => Note(names[i], values[i]))
  }

  function AuditNames(): (names: seq<string>)
    ensures |names| == 10
  {
    ["seq", "request_no", "event", "event_no", "total_events", "time_ns", "session", "reason", "duration_ns", "crc32"]
  }

  function AuditTitle(): string {
    "# ---- " + "llps audit event" + " ----"
  }

  function AuditNotes(row: AuditRow): seq<string> {
    [AuditTitle()] + Notes(AuditNames(), AuditFields(row))
  }

  function PeerNotes(p: Peers): seq<string> {
    ["#   endpoints:", PeerNote(Client, p.client), PeerNote(Listen, p.listen), PeerNote(Target, p.target),
     PeerNote(Backend, p.backend)]
  }

  function MacNotes(prefix: string, key: Key, message: string): seq<string> {
    [Note(prefix + "mac_key_fingerprint", Hex32(key.fingerprint)), Note(prefix + "hmac_sha256", key.tag(message))]
  }

  function EndpointRow(n: nat, r: Role, e: Endpoint): string {
    Row("+audit_endpoint", EndpointFields(n, r, e))
  }

  function EndpointRows(n: nat, p: Peers): seq<string> {
    [EndpointRow(n, Client, p.client), EndpointRow(n, Listen, p.listen), EndpointRow(n, Target, p.target),
     EndpointRow(n, Backend, p.backend)]
  }

  function MacRow(head: string, n: nat, key: Key, message: string): string {
    Row(head, MacFields(n, key.fingerprint, key.tag(message)))
  }

  function AuditMac(env: Env, row: AuditRow, peers: Peers): seq<string> {
    if env.key.None? then [] else [MacRow("+audit_mac", row.seqNo, env.key.value, AuditMessage(row, peers))]
  }

  function AuditLines(env: Env, row: AuditRow, peers: Peers): seq<string> {
    AuditNotes(row)
    + (if env.key.None? then [] else MacNotes("", env.key.value, AuditMessage(row, peers)))
    + PeerNotes(peers)
    + [Row("+audit", AuditFields(row))]
    + EndpointRows(row.seqNo, peers)
    + AuditMac(env, row, peers)
    + [""]
  }

  predicate EvidenceShape(e: Evidence) {
    |e.patrols| == 8 && |e.settings| == 5
  }

  // The longer names are written in pieces: a proof about a name's characters looks at each
  // literal by itself, and short literals keep that cheap.

  function Synthetic(what: string): string {
    "synthetic_" + what + "_patrol"
  }

  function Failures(name: string): string {
    name + "_failures"
  }

  function EvidenceHeadNames(): (names: seq<string>)
    ensures |names| == 5
  {
    ["evidence_seq", "event", "time_ns", "status", "failure_mask"]
  }

  function PatrolNames(): (names: seq<string>)
    ensures |names| == 8
  {
    var ecc, fault, numa := Synthetic("ecc_topology"), Synthetic("fault"), Synthetic("numa");
    ["monitor_passes", "software_" + "evidence_patrol", ecc, Failures(ecc), fault, Failures(fault), numa,
     Failures(numa)]
  }

  function SettingNames(): (names: seq<string>)
    ensures |names| == 6
  {
    ["require_readiness", "platform_" + "evidence_mode", "software_" + "ecc_enabled", "software_" + "numa_enabled",
     "software_" + "fault_" + "injection_mode", "crc32"]
  }

  function EvidenceNames(): (names: seq<string>)
    ensures |names| == 19
  {
    EvidenceHeadNames() + PatrolNames() + SettingNames()
  }

  /** The comment shows the settings in decimal, the row in hexadecimal. */
  function EvidenceValues(row: EvidenceRow): (f: seq<string>)
    ensures |f| == 6 + |row.evidence.patrols| + |row.evidence.settings|
  {
    var e := row.evidence;
    [Decimal(row.seqNo), e.event, Decimal(e.timeNs), Hex32(e.status), Hex32(e.failureMask)]
    + Decimals(e.patrols) + Decimals(e.settings) + [Hex32(row.crc)]
  }

  function EvidenceTitle(): string {
    "# ---- " + "llps readiness evidence" + " ----"
  }

  function EvidenceNotes(row: EvidenceRow): seq<string>
    requires EvidenceShape(row.evidence)
  {
    [EvidenceTitle()] + Notes(EvidenceNames(), EvidenceValues(row))
  }

  function EvidenceMac(env: Env, row: EvidenceRow): seq<string> {
    if env.key.None? then [] else [MacRow("+evidence_mac", row.seqNo, env.key.value, EvidenceMessage(row))]
  }

  function EvidenceLines(env: Env, row: EvidenceRow): seq<string>
    requires EvidenceShape(row.evidence)
  {
    EvidenceNotes(row)
    + (if env.key.None? then [] else MacNotes("evidence_", env.key.value, EvidenceMessage(row)))
    + [Row("+evidence", EvidenceFields(row))]
    + EvidenceMac(env, row)
    + [""]
  }

  // -- the header

  /** Columns of plain tokens. */
  function Toks(names: seq<string>): (r: seq<string>)
    ensures |r| == |names| && forall i :: 0 <= i < |r| ==> r[i] == names[i] + ":tok"
  {
    seq(|names|, i requires 0 <= i < |names| => names[i] + ":tok")
  }

  function Table(name: string, columns: seq<string>): string {
    Row("@table", [name] + columns)
  }

  function EvidenceColumns(): seq<string> {
    Toks(["seq"] + EvidenceNames()[1..])
  }

  function MacColumns(): seq<string> {
    Toks(["seq", "key_fingerprint", "hmac_sha256"])
  }

  function Tables(): seq<string> {
    [Table("audit", Toks(AuditNames())),
     Table("audit_endpoint", ["seq:tok", "role:tok", "host:host", "port:u16"]),
     Table("audit_mac", MacColumns()),
     Table("evidence", EvidenceColumns()),
     Table("evidence_mac", MacColumns())]
  }

  function HeaderLines(): seq<string> {
    ["pxf/1", "# LLPS IP audit"] + Tables()
  }

  function Header(): string {
    Unlines(HeaderLines())
  }

  // -- safe tokens

  predicate IsSafeChar(c: char, host: bool) {
    '0' <= c <= '9' || 'A' <= c <= 'Z' || 'a' <= c <= 'z' || c == '_' || c == '-' || (host && (c == '.' || c == ':'))
  }

  predicate Safe(s: string, cap: nat, host: bool) {
    0 < |s| < cap && forall i :: 0 <= i < |s| ==> IsSafeChar(s[i], host)
  }

  predicate SafeEvent(e: Event) {
    && Safe(e.peers.client.host, IP_TEXT, true) && Safe(e.peers.listen.host, HOST_TEXT, true)
    && Safe(e.peers.target.host, HOST_TEXT, true) && Safe(e.peers.backend.host, IP_TEXT, true)
    && Safe(e.reason, REASON_TEXT, false)
  }

  /** The widths that the C types give to an event's numbers. */
  predicate TypedEvent(e: Event) {
    && e.requestNo < U64 && e.timeNs < U64 && e.durationNs < U64 && e.session < U32
    && e.peers.client.port < U16 && e.peers.listen.port < U16 && e.peers.target.port < U16
    && e.peers.backend.port < U16
  }

  predicate TypedEvidence(e: Evidence) {
    && EvidenceShape(e) && e.timeNs < U64 && e.status < U32 && e.failureMask < U32
    && (forall i :: 0 <= i < |e.patrols| ==> e.patrols[i] < U64)
    && (forall i :: 0 <= i < |e.settings| ==> e.settings[i] < U32)
  }

  // -- the writer

  /** The endpoints that a running proxy fills in where a caller left a host empty. */
  datatype Runtime = Runtime(listen: Endpoint, target: Endpoint, backend: Endpoint)

  /** Each host fits the buffer that the log keeps it in. */
  predicate HostsFit(rt: Runtime) {
    |rt.listen.host| < HOST_TEXT && |rt.target.host| < HOST_TEXT && |rt.backend.host| < IP_TEXT
  }

  predicate TypedRuntime(rt: Runtime) {
    rt.listen.port < U16 && rt.target.port < U16 && rt.backend.port < U16 && HostsFit(rt)
  }

  datatype Writer = Writer(file: string, lastSeq: nat, evidenceSeq: nat, counts: seq<nat>, runtime: Runtime)

  function Defaults(rt: Runtime, e: Event): Event {
    var p := e.peers;
    var peers := Peers(if p.client.host == "" then Endpoint("0.0.0.0", p.client.port) else p.client,
                       if p.listen.host == "" then rt.listen else p.listen,
                       if p.target.host == "" then rt.target else p.target,
                       if p.backend.host == "" then rt.backend else p.backend);
    e.(peers := peers, reason := if e.reason == "" then "ok" else e.reason)
  }

  function EventRow(env: Env, e: Event, n: nat, eventNo: nat): AuditRow {
    var row := AuditRow(n, e.requestNo, e.kind, eventNo, n, e.timeNs, e.session, e.reason, e.durationNs, 0);
    row.(crc := AuditCrc(env, row, e.peers))
  }

  predicate AuditFits(env: Env, row: AuditRow, peers: Peers) {
    && (env.key.Some? ==>
          var m := AuditMessage(row, peers);
          && |m| < MAC_MESSAGE_BYTES && |Unlines(MacNotes("", env.key.value, m))| < MAC_COMMENT_BYTES
          && |Unlines(AuditMac(env, row, peers))| < MAC_ROW_BYTES)
    && |Unlines(AuditLines(env, row, peers))| < LINE_BYTES
  }

  predicate EvidenceFits(env: Env, row: EvidenceRow)
    requires EvidenceShape(row.evidence)
  {
    && (env.key.Some? ==>
          var m := EvidenceMessage(row);
          && |m| < MAC_MESSAGE_BYTES && |Unlines(MacNotes("evidence_", env.key.value, m))| < MAC_COMMENT_BYTES
          && |Unlines(EvidenceMac(env, row))| < MAC_ROW_BYTES)
    && |Unlines(EvidenceLines(env, row))| < LINE_BYTES
  }

  /** A write that puts nothing into the file, all of the text without a sync, or all of it for good. */
  datatype Disk = Refused | Unsynced | Synced

  /** The outside of one append: whether the key file still reads as the same key, and the write. */
  datatype Delivery = Delivery(keyReads: bool, disk: Disk)

  /** The record's text gets into the file. */
  predicate Lands(env: Env, d: Delivery) {
    (env.key.None? || d.keyReads) && !d.disk.Refused?
  }

  /**
   One `record` call.  The counters move before the key is read, the text formatted and the
   file written, so a record that fails at one of these leaves a gap in the numbering behind.
   */
  function Record(env: Env, w: Writer, event: Event, d: Delivery): (r: (Writer, bool))
    requires |w.counts| == KINDS
    ensures |r.0.counts| == KINDS
  {
    var e := Defaults(w.runtime, event);
    var k := KindIndex(e.kind);
    if !SafeEvent(e) || w.lastSeq == U64 - 1 then (w, false)
    else if w.counts[k] == U64 - 1 then (w.(lastSeq := w.lastSeq + 1), false)
    else
      var moved := w.(lastSeq := w.lastSeq + 1, counts := w.counts[k := w.counts[k] + 1]);
      var row := EventRow(env, e, moved.lastSeq, moved.counts[k]);
      if !AuditFits(env, row, e.peers) || !Lands(env, d) then (moved, false)
      else (moved.(file := w.file + Unlines(AuditLines(env, row, e.peers))), d.disk.Synced?)
  }

  function EvidenceDefaults(e: Evidence): Evidence {
    if e.event == "" then e.(event := "readiness_monitor") else e
  }

  function RecordEvidence(env: Env, w: Writer, evidence: Evidence, d: Delivery): (Writer, bool)
    requires EvidenceShape(evidence)
  {
    var e := EvidenceDefaults(evidence);
    if !Safe(e.event, REASON_TEXT, false) || w.evidenceSeq == U64 - 1 then (w, false)
    else
      var moved := w.(evidenceSeq := w.evidenceSeq + 1);
      var row := EvidenceRow(moved.evidenceSeq, e, EvidenceCrc(env, moved.evidenceSeq, e));
      if !EvidenceFits(env, row) || !Lands(env, d) then (moved, false)
      else (moved.(file := w.file + Unlines(EvidenceLines(env, row))), d.disk.Synced?)
  }
}
