/** The configuration: its keys, the value each key takes, and the two validators. */
module ConfigModel {
  import opened Bytes
  import opened Digits
  import opened ConfigNumbers
  import opened ConfigPaths

  // -- keys and values

  datatype Key =
    | MaxClients | BufferSize | ListenHost | ListenPort | TargetIp | TargetPort | ListenBacklog | AcceptBatchMax
    | SessionIdleTimeoutMs | MaxSessionsPerClientIp | MaxNewSessionsPerWindow | RateWindowMs | PrefaceTimeoutMs
    | HandshakeGateEnabled | PayloadEccEnabled | IpAuditEnabled | IpAuditPath | AuditMacEnabled | AuditMacKeyPath
    | RequireReadiness | SafetyFlags | EvidenceId | AttestationFingerprint | ObservationDigest | EvidenceMode
    | PhysMemDomain0 | PhysMemDomain1 | PhysMemDomain2 | HwTmrDomain0 | HwTmrDomain1 | HwTmrDomain2 | VoterDomain
    | EccEnabled | EccControllerCount | EccDimmCount | EccScrubRate | EccControllerCorrected
    | EccControllerUncorrected | EccDimmCorrected | EccDimmUncorrected
    | NumaEnabled | NumaMemTotalKib | NumaLocalDistance | NumaRemoteDistance | FaultInjectionMode
    | EvidenceMacEnabled | EvidenceMacKeyPath

  datatype Value = Num(n: nat) | Str(s: string)

  /** Every key owns one field. */
  type Config = map<Key, Value>

  function N(c: Config, k: Key): nat {
    if k in c && c[k].Num? then c[k].n else 0
  }

  function T(c: Config, k: Key): string {
    if k in c && c[k].Str? then c[k].s else ""
  }

  predicate IsText(k: Key) {
    k.ListenHost? || k.TargetIp? || k.IpAuditPath? || k.AuditMacKeyPath? || k.EvidenceMacKeyPath?
  }

  function DefaultOf(k: Key): Value {
    if IsText(k) then Str("")
    else if k.SessionIdleTimeoutMs? then Num(30000)
    else if k.RateWindowMs? then Num(1000)
    else if k.FaultInjectionMode? then Num(FAULT_MODE_MAX)
    else Num(0)
  }

  function Defaults(): Config {
    map k: Key :: DefaultOf(k)
  }

  // -- limits

  const MAX_CLIENTS: nat := 256
  const LISTEN_BACKLOG: nat := 256
  const ACCEPT_BATCH: nat := 32
  const IDLE_MIN: nat := 2000
  const IDLE_MAX: nat := 600000
  const RATE_LIMIT_MAX: nat := 100000
  const RATE_WINDOW_MIN: nat := 100
  const RATE_WINDOW_MAX: nat := 600000
  const PREFACE_MIN: nat := 100
  const PREFACE_MAX: nat := 600000
  const FAULT_MODE_MAX: nat := 3
  const EVIDENCE_REAL: nat := 0
  const EVIDENCE_SYNTHETIC: nat := 1
  const EVIDENCE_HYBRID: nat := 2
  const FLAGS_REQUIRED: nat := 15
  const CONTROLLERS_MAX: nat := 256
  const DIMMS_MAX: nat := 1024
  const SCRUB_RATE_MAX: nat := (U64 - 1) / 1024
  const MEMTOTAL_MAX: nat := (U64 - 1) / 3
  const DISTANCE_MAX: nat := 1000000
  const HOST_TEXT: nat := 256

  /** Code the model does not look into: host names, and the attestation checksum. */
  datatype Oracles = Oracles(host: string -> Option<Status>, seal: seq<int> -> nat)

  // -- values

  /** How a number field is read: on 32 or on 64 bits, and between which bounds. */
  datatype Reading = U32Field(min: nat, max: nat) | U64Field(min: nat, max: nat)

  function NumberOf(k: Key): (r: Reading)
    ensures r.U32Field? ==> r.max < U32
  {
    match k
    case MaxClients => U32Field(1, MAX_CLIENTS)
    case BufferSize => U32Field(1, BUFFER_SIZE)
    case ListenBacklog => U32Field(1, LISTEN_BACKLOG)
    case AcceptBatchMax => U32Field(1, ACCEPT_BATCH)
    case ListenPort | TargetPort => U32Field(1, 65535)
    case SessionIdleTimeoutMs => U32Field(IDLE_MIN, IDLE_MAX)
    case MaxSessionsPerClientIp => U32Field(0, MAX_CLIENTS)
    case MaxNewSessionsPerWindow => U32Field(0, RATE_LIMIT_MAX)
    case RateWindowMs => U32Field(RATE_WINDOW_MIN, RATE_WINDOW_MAX)
    case PrefaceTimeoutMs => U32Field(0, PREFACE_MAX)
    case HandshakeGateEnabled | PayloadEccEnabled | IpAuditEnabled | AuditMacEnabled | RequireReadiness
       | EccEnabled | NumaEnabled | EvidenceMacEnabled => U32Field(0, 1)
    case SafetyFlags => U32Field(0, FLAGS_REQUIRED)
    case EvidenceMode => U32Field(EVIDENCE_REAL, EVIDENCE_HYBRID)
    case FaultInjectionMode => U32Field(0, FAULT_MODE_MAX)
    case EccControllerCount => U32Field(0, CONTROLLERS_MAX)
    case EccDimmCount => U32Field(0, DIMMS_MAX)
    case EccScrubRate => U64Field(0, SCRUB_RATE_MAX)
    case NumaMemTotalKib => U64Field(0, MEMTOTAL_MAX)
    case NumaLocalDistance | NumaRemoteDistance => U64Field(0, DISTANCE_MAX)
    case EvidenceId | EccControllerCorrected | EccControllerUncorrected | EccDimmCorrected | EccDimmUncorrected =>
      U64Field(0, U64 - 1)
    case _ => U32Field(0, U32 - 1)
  }

  function ReadNumber(k: Key, s: string): Result<nat> {
    match NumberOf(k)
    case U32Field(min, max) => ParseU32(s, min, max)
    case U64Field(min, max) => ParseU64In(s, min, max)
  }

  /** The two fields that also take a word. */
  function Word(k: Key, s: string): Option<nat> {
    if k.EvidenceMode? then
      if s == "real" then Some(EVIDENCE_REAL)
      else if s == "synthetic" then Some(EVIDENCE_SYNTHETIC)
      else if s == "hybrid" then Some(EVIDENCE_HYBRID)
      else None
    else if k.FaultInjectionMode? then
      if s == "off" then Some(0)
      else if s == "single" then Some(1)
      else if s == "double" then Some(2)
      else if s == "full" then Some(3)
      else None
    else None
  }

  function ReadPath(s: string, pxf: bool): Result<Value> {
    if |s| >= PATH_TEXT then Err(Text)
    else if SafePath(s) && (pxf ==> HasPxfExtension(s)) then Ok(Str(s))
    else Err(Syntax)
  }

  function ReadHost(o: Oracles, s: string): Result<Value> {
    if |s| >= HOST_TEXT then Err(Text)
    else if s == "" then Err(Syntax)
    else if o.host(s).Some? then Err(o.host(s).value)
    else Ok(Str(s))
  }

  function ReadValue(o: Oracles, k: Key, s: string): Result<Value> {
    match k
    case ListenHost | TargetIp => ReadHost(o, s)
    case IpAuditPath => ReadPath(s, true)
    case AuditMacKeyPath | EvidenceMacKeyPath => ReadPath(s, false)
    case EvidenceMode | FaultInjectionMode =>
      if Word(k, s).Some? then Ok(Num(Word(k, s).value))
      else if ReadNumber(k, s).Ok? then Ok(Num(ReadNumber(k, s).value))
      else Err(Syntax)
    case PrefaceTimeoutMs =>
      var n :- ReadNumber(k, s);
      if n != 0 && n < PREFACE_MIN then Err(Range) else Ok(Num(n))
    case _ =>
      var n :- ReadNumber(k, s);
      Ok(Num(n))
  }

  // -- policy bits and domains

  predicate EccMemory(flags: nat) {
    flags % 2 == 1
  }

  predicate EccClean(flags: nat) {
    (flags / 2) % 2 == 1
  }

  predicate PhysSep(flags: nat) {
    (flags / 4) % 2 == 1
  }

  predicate HwTmr(flags: nat) {
    (flags / 8) % 2 == 1
  }

  predicate AllRequired(flags: nat) {
    EccMemory(flags) && EccClean(flags) && PhysSep(flags) && HwTmr(flags)
  }

  predicate OnlyRequired(flags: nat) {
    flags / 16 == 0
  }

  datatype Domains = Domains(a: nat, b: nat, c: nat)

  function PhysDomains(c: Config): Domains {
    Domains(N(c, PhysMemDomain0), N(c, PhysMemDomain1), N(c, PhysMemDomain2))
  }

  function TmrDomains(c: Config): Domains {
    Domains(N(c, HwTmrDomain0), N(c, HwTmrDomain1), N(c, HwTmrDomain2))
  }

  // The file reader and the platform code each have their own tests of domain identifiers.

  predicate ReaderAllZero(d: Domains) {
    d.a == 0 && d.b == 0 && d.c == 0
  }

  predicate ReaderDistinct(d: Domains) {
    d.a != 0 && d.b != 0 && d.c != 0 && d.a != d.b && d.a != d.c && d.b != d.c
  }

  predicate ReaderAvoids(d: Domains, id: nat) {
    id != 0 && !(d.a == 0 || d.a == id) && !(d.b == 0 || d.b == id) && !(d.c == 0 || d.c == id)
  }

  predicate ReaderDisjoint(d: Domains, e: Domains) {
    ReaderAvoids(d, e.a) && ReaderAvoids(d, e.b) && ReaderAvoids(d, e.c)
  }

  function Ids(d: Domains): (ids: seq<nat>)
    ensures |ids| == 3
  {
    [d.a, d.b, d.c]
  }

  predicate AllZero(d: Domains) {
    forall i :: 0 <= i < 3 ==> Ids(d)[i] == 0
  }

  predicate DistinctDomains(d: Domains) {
    (forall i :: 0 <= i < 3 ==> Ids(d)[i] != 0) && forall i, j :: 0 <= i < j < 3 ==> Ids(d)[i] != Ids(d)[j]
  }

  predicate Avoids(d: Domains, id: nat) {
    id != 0 && forall i :: 0 <= i < 3 ==> Ids(d)[i] != 0 && Ids(d)[i] != id
  }

  predicate DisjointDomains(d: Domains, e: Domains) {
    forall i, j :: 0 <= i < 3 && 0 <= j < 3 ==> Ids(d)[i] != 0 && Ids(e)[j] != 0 && Ids(d)[i] != Ids(e)[j]
  }

  /** The two sets of tests decide alike. */
  lemma DomainTestsAgree(d: Domains, e: Domains, id: nat)
    ensures ReaderAllZero(d) <==> AllZero(d)
    ensures ReaderDistinct(d) <==> DistinctDomains(d)
    ensures ReaderAvoids(d, id) <==> Avoids(d, id)
    ensures ReaderDisjoint(d, e) <==> DisjointDomains(d, e)
  {
    var ids, others := Ids(d), Ids(e);
    assert ids[0] == d.a && ids[1] == d.b && ids[2] == d.c;
    assert others[0] == e.a && others[1] == e.b && others[2] == e.c;
  }

  // -- the attestation fingerprint

  predicate AttestationInputsInvalid(c: Config) {
    var flags, voter := N(c, SafetyFlags), N(c, VoterDomain);
    || !OnlyRequired(flags)
    || ((PhysSep(flags) || HwTmr(flags)) && N(c, EvidenceId) == 0)
    || (!PhysSep(flags) && !AllZero(PhysDomains(c)))
    || (!HwTmr(flags) && (!AllZero(TmrDomains(c)) || voter != 0))
    || (PhysSep(flags) && !DistinctDomains(PhysDomains(c)))
    || (HwTmr(flags) && (!DistinctDomains(TmrDomains(c)) || !Avoids(TmrDomains(c), voter)))
    || (PhysSep(flags) && HwTmr(flags)
        && (!DisjointDomains(PhysDomains(c), TmrDomains(c)) || !Avoids(PhysDomains(c), voter)))
  }

  function Bytes32(n: nat): seq<int> {
    [n % 256, (n / 256) % 256, (n / 65536) % 256, (n / 16777216) % 256]
  }

  function Attested(on: bool, n: nat): seq<int> {
    Bytes32(if on then n else 0)
  }

  /** None when the inputs are inconsistent; zero when nothing is attested. */
  function Fingerprint(o: Oracles, c: Config): Option<nat> {
    var flags := N(c, SafetyFlags);
    var phys, tmr := PhysSep(flags), HwTmr(flags);
    var p, t := PhysDomains(c), TmrDomains(c);
    if AttestationInputsInvalid(c) then None
    else if !phys && !tmr then Some(0)
    else
      Some(o.seal(Bytes32(0x5AFE4EED) + Bytes32(55) + Bytes32((if phys then 4 else 0) + (if tmr then 8 else 0))
                  + Bytes32(N(c, EvidenceId) % U32) + Bytes32(N(c, EvidenceId) / U32) + Bytes32(3)
                  + Attested(phys, p.a) + Attested(tmr, t.a) + Attested(phys, p.b) + Attested(tmr, t.b)
                  + Attested(phys, p.c) + Attested(tmr, t.c) + Attested(tmr, N(c, VoterDomain))))
  }

  // -- the file reader's validator

  predicate ListenerLimits(c: Config) {
    && 0 < N(c, MaxClients) <= MAX_CLIENTS && 0 < N(c, BufferSize) <= BUFFER_SIZE
    && N(c, ListenPort) != 0 && N(c, TargetPort) != 0 && 0 < N(c, ListenBacklog) <= LISTEN_BACKLOG
    && 0 < N(c, AcceptBatchMax) <= ACCEPT_BATCH && N(c, AcceptBatchMax) <= N(c, MaxClients)
    && N(c, AcceptBatchMax) <= N(c, ListenBacklog)
  }

  predicate PrefaceInRange(n: nat) {
    n == 0 || PREFACE_MIN <= n <= PREFACE_MAX
  }

  predicate SessionLimits(c: Config) {
    && IDLE_MIN <= N(c, SessionIdleTimeoutMs) <= IDLE_MAX
    && N(c, MaxSessionsPerClientIp) <= N(c, MaxClients) && N(c, MaxNewSessionsPerWindow) <= RATE_LIMIT_MAX
    && RATE_WINDOW_MIN <= N(c, RateWindowMs) <= RATE_WINDOW_MAX && PrefaceInRange(N(c, PrefaceTimeoutMs))
  }

  predicate FeatureModes(c: Config) {
    && N(c, HandshakeGateEnabled) <= 1 && (N(c, HandshakeGateEnabled) != 0 ==> N(c, PrefaceTimeoutMs) != 0)
    && N(c, PayloadEccEnabled) <= 1 && N(c, RequireReadiness) <= 1 && N(c, IpAuditEnabled) <= 1
    && N(c, AuditMacEnabled) <= 1 && N(c, EvidenceMode) <= EVIDENCE_HYBRID && N(c, EvidenceMacEnabled) <= 1
    && N(c, EccEnabled) <= 1 && N(c, NumaEnabled) <= 1 && N(c, FaultInjectionMode) <= FAULT_MODE_MAX
  }

  predicate SoftwareModeMix(c: Config) {
    && (N(c, EvidenceMode) == EVIDENCE_REAL ==> N(c, EccEnabled) == 0 && N(c, NumaEnabled) == 0)
    && (N(c, RequireReadiness) != 0 && N(c, EccEnabled) != 0 ==> N(c, PayloadEccEnabled) != 0)
  }

  /** Written as the reader writes it: what it refuses. */
  predicate SoftwareEcc(c: Config) {
    if N(c, EccEnabled) == 0 then
      && N(c, EccControllerCount) == 0 && N(c, EccDimmCount) == 0 && N(c, EccScrubRate) == 0
      && N(c, EccControllerCorrected) == 0 && N(c, EccControllerUncorrected) == 0 && N(c, EccDimmCorrected) == 0
      && N(c, EccDimmUncorrected) == 0
    else
      !(|| N(c, EccControllerCount) == 0 || N(c, EccControllerCount) > CONTROLLERS_MAX
        || N(c, EccDimmCount) == 0 || N(c, EccDimmCount) > DIMMS_MAX
        || N(c, EccControllerCount) > N(c, EccDimmCount)
        || N(c, EccScrubRate) == 0 || N(c, EccScrubRate) > SCRUB_RATE_MAX)
  }

  predicate SoftwareNuma(c: Config) {
    var near, far := N(c, NumaLocalDistance), N(c, NumaRemoteDistance);
    if N(c, NumaEnabled) == 0 then N(c, NumaMemTotalKib) == 0 && near == 0 && far == 0
    else
      !(|| N(c, NumaMemTotalKib) == 0 || N(c, NumaMemTotalKib) > MEMTOTAL_MAX || (near == 0) != (far == 0)
        || near > DISTANCE_MAX || far > DISTANCE_MAX || (near != 0 && far <= near) || !PhysSep(N(c, SafetyFlags)))
  }

  predicate RequiredPaths(c: Config) {
    && (N(c, IpAuditEnabled) != 0 ==> T(c, IpAuditPath) != "")
    && (N(c, AuditMacEnabled) != 0 ==> N(c, IpAuditEnabled) != 0 && T(c, AuditMacKeyPath) != "")
    && (N(c, EvidenceMacEnabled) != 0 ==> T(c, EvidenceMacKeyPath) != "")
  }

  predicate PlatformPolicy(c: Config) {
    var flags, synthetic := N(c, SafetyFlags), N(c, EvidenceMode) == EVIDENCE_SYNTHETIC;
    && OnlyRequired(flags)
    && !(synthetic && (EccMemory(flags) || EccClean(flags)) && N(c, EccEnabled) == 0)
    && !(synthetic && PhysSep(flags) && N(c, NumaEnabled) == 0)
  }

  predicate PlatformDomains(c: Config) {
    var flags, voter := N(c, SafetyFlags), N(c, VoterDomain);
    && (!PhysSep(flags) ==> ReaderAllZero(PhysDomains(c)))
    && (!HwTmr(flags) ==> ReaderAllZero(TmrDomains(c)) && voter == 0)
    && (PhysSep(flags) ==> ReaderDistinct(PhysDomains(c)))
    && (HwTmr(flags) ==> ReaderDistinct(TmrDomains(c)) && ReaderAvoids(TmrDomains(c), voter))
  }

  predicate ExternalDomainMix(c: Config) {
    var flags := N(c, SafetyFlags);
    PhysSep(flags) && HwTmr(flags) ==>
      ReaderDisjoint(PhysDomains(c), TmrDomains(c)) && ReaderAvoids(PhysDomains(c), N(c, VoterDomain))
  }

  predicate ReadinessContract(c: Config, enforce: bool) {
    N(c, RequireReadiness) != 0 ==>
      && N(c, EvidenceId) != 0 && (enforce ==> N(c, AttestationFingerprint) != 0)
      && AllRequired(N(c, SafetyFlags))
  }

  predicate FingerprintHolds(o: Oracles, c: Config, enforce: bool) {
    var given := N(c, AttestationFingerprint);
    || (N(c, SafetyFlags) == 0 && N(c, EvidenceId) == 0 && given == 0 && N(c, ObservationDigest) == 0)
    || (Fingerprint(o, c).Some? && (enforce && given != 0 ==> given == Fingerprint(o, c).value))
  }

  predicate NoSelfLoop(c: Config) {
    !(N(c, ListenPort) == N(c, TargetPort) && T(c, ListenHost) == T(c, TargetIp))
  }

  /** None when the file's configuration stands. */
  function ValidateFile(o: Oracles, c: Config, enforce: bool): Option<Status> {
    if !ListenerLimits(c) || !SessionLimits(c) || !FeatureModes(c) || !SoftwareModeMix(c) || !SoftwareEcc(c)
       || !SoftwareNuma(c) then Some(Range)
    else if !RequiredPaths(c) then Some(Required)
    else if !PlatformPolicy(c) || !PlatformDomains(c) || !ExternalDomainMix(c) || !ReadinessContract(c, enforce)
            || !FingerprintHolds(o, c, enforce) || !NoSelfLoop(c) then Some(Range)
    else None
  }

  // -- the runtime's validator

  predicate CoreLimits(c: Config) {
    && N(c, MaxClients) != 0 && N(c, MaxClients) <= MAX_CLIENTS
    && N(c, BufferSize) != 0 && N(c, BufferSize) <= BUFFER_SIZE
    && N(c, AcceptBatchMax) != 0 && N(c, AcceptBatchMax) <= ACCEPT_BATCH && N(c, AcceptBatchMax) <= N(c, MaxClients)
    && N(c, ListenBacklog) != 0 && N(c, ListenBacklog) <= LISTEN_BACKLOG
    && N(c, ListenBacklog) >= N(c, AcceptBatchMax)
    && (N(c, SessionIdleTimeoutMs) == 0 || IDLE_MIN <= N(c, SessionIdleTimeoutMs) <= IDLE_MAX)
    && N(c, MaxSessionsPerClientIp) <= N(c, MaxClients) && N(c, MaxNewSessionsPerWindow) <= RATE_LIMIT_MAX
    && RATE_WINDOW_MIN <= N(c, RateWindowMs) <= RATE_WINDOW_MAX && PrefaceInRange(N(c, PrefaceTimeoutMs))
    && N(c, HandshakeGateEnabled) <= 1 && (N(c, HandshakeGateEnabled) == 0 || N(c, PrefaceTimeoutMs) != 0)
    && N(c, ListenPort) != 0 && N(c, TargetPort) != 0
  }

  /** A path fits its buffer and is safe, or empty where that is allowed. */
  predicate KeyPathOk(s: string, allowEmpty: bool) {
    |s| < PATH_TEXT && (if s == "" then allowEmpty else SafePath(s))
  }

  predicate PathsValid(c: Config) {
    && N(c, PayloadEccEnabled) <= 1 && N(c, IpAuditEnabled) <= 1
    && (N(c, IpAuditEnabled) == 0 || (|T(c, IpAuditPath)| < PATH_TEXT && HasPxfExtension(T(c, IpAuditPath))))
    && N(c, AuditMacEnabled) <= 1
    && (N(c, AuditMacEnabled) == 0 || (N(c, IpAuditEnabled) != 0 && KeyPathOk(T(c, AuditMacKeyPath), false)))
    && (N(c, AuditMacEnabled) != 0 || KeyPathOk(T(c, AuditMacKeyPath), true))
    && N(c, EvidenceMacEnabled) <= 1
    && (N(c, EvidenceMacEnabled) == 0 || KeyPathOk(T(c, EvidenceMacKeyPath), false))
    && (N(c, EvidenceMacEnabled) != 0 || KeyPathOk(T(c, EvidenceMacKeyPath), true))
  }

  predicate PlatformBasics(c: Config) {
    && N(c, RequireReadiness) <= 1 && N(c, EvidenceMode) <= EVIDENCE_HYBRID && N(c, EccEnabled) <= 1
    && N(c, NumaEnabled) <= 1 && N(c, FaultInjectionMode) <= FAULT_MODE_MAX && OnlyRequired(N(c, SafetyFlags))
    && |T(c, ListenHost)| < HOST_TEXT && |T(c, TargetIp)| < HOST_TEXT
  }

  predicate RuntimeEcc(c: Config) {
    if N(c, EccEnabled) == 0 then
      && N(c, EccControllerCount) == 0 && N(c, EccDimmCount) == 0 && N(c, EccScrubRate) == 0
      && N(c, EccControllerCorrected) == 0 && N(c, EccControllerUncorrected) == 0 && N(c, EccDimmCorrected) == 0
      && N(c, EccDimmUncorrected) == 0
    else
      && N(c, EccControllerCount) != 0 && N(c, EccControllerCount) <= CONTROLLERS_MAX
      && N(c, EccDimmCount) != 0 && N(c, EccDimmCount) <= DIMMS_MAX
      && N(c, EccControllerCount) <= N(c, EccDimmCount)
      && N(c, EccScrubRate) != 0 && N(c, EccScrubRate) <= SCRUB_RATE_MAX
  }

  predicate RuntimeNuma(c: Config) {
    if N(c, NumaEnabled) == 0 then
      N(c, NumaMemTotalKib) == 0 && N(c, NumaLocalDistance) == 0 && N(c, NumaRemoteDistance) == 0
    else
      && N(c, NumaMemTotalKib) != 0 && N(c, NumaMemTotalKib) <= MEMTOTAL_MAX
      && ((N(c, NumaLocalDistance) == 0) == (N(c, NumaRemoteDistance) == 0))
      && N(c, NumaLocalDistance) <= DISTANCE_MAX && N(c, NumaRemoteDistance) <= DISTANCE_MAX
      && (N(c, NumaLocalDistance) == 0 || N(c, NumaRemoteDistance) > N(c, NumaLocalDistance))
      && PhysSep(N(c, SafetyFlags))
  }

  predicate RuntimePolicy(c: Config) {
    var flags, synthetic := N(c, SafetyFlags), N(c, EvidenceMode) == EVIDENCE_SYNTHETIC;
    && (N(c, EvidenceMode) != EVIDENCE_REAL || (N(c, EccEnabled) == 0 && N(c, NumaEnabled) == 0))
    && (N(c, RequireReadiness) == 0 || N(c, EccEnabled) == 0 || N(c, PayloadEccEnabled) != 0)
    && (!synthetic || !(EccMemory(flags) || EccClean(flags)) || N(c, EccEnabled) != 0)
    && (!synthetic || !PhysSep(flags) || N(c, NumaEnabled) != 0)
    && (N(c, RequireReadiness) == 0
        || (N(c, EvidenceId) != 0 && N(c, AttestationFingerprint) != 0 && AllRequired(flags)))
  }

  predicate DomainBindings(c: Config) {
    var flags := N(c, SafetyFlags);
    && (PhysSep(flags) || AllZero(PhysDomains(c))) && (HwTmr(flags) || AllZero(TmrDomains(c)))
    && (!PhysSep(flags) || DistinctDomains(PhysDomains(c))) && (!HwTmr(flags) || DistinctDomains(TmrDomains(c)))
    && (!(PhysSep(flags) && HwTmr(flags)) || DisjointDomains(PhysDomains(c), TmrDomains(c)))
  }

  predicate AttestationValid(o: Oracles, c: Config) {
    var given := N(c, AttestationFingerprint);
    || (N(c, SafetyFlags) == 0 && N(c, EvidenceId) == 0 && given == 0)
    || (Fingerprint(o, c).Some?
        && if given == 0 then N(c, RequireReadiness) == 0 else given == Fingerprint(o, c).value)
  }

  predicate RuntimeValid(o: Oracles, c: Config) {
    && CoreLimits(c) && PathsValid(c) && PlatformBasics(c) && RuntimeEcc(c) && RuntimeNuma(c) && RuntimePolicy(c)
    && DomainBindings(c) && AttestationValid(o, c)
    && (N(c, ListenPort) != N(c, TargetPort) || T(c, ListenHost) != T(c, TargetIp))
  }

  // -- the two agree

  /** A field holds its default or something that its reader produced. */
  ghost predicate CameFrom(o: Oracles, k: Key, v: Value) {
    v == DefaultOf(k) || exists s :: ReadValue(o, k, s) == Ok(v)
  }

  ghost predicate FromText(o: Oracles, c: Config) {
    forall k: Key :: k in c && CameFrom(o, k, c[k])
  }

  lemma KeyPathField(o: Oracles, k: Key, v: Value)
    requires (k.AuditMacKeyPath? || k.EvidenceMacKeyPath?) && CameFrom(o, k, v)
    ensures v.Str? && KeyPathOk(v.s, true)
  {
    hide SafePath;
  }

  lemma AuditPathField(o: Oracles, v: Value)
    requires CameFrom(o, IpAuditPath, v)
    ensures v.Str? && (v.s == "" || (|v.s| < PATH_TEXT && HasPxfExtension(v.s)))
  {
    hide SafePath, HasPxfExtension;
  }

  lemma HostField(o: Oracles, k: Key, v: Value)
    requires (k.ListenHost? || k.TargetIp?) && CameFrom(o, k, v)
    ensures v.Str? && |v.s| < HOST_TEXT
  {
  }

  lemma PathFields(o: Oracles, c: Config)
    requires FromText(o, c)
    ensures KeyPathOk(T(c, AuditMacKeyPath), true) && KeyPathOk(T(c, EvidenceMacKeyPath), true)
    ensures T(c, IpAuditPath) == "" || (|T(c, IpAuditPath)| < PATH_TEXT && HasPxfExtension(T(c, IpAuditPath)))
    ensures |T(c, ListenHost)| < HOST_TEXT && |T(c, TargetIp)| < HOST_TEXT
  {
    hide CameFrom, KeyPathOk, HasPxfExtension;
    KeyPathField(o, AuditMacKeyPath, c[AuditMacKeyPath]);
    KeyPathField(o, EvidenceMacKeyPath, c[EvidenceMacKeyPath]);
    AuditPathField(o, c[IpAuditPath]);
    HostField(o, ListenHost, c[ListenHost]);
    HostField(o, TargetIp, c[TargetIp]);
  }

  lemma FingerprintsAgree(o: Oracles, c: Config)
    requires FingerprintHolds(o, c, true) && ReadinessContract(c, true)
    ensures AttestationValid(o, c)
  {
  }

  lemma LimitsAgree(c: Config)
    requires ListenerLimits(c) && SessionLimits(c) && FeatureModes(c) && RequiredPaths(c)
    requires KeyPathOk(T(c, AuditMacKeyPath), true) && KeyPathOk(T(c, EvidenceMacKeyPath), true)
    requires T(c, IpAuditPath) == "" || (|T(c, IpAuditPath)| < PATH_TEXT && HasPxfExtension(T(c, IpAuditPath)))
    ensures CoreLimits(c) && PathsValid(c)
  {
    hide N, T, HasPxfExtension, SafePath;
  }

  lemma PolicyAgrees(c: Config)
    requires FeatureModes(c) && SoftwareModeMix(c) && PlatformPolicy(c) && PlatformDomains(c) && ExternalDomainMix(c)
    requires ReadinessContract(c, true) && |T(c, ListenHost)| < HOST_TEXT && |T(c, TargetIp)| < HOST_TEXT
    ensures PlatformBasics(c) && RuntimePolicy(c) && DomainBindings(c)
  {
    DomainTestsAgree(PhysDomains(c), TmrDomains(c), N(c, VoterDomain));
    DomainTestsAgree(TmrDomains(c), PhysDomains(c), N(c, VoterDomain));
    hide N, T, OnlyRequired, PhysSep, HwTmr, EccMemory, EccClean, AllZero, DistinctDomains, DisjointDomains, Avoids,
         ReaderAllZero, ReaderDistinct, ReaderAvoids, ReaderDisjoint;
  }

  /** The two texts of the software-evidence rules decide alike. */
  lemma EccAgrees(c: Config)
    ensures SoftwareEcc(c) <==> RuntimeEcc(c)
  {
    hide N;
  }

  lemma NumaAgrees(c: Config)
    ensures SoftwareNuma(c) <==> RuntimeNuma(c)
  {
    hide N;
  }

  /**
   Whatever the file reader accepts with its fingerprint check on, from fields that the
   value parsers produced, the separately written runtime validator accepts.
   */
  lemma ReaderImpliesRuntime(o: Oracles, c: Config)
    requires FromText(o, c) && ValidateFile(o, c, true).None?
    ensures RuntimeValid(o, c)
  {
    PathFields(o, c);
    FingerprintsAgree(o, c);
    LimitsAgree(c);
    PolicyAgrees(c);
    EccAgrees(c);
    NumaAgrees(c);
    hide FromText, CoreLimits, PathsValid, PlatformBasics, RuntimePolicy, DomainBindings, AttestationValid, N, T,
         SoftwareEcc, SoftwareNuma, RuntimeEcc, RuntimeNuma, ListenerLimits, SessionLimits, FeatureModes, RequiredPaths,
         PlatformPolicy, PlatformDomains, ExternalDomainMix, ReadinessContract, FingerprintHolds, SoftwareModeMix;
  }

  /** The smallest complete configuration: every required number is one. */
  function SmallestOf(k: Key): Value {
    if IsRequiredNumber(k) then Num(1)
    else if k.ListenHost? then Str("a")
    else if k.TargetIp? then Str("b")
    else DefaultOf(k)
  }

  function Smallest(): Config {
    map k: Key :: SmallestOf(k)
  }

  predicate IsRequiredNumber(k: Key) {
    k.MaxClients? || k.BufferSize? || k.ListenPort? || k.TargetPort? || k.ListenBacklog? || k.AcceptBatchMax?
  }

  lemma OneIsOne()
    ensures Digits.Value("1") == 1
  {
    assert "1"[..0] == "";
  }

  lemma OneIsRead(o: Oracles, k: Key)
    requires IsRequiredNumber(k)
    ensures ReadValue(o, k, "1") == Ok(Num(1))
  {
    hide DigitLoop, Digits.Value;
    OneIsOne();
    SmallValuesPass("1", NumberOf(k).max);
  }

  lemma SmallestFields(o: Oracles, k: Key)
    requires o.host("a").None? && o.host("b").None?
    ensures CameFrom(o, k, Smallest()[k])
  {
    assert Smallest()[k] == SmallestOf(k);
    hide Smallest;
    if IsRequiredNumber(k) {
      OneIsRead(o, k);
      hide ReadValue;
    } else if k.ListenHost? {
      assert ReadValue(o, k, "a") == Ok(Str("a"));
    } else if k.TargetIp? {
      assert ReadValue(o, k, "b") == Ok(Str("b"));
    } else {
      hide ReadValue;
    }
  }

  lemma IsOne(k: Key)
    requires IsRequiredNumber(k)
    ensures N(Smallest(), k) == 1
  {
  }

  lemma IsDefault(k: Key)
    requires !IsRequiredNumber(k) && !IsText(k)
    ensures N(Smallest(), k) == DefaultOf(k).n
  {
  }

  lemma SmallestLimits()
    ensures ListenerLimits(Smallest()) && SessionLimits(Smallest())
  {
    hide N, Smallest;
    IsOne(MaxClients);
    IsOne(BufferSize);
    IsOne(ListenPort);
    IsOne(TargetPort);
    IsOne(ListenBacklog);
    IsOne(AcceptBatchMax);
    IsDefault(SessionIdleTimeoutMs);
    IsDefault(MaxSessionsPerClientIp);
    IsDefault(MaxNewSessionsPerWindow);
    IsDefault(RateWindowMs);
    IsDefault(PrefaceTimeoutMs);
  }

  lemma SmallestModes()
    ensures FeatureModes(Smallest()) && SoftwareModeMix(Smallest())
  {
    hide N, Smallest;
    IsDefault(HandshakeGateEnabled);
    IsDefault(PayloadEccEnabled);
    IsDefault(RequireReadiness);
    IsDefault(IpAuditEnabled);
    IsDefault(AuditMacEnabled);
    IsDefault(EvidenceMode);
    IsDefault(EvidenceMacEnabled);
    IsDefault(EccEnabled);
    IsDefault(NumaEnabled);
    IsDefault(FaultInjectionMode);
  }

  lemma SmallestSoftware()
    ensures SoftwareEcc(Smallest()) && SoftwareNuma(Smallest())
  {
    hide N, Smallest;
    IsDefault(EccEnabled);
    IsDefault(EccControllerCount);
    IsDefault(EccDimmCount);
    IsDefault(EccScrubRate);
    IsDefault(EccControllerCorrected);
    IsDefault(EccControllerUncorrected);
    IsDefault(EccDimmCorrected);
    IsDefault(EccDimmUncorrected);
    IsDefault(NumaEnabled);
    IsDefault(NumaMemTotalKib);
    IsDefault(NumaLocalDistance);
    IsDefault(NumaRemoteDistance);
  }

  lemma SmallestPolicy(o: Oracles)
    ensures RequiredPaths(Smallest()) && PlatformPolicy(Smallest()) && ReadinessContract(Smallest(), true)
    ensures FingerprintHolds(o, Smallest(), true)
  {
    hide N, T, Smallest, Fingerprint;
    IsDefault(SafetyFlags);
    IsDefault(EvidenceId);
    IsDefault(AttestationFingerprint);
    IsDefault(ObservationDigest);
    IsDefault(RequireReadiness);
    IsDefault(EvidenceMode);
    IsDefault(IpAuditEnabled);
    IsDefault(AuditMacEnabled);
    IsDefault(EvidenceMacEnabled);
  }

  lemma SmallestDomains()
    ensures PlatformDomains(Smallest()) && ExternalDomainMix(Smallest())
  {
    hide N, Smallest, ReaderDistinct, ReaderAvoids, ReaderDisjoint;
    IsDefault(SafetyFlags);
    IsDefault(PhysMemDomain0);
    IsDefault(PhysMemDomain1);
    IsDefault(PhysMemDomain2);
    IsDefault(HwTmrDomain0);
    IsDefault(HwTmrDomain1);
    IsDefault(HwTmrDomain2);
    IsDefault(VoterDomain);
  }

  lemma SmallestHosts()
    ensures NoSelfLoop(Smallest())
  {
    assert T(Smallest(), ListenHost)[0] == 'a' && T(Smallest(), TargetIp)[0] == 'b';
    hide N, Smallest;
  }

  /** The reader's acceptance is not empty: the smallest configuration passes it. */
  lemma SmallestIsAccepted(o: Oracles)
    requires o.host("a").None? && o.host("b").None?
    ensures FromText(o, Smallest()) && ValidateFile(o, Smallest(), true).None?
  {
    forall k: Key ensures k in Smallest() && CameFrom(o, k, Smallest()[k]) {
      hide CameFrom;
      SmallestFields(o, k);
    }
    SmallestLimits();
    SmallestModes();
    SmallestSoftware();
    SmallestPolicy(o);
    SmallestDomains();
    SmallestHosts();
    hide CameFrom, Smallest, N, T, ListenerLimits, SessionLimits, FeatureModes, SoftwareModeMix, SoftwareEcc,
         SoftwareNuma, RequiredPaths, PlatformPolicy, PlatformDomains, ExternalDomainMix, ReadinessContract,
         FingerprintHolds, NoSelfLoop;
  }
}
