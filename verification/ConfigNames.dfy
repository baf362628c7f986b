/**
 The names of the configuration's keys, written down a second time, against the table that
 the reader searches.  Long literals are costly to reason about, so proofs about them look at
 a few names at a time.
 */
module ConfigNames {
  import opened Bytes
  import opened ConfigModel
  import opened ConfigFile

  // -- names

  /** The name under which a key is documented. */
  function NameOf(k: Key): string {
    var i := PlaceOf(k);
    if i < 8 then BasicName(k) else if i < 16 then LimitName(k) else if i < 24 then AuditName(k)
    else if i < 32 then PlatformName(k) else if i < 40 then DomainName(k) else SoftwareName(k)
  }

  function BasicName(k: Key): string {
    match k
    case MaxClients => "max_clients"
    case BufferSize => "buffer_size"
    case ListenHost => "listen_host"
    case ListenPort => "listen_port"
    case TargetIp => "target_ip"
    case TargetPort => "target_port"
    case ListenBacklog => "listen_backlog"
    case _ => ""
  }

  function LimitName(k: Key): string {
    match k
    case AcceptBatchMax => "accept_batch_max"
    case SessionIdleTimeoutMs => "session_idle_timeout_ms"
    case MaxSessionsPerClientIp => "max_sessions_per_client_ip"
    case MaxNewSessionsPerWindow => "max_new_sessions_per_client_ip_per_window"
    case RateWindowMs => "client_ip_rate_window_ms"
    case PrefaceTimeoutMs => "client_preface_timeout_ms"
    case HandshakeGateEnabled => "protocol_handshake_gate_enabled"
    case PayloadEccEnabled => "payload_ecc_enabled"
    case _ => ""
  }

  function AuditName(k: Key): string {
    match k
    case IpAuditEnabled => "ip_audit_enabled"
    case IpAuditPath => "ip_audit_path"
    case AuditMacEnabled => "audit_mac_enabled"
    case AuditMacKeyPath => "audit_mac_key_path"
    case RequireReadiness => "require_readiness"
    case SafetyFlags => "platform_safety_flags"
    case EvidenceId => "platform_safety_evidence_id"
    case AttestationFingerprint => "platform_attestation_fingerprint"
    case _ => ""
  }

  function PlatformName(k: Key): string {
    match k
    case ObservationDigest => "platform_observation_digest"
    case EvidenceMode => "platform_evidence_mode"
    case PhysMemDomain0 => "phys_mem_domain0"
    case PhysMemDomain1 => "phys_mem_domain1"
    case PhysMemDomain2 => "phys_mem_domain2"
    case HwTmrDomain0 => "hw_tmr_domain0"
    case HwTmrDomain1 => "hw_tmr_domain1"
    case HwTmrDomain2 => "hw_tmr_domain2"
    case _ => ""
  }

  function DomainName(k: Key): string {
    match k
    case VoterDomain => "hw_tmr_voter_domain"
    case EccEnabled => "software_ecc_enabled"
    case EccControllerCount => "software_ecc_controller_count"
    case EccDimmCount => "software_ecc_dimm_count"
    case EccScrubRate => "software_ecc_scrub_rate"
    case EccControllerCorrected => "software_ecc_controller_" + "corrected_error_count"
    case EccControllerUncorrected => "software_ecc_controller_" + "uncorrected_error_count"
    case EccDimmCorrected => "software_ecc_dimm_" + "corrected_error_count"
    case _ => ""
  }

  function SoftwareName(k: Key): string {
    match k
    case EccDimmUncorrected => "software_ecc_dimm_" + "uncorrected_error_count"
    case NumaEnabled => "software_numa_enabled"
    case NumaMemTotalKib => "software_numa_memtotal_kib"
    case NumaLocalDistance => "software_numa_local_distance"
    case NumaRemoteDistance => "software_numa_remote_distance"
    case FaultInjectionMode => "software_fault_injection_mode"
    case EvidenceMacEnabled => "evidence_mac_enabled"
    case EvidenceMacKeyPath => "evidence_mac_key_path"
    case _ => ""
  }

  /** Where the name stands in the table. */
  function PlaceOf(k: Key): (i: nat)
    ensures i < KEY_NAMES
  {
    match k
    case MaxClients => 0 case BufferSize => 1 case ListenHost => 2 case ListenPort => 3 case TargetIp => 4
    case TargetPort => 6 case ListenBacklog => 7 case AcceptBatchMax => 8 case SessionIdleTimeoutMs => 9
    case MaxSessionsPerClientIp => 10 case MaxNewSessionsPerWindow => 11 case RateWindowMs => 12
    case PrefaceTimeoutMs => 13 case HandshakeGateEnabled => 14 case PayloadEccEnabled => 15
    case IpAuditEnabled => 16 case IpAuditPath => 17 case AuditMacEnabled => 18 case AuditMacKeyPath => 19
    case RequireReadiness => 20 case SafetyFlags => 21 case EvidenceId => 22 case AttestationFingerprint => 23
    case ObservationDigest => 24 case EvidenceMode => 25 case PhysMemDomain0 => 26 case PhysMemDomain1 => 27
    case PhysMemDomain2 => 28 case HwTmrDomain0 => 29 case HwTmrDomain1 => 30 case HwTmrDomain2 => 31
    case VoterDomain => 32 case EccEnabled => 33 case EccControllerCount => 34 case EccDimmCount => 35
    case EccScrubRate => 36 case EccControllerCorrected => 37 case EccControllerUncorrected => 38
    case EccDimmCorrected => 39 case EccDimmUncorrected => 40 case NumaEnabled => 41 case NumaMemTotalKib => 42
    case NumaLocalDistance => 43 case NumaRemoteDistance => 44 case FaultInjectionMode => 45
    case EvidenceMacEnabled => 46 case EvidenceMacKeyPath => 47
  }

  lemma BasicNameIsInBasicRow(k: Key)
    requires 0 <= PlaceOf(k) < 8
    ensures BasicRow(PlaceOf(k)).name == BasicName(k) && BasicRow(PlaceOf(k)).key == k
  {
    match k
    case MaxClients => assert BasicRow(0).name == BasicName(MaxClients);
    case BufferSize => assert BasicRow(1).name == BasicName(BufferSize);
    case ListenHost => assert BasicRow(2).name == BasicName(ListenHost);
    case ListenPort => assert BasicRow(3).name == BasicName(ListenPort);
    case TargetIp => assert BasicRow(4).name == BasicName(TargetIp);
    case TargetPort => assert BasicRow(6).name == BasicName(TargetPort);
    case ListenBacklog => assert BasicRow(7).name == BasicName(ListenBacklog);
    case _ =>
  }

  lemma LimitNameIsInLimitRow(k: Key)
    requires 8 <= PlaceOf(k) < 16
    ensures LimitRow(PlaceOf(k)).name == LimitName(k) && LimitRow(PlaceOf(k)).key == k
  {
    match k
    case AcceptBatchMax => assert LimitRow(8).name == LimitName(AcceptBatchMax);
    case SessionIdleTimeoutMs => assert LimitRow(9).name == LimitName(SessionIdleTimeoutMs);
    case MaxSessionsPerClientIp => assert LimitRow(10).name == LimitName(MaxSessionsPerClientIp);
    case MaxNewSessionsPerWindow => assert LimitRow(11).name == LimitName(MaxNewSessionsPerWindow);
    case RateWindowMs => assert LimitRow(12).name == LimitName(RateWindowMs);
    case PrefaceTimeoutMs => assert LimitRow(13).name == LimitName(PrefaceTimeoutMs);
    case HandshakeGateEnabled => assert LimitRow(14).name == LimitName(HandshakeGateEnabled);
    case PayloadEccEnabled => assert LimitRow(15).name == LimitName(PayloadEccEnabled);
    case _ =>
  }

  lemma AuditNameIsInAuditRow(k: Key)
    requires 16 <= PlaceOf(k) < 24
    ensures AuditRow(PlaceOf(k)).name == AuditName(k) && AuditRow(PlaceOf(k)).key == k
  {
    match k
    case IpAuditEnabled => assert AuditRow(16).name == AuditName(IpAuditEnabled);
    case IpAuditPath => assert AuditRow(17).name == AuditName(IpAuditPath);
    case AuditMacEnabled => assert AuditRow(18).name == AuditName(AuditMacEnabled);
    case AuditMacKeyPath => assert AuditRow(19).name == AuditName(AuditMacKeyPath);
    case RequireReadiness => assert AuditRow(20).name == AuditName(RequireReadiness);
    case SafetyFlags => assert AuditRow(21).name == AuditName(SafetyFlags);
    case EvidenceId => assert AuditRow(22).name == AuditName(EvidenceId);
    case AttestationFingerprint => assert AuditRow(23).name == AuditName(AttestationFingerprint);
    case _ =>
  }

  lemma PlatformNameIsInPlatformRow(k: Key)
    requires 24 <= PlaceOf(k) < 32
    ensures PlatformRow(PlaceOf(k)).name == PlatformName(k) && PlatformRow(PlaceOf(k)).key == k
  {
    match k
    case ObservationDigest => assert PlatformRow(24).name == PlatformName(ObservationDigest);
    case EvidenceMode => assert PlatformRow(25).name == PlatformName(EvidenceMode);
    case PhysMemDomain0 => assert PlatformRow(26).name == PlatformName(PhysMemDomain0);
    case PhysMemDomain1 => assert PlatformRow(27).name == PlatformName(PhysMemDomain1);
    case PhysMemDomain2 => assert PlatformRow(28).name == PlatformName(PhysMemDomain2);
    case HwTmrDomain0 => assert PlatformRow(29).name == PlatformName(HwTmrDomain0);
    case HwTmrDomain1 => assert PlatformRow(30).name == PlatformName(HwTmrDomain1);
    case HwTmrDomain2 => assert PlatformRow(31).name == PlatformName(HwTmrDomain2);
    case _ =>
  }

  lemma DomainNameIsInDomainRow(k: Key)
    requires 32 <= PlaceOf(k) < 40
    ensures DomainRow(PlaceOf(k)).name == DomainName(k) && DomainRow(PlaceOf(k)).key == k
  {
    match k
    case VoterDomain => assert DomainRow(32).name == DomainName(VoterDomain);
    case EccEnabled => assert DomainRow(33).name == DomainName(EccEnabled);
    case EccControllerCount => assert DomainRow(34).name == DomainName(EccControllerCount);
    case EccDimmCount => assert DomainRow(35).name == DomainName(EccDimmCount);
    case EccScrubRate => assert DomainRow(36).name == DomainName(EccScrubRate);
    case EccControllerCorrected => assert DomainRow(37).name == DomainName(EccControllerCorrected);
    case EccControllerUncorrected => assert DomainRow(38).name == DomainName(EccControllerUncorrected);
    case EccDimmCorrected => assert DomainRow(39).name == DomainName(EccDimmCorrected);
    case _ =>
  }

  lemma SoftwareNameIsInSoftwareRow(k: Key)
    requires 40 <= PlaceOf(k) < 48
    ensures SoftwareRow(PlaceOf(k)).name == SoftwareName(k) && SoftwareRow(PlaceOf(k)).key == k
  {
    match k
    case EccDimmUncorrected => assert SoftwareRow(40).name == SoftwareName(EccDimmUncorrected);
    case NumaEnabled => assert SoftwareRow(41).name == SoftwareName(NumaEnabled);
    case NumaMemTotalKib => assert SoftwareRow(42).name == SoftwareName(NumaMemTotalKib);
    case NumaLocalDistance => assert SoftwareRow(43).name == SoftwareName(NumaLocalDistance);
    case NumaRemoteDistance => assert SoftwareRow(44).name == SoftwareName(NumaRemoteDistance);
    case FaultInjectionMode => assert SoftwareRow(45).name == SoftwareName(FaultInjectionMode);
    case EvidenceMacEnabled => assert SoftwareRow(46).name == SoftwareName(EvidenceMacEnabled);
    case EvidenceMacKeyPath => assert SoftwareRow(47).name == SoftwareName(EvidenceMacKeyPath);
    case _ =>
  }

  lemma NameIsInTable(k: Key)
    ensures RowAt(PlaceOf(k)) == KeyName(NameOf(k), k)
  {
    hide BasicRow, LimitRow, AuditRow, PlatformRow, DomainRow, SoftwareRow, PlaceOf,
         BasicName, LimitName, AuditName, PlatformName, DomainName, SoftwareName;
    var i := PlaceOf(k);
    if i < 8 {
      BasicNameIsInBasicRow(k);
    } else if i < 16 {
      LimitNameIsInLimitRow(k);
    } else if i < 24 {
      AuditNameIsInAuditRow(k);
    } else if i < 32 {
      PlatformNameIsInPlatformRow(k);
    } else if i < 40 {
      DomainNameIsInDomainRow(k);
    } else {
      SoftwareNameIsInSoftwareRow(k);
    }
  }

  /** What tells the names of the table apart: length, middle, and the last two characters. */
  datatype Shape = Shape(length: nat, middle: char, before: char, last: char)

  predicate HasShape(s: string, h: Shape) {
    |s| == h.length >= 2 && s[|s| / 2] == h.middle && s[|s| - 2] == h.before && s[|s| - 1] == h.last
  }

  function ShapeAt(i: nat): Shape
    requires i < KEY_NAMES
  {
    if i == 0 then Shape(11, 'l', 't', 's') else if i == 1 then Shape(11, 'r', 'z', 'e') else
    if i == 2 then Shape(11, 'n', 's', 't') else if i == 3 then Shape(11, 'n', 'r', 't') else
    if i == 4 then Shape(9, 'e', 'i', 'p') else if i == 5 then Shape(11, 't', 's', 't') else
    if i == 6 then Shape(11, 't', 'r', 't') else if i == 7 then Shape(14, 'b', 'o', 'g') else
    if i == 8 then Shape(16, 'a', 'a', 'x') else if i == 9 then Shape(23, 'e', 'm', 's') else
    if i == 10 then Shape(26, 'p', 'i', 'p') else if i == 11 then Shape(41, '_', 'o', 'w') else
    if i == 12 then Shape(24, 't', 'm', 's') else if i == 13 then Shape(25, 'c', 'm', 's') else
    if i == 14 then Shape(31, 'a', 'e', 'd') else if i == 15 then Shape(19, 'c', 'e', 'd') else
    if i == 16 then Shape(16, '_', 'e', 'd') else if i == 17 then Shape(13, 'i', 't', 'h') else
    if i == 18 then Shape(17, 'c', 'e', 'd') else if i == 19 then Shape(18, '_', 't', 'h') else
    if i == 20 then Shape(17, 'r', 's', 's') else if i == 21 then Shape(21, 'a', 'g', 's') else
    if i == 22 then Shape(27, 't', 'i', 'd') else if i == 23 then Shape(32, 't', 'n', 't') else
    if i == 24 then Shape(27, 'r', 's', 't') else if i == 25 then Shape(22, 'i', 'd', 'e') else
    if i == 26 then Shape(16, '_', 'n', '0') else if i == 27 then Shape(16, '_', 'n', '1') else
    if i == 28 then Shape(16, '_', 'n', '2') else if i == 29 then Shape(14, 'd', 'n', '0') else
    if i == 30 then Shape(14, 'd', 'n', '1') else if i == 31 then Shape(14, 'd', 'n', '2') else
    if i == 32 then Shape(19, 't', 'i', 'n') else if i == 33 then Shape(20, 'c', 'e', 'd') else
    if i == 34 then Shape(29, 'o', 'n', 't') else if i == 35 then Shape(23, 'c', 'n', 't') else
    if i == 36 then Shape(23, 'c', 't', 'e') else if i == 37 then Shape(45, 'r', 'n', 't') else
    if i == 38 then Shape(47, '_', 'n', 't') else if i == 39 then Shape(39, 'o', 'n', 't') else
    if i == 40 then Shape(41, 'c', 'n', 't') else if i == 41 then Shape(21, 'u', 'e', 'd') else
    if i == 42 then Shape(26, '_', 'i', 'b') else if i == 43 then Shape(28, 'l', 'c', 'e') else
    if i == 44 then Shape(29, 'r', 'c', 'e') else if i == 45 then Shape(29, '_', 'd', 'e') else
    if i == 46 then Shape(20, 'a', 'e', 'd') else Shape(21, 'a', 't', 'h')
  }

  lemma ShapesDiffer(i: nat, j: nat)
    requires i < KEY_NAMES && j < KEY_NAMES && ShapeAt(i) == ShapeAt(j)
    ensures i == j
  {
  }

  lemma Shapes0(i: nat)
    requires 0 <= i < 4
    ensures HasShape(RowAt(i).name, ShapeAt(i))
  {
    hide LimitRow, AuditRow, PlatformRow, DomainRow, SoftwareRow;
  }

  lemma Shapes4(i: nat)
    requires 4 <= i < 8
    ensures HasShape(RowAt(i).name, ShapeAt(i))
  {
    hide LimitRow, AuditRow, PlatformRow, DomainRow, SoftwareRow;
  }

  lemma Shapes8(i: nat)
    requires 8 <= i < 12
    ensures HasShape(RowAt(i).name, ShapeAt(i))
  {
    hide BasicRow, AuditRow, PlatformRow, DomainRow, SoftwareRow;
  }

  lemma Shapes12(i: nat)
    requires 12 <= i < 16
    ensures HasShape(RowAt(i).name, ShapeAt(i))
  {
    hide BasicRow, AuditRow, PlatformRow, DomainRow, SoftwareRow;
  }

  lemma Shapes16(i: nat)
    requires 16 <= i < 20
    ensures HasShape(RowAt(i).name, ShapeAt(i))
  {
    hide BasicRow, LimitRow, PlatformRow, DomainRow, SoftwareRow;
  }

  lemma Shapes20(i: nat)
    requires 20 <= i < 24
    ensures HasShape(RowAt(i).name, ShapeAt(i))
  {
    hide BasicRow, LimitRow, PlatformRow, DomainRow, SoftwareRow;
  }

  lemma Shapes24(i: nat)
    requires 24 <= i < 28
    ensures HasShape(RowAt(i).name, ShapeAt(i))
  {
    hide BasicRow, LimitRow, AuditRow, DomainRow, SoftwareRow;
  }

  lemma Shapes28(i: nat)
    requires 28 <= i < 32
    ensures HasShape(RowAt(i).name, ShapeAt(i))
  {
    hide BasicRow, LimitRow, AuditRow, DomainRow, SoftwareRow;
  }

  lemma Shapes32(i: nat)
    requires 32 <= i < 36
    ensures HasShape(RowAt(i).name, ShapeAt(i))
  {
    hide BasicRow, LimitRow, AuditRow, PlatformRow, SoftwareRow;
  }

  lemma Shapes36(i: nat)
    requires 36 <= i < 40
    ensures HasShape(RowAt(i).name, ShapeAt(i))
  {
    hide BasicRow, LimitRow, AuditRow, PlatformRow, SoftwareRow;
  }

  lemma Shapes40(i: nat)
    requires 40 <= i < 44
    ensures HasShape(RowAt(i).name, ShapeAt(i))
  {
    hide BasicRow, LimitRow, AuditRow, PlatformRow, DomainRow;
  }

  lemma Shapes44(i: nat)
    requires 44 <= i < 48
    ensures HasShape(RowAt(i).name, ShapeAt(i))
  {
    hide BasicRow, LimitRow, AuditRow, PlatformRow, DomainRow;
  }

  lemma RowHasShape(i: nat)
    requires i < KEY_NAMES
    ensures HasShape(RowAt(i).name, ShapeAt(i))
  {
    hide RowAt, ShapeAt, HasShape;
    if i < 4 {
      Shapes0(i);
    } else if i < 8 {
      Shapes4(i);
    } else if i < 12 {
      Shapes8(i);
    } else if i < 16 {
      Shapes12(i);
    } else if i < 20 {
      Shapes16(i);
    } else if i < 24 {
      Shapes20(i);
    } else if i < 28 {
      Shapes24(i);
    } else if i < 32 {
      Shapes28(i);
    } else if i < 36 {
      Shapes32(i);
    } else if i < 40 {
      Shapes36(i);
    } else if i < 44 {
      Shapes40(i);
    } else {
      Shapes44(i);
    }
  }

  lemma OneRowAName(i: nat, j: nat)
    requires i < KEY_NAMES && j < KEY_NAMES && RowAt(i).name == RowAt(j).name
    ensures i == j
  {
    hide RowAt, ShapeAt;
    RowHasShape(i);
    RowHasShape(j);
    ShapesDiffer(i, j);
  }

  lemma {:induction false} LookupFinds(i: nat, from: nat)
    requires from <= i < KEY_NAMES
    ensures Lookup(RowAt(i).name, from) == Some(RowAt(i).key)
    decreases i - from
  {
    hide RowAt;
    if RowAt(from).name == RowAt(i).name {
      OneRowAName(from, i);
    } else {
      LookupFinds(i, from + 1);
    }
  }

  lemma SecondRow()
    ensures RowAt(5) == KeyName("target_host", TargetIp)
  {
    hide LimitRow, AuditRow, PlatformRow, DomainRow, SoftwareRow;
  }

  /** Every documented name is read as its own key; the target has a second name. */
  lemma NameIsRead(k: Key)
    ensures KeyFromText(NameOf(k)) == Some(k)
    ensures KeyFromText("target_host") == Some(TargetIp)
  {
    hide RowAt, NameOf, PlaceOf;
    SecondRow();
    NameIsInTable(k);
    LookupFinds(PlaceOf(k), 0);
    LookupFinds(5, 0);
  }

  // -- characters

  predicate IsName(s: string) {
    0 < |s| <= MAX_KEY_LEN && forall i :: 0 <= i < |s| ==> IsKeyChar(s[i])
  }

  lemma NamesFrom0(k: Key)
    requires 0 <= PlaceOf(k) < 4
    ensures IsName(BasicName(k))
  {
    match k
    case MaxClients => assert IsName("max_clients");
    case BufferSize => assert IsName("buffer_size");
    case ListenHost => assert IsName("listen_host");
    case ListenPort => assert IsName("listen_port");
    case _ =>
  }

  lemma NamesFrom4(k: Key)
    requires 4 <= PlaceOf(k) < 8
    ensures IsName(BasicName(k))
  {
    match k
    case TargetIp => assert IsName("target_ip");
    case TargetPort => assert IsName("target_port");
    case ListenBacklog => assert IsName("listen_backlog");
    case _ =>
  }

  lemma NamesFrom8(k: Key)
    requires 8 <= PlaceOf(k) < 10
    ensures IsName(LimitName(k))
  {
    match k
    case AcceptBatchMax => assert IsName("accept_batch_max");
    case SessionIdleTimeoutMs => assert IsName("session_idle_timeout_ms");
    case _ =>
  }

  lemma NamesFrom10(k: Key)
    requires 10 <= PlaceOf(k) < 12
    ensures IsName(LimitName(k))
  {
    match k
    case MaxSessionsPerClientIp => assert IsName("max_sessions_per_client_ip");
    case MaxNewSessionsPerWindow => assert IsName("max_new_sessions_per_client_ip_per_window");
    case _ =>
  }

  lemma NamesFrom12(k: Key)
    requires 12 <= PlaceOf(k) < 14
    ensures IsName(LimitName(k))
  {
    match k
    case RateWindowMs => assert IsName("client_ip_rate_window_ms");
    case PrefaceTimeoutMs => assert IsName("client_preface_timeout_ms");
    case _ =>
  }

  lemma NamesFrom14(k: Key)
    requires 14 <= PlaceOf(k) < 16
    ensures IsName(LimitName(k))
  {
    match k
    case HandshakeGateEnabled => assert IsName("protocol_handshake_gate_enabled");
    case PayloadEccEnabled => assert IsName("payload_ecc_enabled");
    case _ =>
  }

  lemma NamesFrom16(k: Key)
    requires 16 <= PlaceOf(k) < 18
    ensures IsName(AuditName(k))
  {
    match k
    case IpAuditEnabled => assert IsName("ip_audit_enabled");
    case IpAuditPath => assert IsName("ip_audit_path");
    case _ =>
  }

  lemma NamesFrom18(k: Key)
    requires 18 <= PlaceOf(k) < 20
    ensures IsName(AuditName(k))
  {
    match k
    case AuditMacEnabled => assert IsName("audit_mac_enabled");
    case AuditMacKeyPath => assert IsName("audit_mac_key_path");
    case _ =>
  }

  lemma NamesFrom20(k: Key)
    requires 20 <= PlaceOf(k) < 22
    ensures IsName(AuditName(k))
  {
    match k
    case RequireReadiness => assert IsName("require_readiness");
    case SafetyFlags => assert IsName("platform_safety_flags");
    case _ =>
  }

  lemma NamesFrom22(k: Key)
    requires 22 <= PlaceOf(k) < 24
    ensures IsName(AuditName(k))
  {
    match k
    case EvidenceId => assert IsName("platform_safety_evidence_id");
    case AttestationFingerprint => assert IsName("platform_attestation_fingerprint");
    case _ =>
  }

  lemma NamesFrom24(k: Key)
    requires 24 <= PlaceOf(k) < 26
    ensures IsName(PlatformName(k))
  {
    match k
    case ObservationDigest => assert IsName("platform_observation_digest");
    case EvidenceMode => assert IsName("platform_evidence_mode");
    case _ =>
  }

  lemma NamesFrom26(k: Key)
    requires 26 <= PlaceOf(k) < 28
    ensures IsName(PlatformName(k))
  {
    match k
    case PhysMemDomain0 => assert IsName("phys_mem_domain0");
    case PhysMemDomain1 => assert IsName("phys_mem_domain1");
    case _ =>
  }

  lemma NamesFrom28(k: Key)
    requires 28 <= PlaceOf(k) < 30
    ensures IsName(PlatformName(k))
  {
    match k
    case PhysMemDomain2 => assert IsName("phys_mem_domain2");
    case HwTmrDomain0 => assert IsName("hw_tmr_domain0");
    case _ =>
  }

  lemma NamesFrom30(k: Key)
    requires 30 <= PlaceOf(k) < 32
    ensures IsName(PlatformName(k))
  {
    match k
    case HwTmrDomain1 => assert IsName("hw_tmr_domain1");
    case HwTmrDomain2 => assert IsName("hw_tmr_domain2");
    case _ =>
  }

  lemma NamesFrom32(k: Key)
    requires 32 <= PlaceOf(k) < 34
    ensures IsName(DomainName(k))
  {
    match k
    case VoterDomain => assert IsName("hw_tmr_voter_domain");
    case EccEnabled => assert IsName("software_ecc_enabled");
    case _ =>
  }

  lemma NamesFrom34(k: Key)
    requires 34 <= PlaceOf(k) < 36
    ensures IsName(DomainName(k))
  {
    match k
    case EccControllerCount => assert IsName("software_ecc_controller_count");
    case EccDimmCount => assert IsName("software_ecc_dimm_count");
    case _ =>
  }

  lemma NamesFrom36(k: Key)
    requires 36 <= PlaceOf(k) < 38
    ensures IsName(DomainName(k))
  {
    match k
    case EccScrubRate => assert IsName("software_ecc_scrub_rate");
    case EccControllerCorrected => assert IsName("software_ecc_controller_" + "corrected_error_count");
    case _ =>
  }

  lemma NamesFrom38(k: Key)
    requires 38 <= PlaceOf(k) < 40
    ensures IsName(DomainName(k))
  {
    match k
    case EccControllerUncorrected => assert IsName("software_ecc_controller_" + "uncorrected_error_count");
    case EccDimmCorrected => assert IsName("software_ecc_dimm_" + "corrected_error_count");
    case _ =>
  }

  lemma NamesFrom40(k: Key)
    requires 40 <= PlaceOf(k) < 42
    ensures IsName(SoftwareName(k))
  {
    match k
    case EccDimmUncorrected => assert IsName("software_ecc_dimm_" + "uncorrected_error_count");
    case NumaEnabled => assert IsName("software_numa_enabled");
    case _ =>
  }

  lemma NamesFrom42(k: Key)
    requires 42 <= PlaceOf(k) < 44
    ensures IsName(SoftwareName(k))
  {
    match k
    case NumaMemTotalKib => assert IsName("software_numa_memtotal_kib");
    case NumaLocalDistance => assert IsName("software_numa_local_distance");
    case _ =>
  }

  lemma NamesFrom44(k: Key)
    requires 44 <= PlaceOf(k) < 46
    ensures IsName(SoftwareName(k))
  {
    match k
    case NumaRemoteDistance => assert IsName("software_numa_remote_distance");
    case FaultInjectionMode => assert IsName("software_fault_injection_mode");
    case _ =>
  }

  lemma NamesFrom46(k: Key)
    requires 46 <= PlaceOf(k) < 48
    ensures IsName(SoftwareName(k))
  {
    match k
    case EvidenceMacEnabled => assert IsName("evidence_mac_enabled");
    case EvidenceMacKeyPath => assert IsName("evidence_mac_key_path");
    case _ =>
  }

  /** Names are made of the characters that the reader allows in a key. */
  lemma NameIsName(k: Key)
    ensures IsName(NameOf(k))
  {
    hide IsName, PlaceOf, BasicName, LimitName, AuditName, PlatformName, DomainName, SoftwareName;
    var i := PlaceOf(k);
    if i < 4 {
      NamesFrom0(k);
    } else if i < 8 {
      NamesFrom4(k);
    } else if i < 10 {
      NamesFrom8(k);
    } else if i < 12 {
      NamesFrom10(k);
    } else if i < 14 {
      NamesFrom12(k);
    } else if i < 16 {
      NamesFrom14(k);
    } else if i < 18 {
      NamesFrom16(k);
    } else if i < 20 {
      NamesFrom18(k);
    } else if i < 22 {
      NamesFrom20(k);
    } else if i < 24 {
      NamesFrom22(k);
    } else if i < 26 {
      NamesFrom24(k);
    } else if i < 28 {
      NamesFrom26(k);
    } else if i < 30 {
      NamesFrom28(k);
    } else if i < 32 {
      NamesFrom30(k);
    } else if i < 34 {
      NamesFrom32(k);
    } else if i < 36 {
      NamesFrom34(k);
    } else if i < 38 {
      NamesFrom36(k);
    } else if i < 40 {
      NamesFrom38(k);
    } else if i < 42 {
      NamesFrom40(k);
    } else if i < 44 {
      NamesFrom42(k);
    } else if i < 46 {
      NamesFrom44(k);
    } else {
      NamesFrom46(k);
    }
  }

  // -- only the documented names are read

  /** The names of a key: the documented one, and for the target a second one. */
  predicate Names(k: Key, name: string) {
    name == NameOf(k) || (k.TargetIp? && name == "target_host")
  }

  lemma PlaceInBasicRow(i: nat)
    requires i < 8 && i != 5
    ensures PlaceOf(BasicRow(i).key) == i
  {
  }

  lemma PlaceInLimitRow(i: nat)
    requires 8 <= i < 16
    ensures PlaceOf(LimitRow(i).key) == i
  {
  }

  lemma PlaceInAuditRow(i: nat)
    requires 16 <= i < 24
    ensures PlaceOf(AuditRow(i).key) == i
  {
  }

  lemma PlaceInPlatformRow(i: nat)
    requires 24 <= i < 32
    ensures PlaceOf(PlatformRow(i).key) == i
  {
  }

  lemma PlaceInDomainRow(i: nat)
    requires 32 <= i < 40
    ensures PlaceOf(DomainRow(i).key) == i
  {
  }

  lemma PlaceInSoftwareRow(i: nat)
    requires 40 <= i < 44
    ensures PlaceOf(SoftwareRow(i).key) == i
  {
  }

  lemma PlaceInLastRows(i: nat)
    requires 44 <= i < 48
    ensures PlaceOf(SoftwareRow(i).key) == i
  {
  }

  lemma RowIsNamed(i: nat)
    requires i < KEY_NAMES
    ensures Names(RowAt(i).key, RowAt(i).name)
  {
    hide BasicRow, LimitRow, AuditRow, PlatformRow, DomainRow, SoftwareRow, PlaceOf, NameOf;
    if i == 5 {
      SecondRow();
    } else if i < 8 {
      PlaceInBasicRow(i);
    } else if i < 16 {
      PlaceInLimitRow(i);
    } else if i < 24 {
      PlaceInAuditRow(i);
    } else if i < 32 {
      PlaceInPlatformRow(i);
    } else if i < 40 {
      PlaceInDomainRow(i);
    } else if i < 44 {
      PlaceInSoftwareRow(i);
    } else {
      PlaceInLastRows(i);
    }
    NameIsInTable(RowAt(i).key);
  }

  lemma {:induction false} LookupIsRow(s: string, from: nat)
    requires from <= KEY_NAMES && Lookup(s, from).Some?
    ensures exists i :: from <= i < KEY_NAMES && RowAt(i).name == s && RowAt(i).key == Lookup(s, from).value
    decreases KEY_NAMES - from
  {
    hide RowAt;
    if RowAt(from).name != s {
      LookupIsRow(s, from + 1);
    }
  }

  lemma OnlyNamesAreRead(s: string)
    ensures KeyFromText(s).Some? ==> Names(KeyFromText(s).value, s)
  {
    hide RowAt, Names;
    if KeyFromText(s).Some? {
      LookupIsRow(s, 0);
      var i :| 0 <= i < KEY_NAMES && RowAt(i).name == s && RowAt(i).key == KeyFromText(s).value;
      RowIsNamed(i);
    }
  }

  lemma NamesAreRead(k: Key, name: string)
    requires Names(k, name)
    ensures KeyFromText(name) == Some(k) && IsName(name)
  {
    hide NameOf, KeyFromText;
    SecondNameIsName();
    hide IsName;
    NameIsRead(k);
    NameIsName(k);
  }

  lemma SecondNameIsName()
    ensures IsName("target_host")
  {
  }
}
