/**
 The configuration file: the line parser, the byte-driven reader around it, and what a load
 depends on.
 */
module ConfigFile {
  import opened Bytes
  import opened Digits
  import opened Tokens
  import opened ConfigNumbers
  import opened ConfigModel

  const MAX_LINE_LEN: nat := 320
  const MAX_LINES: nat := 128
  const MAX_FILE_BYTES: nat := 128 * (320 + 2)
  const READ_CHUNK: nat := 128
  const MAX_KEY_LEN: nat := 64

  // -- one line

  /** Where a comment begins: the first `#` outside quotes, or the end. */
  function CommentStart(s: string, single: bool, double: bool): (n: nat)
    ensures n <= |s|
  {
    if s == "" then 0
    else if s[0] == '\'' && !double then 1 + CommentStart(s[1..], !single, double)
    else if s[0] == '"' && !single then 1 + CommentStart(s[1..], single, !double)
    else if s[0] == '#' && !single && !double then 0
    else 1 + CommentStart(s[1..], single, double)
  }

  function TrimRight(s: string): string {
    if s != "" && IsBlank(s[|s| - 1]) then TrimRight(s[..|s| - 1]) else s
  }

  function Trim(s: string): string {
    TrimRight(SkipBlanks(s))
  }

  function Colons(s: string): nat {
    if s == "" then 0 else Colons(s[1..]) + (if s[0] == ':' then 1 else 0)
  }

  function ColonAt(s: string): (i: nat)
    requires Colons(s) > 0
    ensures i < |s|
  {
    if s[0] == ':' then 0 else 1 + ColonAt(s[1..])
  }

  predicate IsKeyChar(c: char) {
    'a' <= c <= 'z' || IsDigit(c) || c == '_'
  }

  predicate Unquotable(s: string, quote: char) {
    forall i :: 0 <= i < |s| ==> s[i] != quote && s[i] != '\\'
  }

  function Unquote(s: string): Result<string> {
    if |s| > MAX_VALUE_LEN then Err(Text)
    else if s == "" then Err(Syntax)
    else if s[0] == '\'' || s[0] == '"' then
      if |s| >= 2 && s[|s| - 1] == s[0] && Unquotable(s[1..|s| - 1], s[0]) then Ok(s[1..|s| - 1]) else Err(Syntax)
    else if Unquotable(s, '\'') && Unquotable(s, '"') then Ok(s)
    else Err(Syntax)
  }

  /** A row of the table of names; one key has two. */
  datatype KeyName = KeyName(name: string, key: Key)

  const KEY_NAMES: nat := 48

  /** The table, in blocks of eight rows. */
  function RowAt(i: nat): KeyName
    requires i < KEY_NAMES
  {
    if i < 8 then BasicRow(i) else if i < 16 then LimitRow(i) else if i < 24 then AuditRow(i)
    else if i < 32 then PlatformRow(i) else if i < 40 then DomainRow(i) else SoftwareRow(i)
  }

  function BasicRow(i: nat): KeyName {
    if i == 0 then KeyName("max_clients", MaxClients)
    else if i == 1 then KeyName("buffer_size", BufferSize)
    else if i == 2 then KeyName("listen_host", ListenHost)
    else if i == 3 then KeyName("listen_port", ListenPort)
    else if i == 4 then KeyName("target_ip", TargetIp)
    else if i == 5 then KeyName("target_host", TargetIp)
    else if i == 6 then KeyName("target_port", TargetPort)
    else KeyName("listen_backlog", ListenBacklog)
  }

  function LimitRow(i: nat): KeyName {
    if i == 8 then KeyName("accept_batch_max", AcceptBatchMax)
    else if i == 9 then KeyName("session_idle_timeout_ms", SessionIdleTimeoutMs)
    else if i == 10 then KeyName("max_sessions_per_client_ip", MaxSessionsPerClientIp)
    else if i == 11 then KeyName("max_new_sessions_per_client_ip_per_window", MaxNewSessionsPerWindow)
    else if i == 12 then KeyName("client_ip_rate_window_ms", RateWindowMs)
    else if i == 13 then KeyName("client_preface_timeout_ms", PrefaceTimeoutMs)
    else if i == 14 then KeyName("protocol_handshake_gate_enabled", HandshakeGateEnabled)
    else KeyName("payload_ecc_enabled", PayloadEccEnabled)
  }

  function AuditRow(i: nat): KeyName {
    if i == 16 then KeyName("ip_audit_enabled", IpAuditEnabled)
    else if i == 17 then KeyName("ip_audit_path", IpAuditPath)
    else if i == 18 then KeyName("audit_mac_enabled", AuditMacEnabled)
    else if i == 19 then KeyName("audit_mac_key_path", AuditMacKeyPath)
    else if i == 20 then KeyName("require_readiness", RequireReadiness)
    else if i == 21 then KeyName("platform_safety_flags", SafetyFlags)
    else if i == 22 then KeyName("platform_safety_evidence_id", EvidenceId)
    else KeyName("platform_attestation_fingerprint", AttestationFingerprint)
  }

  function PlatformRow(i: nat): KeyName {
    if i == 24 then KeyName("platform_observation_digest", ObservationDigest)
    else if i == 25 then KeyName("platform_evidence_mode", EvidenceMode)
    else if i == 26 then KeyName("phys_mem_domain0", PhysMemDomain0)
    else if i == 27 then KeyName("phys_mem_domain1", PhysMemDomain1)
    else if i == 28 then KeyName("phys_mem_domain2", PhysMemDomain2)
    else if i == 29 then KeyName("hw_tmr_domain0", HwTmrDomain0)
    else if i == 30 then KeyName("hw_tmr_domain1", HwTmrDomain1)
    else KeyName("hw_tmr_domain2", HwTmrDomain2)
  }

  function DomainRow(i: nat): KeyName {
    if i == 32 then KeyName("hw_tmr_voter_domain", VoterDomain)
    else if i == 33 then KeyName("software_ecc_enabled", EccEnabled)
    else if i == 34 then KeyName("software_ecc_controller_count", EccControllerCount)
    else if i == 35 then KeyName("software_ecc_dimm_count", EccDimmCount)
    else if i == 36 then KeyName("software_ecc_scrub_rate", EccScrubRate)
    else if i == 37 then KeyName("software_ecc_controller_" + "corrected_error_count", EccControllerCorrected)
    else if i == 38 then KeyName("software_ecc_controller_" + "uncorrected_error_count", EccControllerUncorrected)
    else KeyName("software_ecc_dimm_" + "corrected_error_count", EccDimmCorrected)
  }

  function SoftwareRow(i: nat): KeyName {
    if i == 40 then KeyName("software_ecc_dimm_" + "uncorrected_error_count", EccDimmUncorrected)
    else if i == 41 then KeyName("software_numa_enabled", NumaEnabled)
    else if i == 42 then KeyName("software_numa_memtotal_kib", NumaMemTotalKib)
    else if i == 43 then KeyName("software_numa_local_distance", NumaLocalDistance)
    else if i == 44 then KeyName("software_numa_remote_distance", NumaRemoteDistance)
    else if i == 45 then KeyName("software_fault_injection_mode", FaultInjectionMode)
    else if i == 46 then KeyName("evidence_mac_enabled", EvidenceMacEnabled)
    else KeyName("evidence_mac_key_path", EvidenceMacKeyPath)
  }

  /** The first row from `i` on that has this name. */
  function Lookup(s: string, i: nat): Option<Key>
    requires i <= KEY_NAMES
    decreases KEY_NAMES - i
  {
    if i == KEY_NAMES then None else if RowAt(i).name == s then Some(RowAt(i).key) else Lookup(s, i + 1)
  }

  function KeyFromText(s: string): Option<Key> {
    Lookup(s, 0)
  }

  /** The search through the table. */
  method FindKey(s: string) returns (r: Option<Key>)
    ensures r == KeyFromText(s)
  {
    hide RowAt;
    for i := 0 to KEY_NAMES
      invariant Lookup(s, 0) == Lookup(s, i)
    {
      if RowAt(i).name == s {
        return Some(RowAt(i).key);
      }
    }
    return None;
  }

  datatype Entry = Blank | Assign(key: Key, text: string)

  function ParseEntry(line: string): Result<Entry> {
    var work := Trim(line[..CommentStart(line, false, false)]);
    if work == "" then Ok(Blank)
    else if work[0] == '-' || work[0] == '[' || work[0] == '{' || Colons(work) != 1 then Err(Syntax)
    else
      var key, raw := Trim(work[..ColonAt(work)]), Trim(work[ColonAt(work) + 1..]);
      if key == "" || raw == "" then Err(Syntax)
      else if |key| > MAX_KEY_LEN then Err(Text)
      else if exists i :: 0 <= i < |key| && !IsKeyChar(key[i]) then Err(Syntax)
      else
        var text :- Unquote(raw);
        if KeyFromText(key).None? then Err(UnknownKey) else Ok(Assign(KeyFromText(key).value, text))
  }

  /** What the lines read so far have set. */
  datatype Settings = Settings(cfg: Config, present: set<Key>)

  function Commit(o: Oracles, s: Settings, line: string): Result<Settings> {
    var e :- ParseEntry(line);
    if e.Blank? then Ok(s)
    else if e.key in s.present then Err(Duplicate)
    else
      var v :- ReadValue(o, e.key, e.text);
      Ok(Settings(s.cfg[e.key := v], s.present + {e.key}))
  }

  // -- the reader

  datatype Reader = Reader(line: string, lineNo: nat, total: nat, pendingCr: bool, settings: Settings)

  datatype Progress = Reading(r: Reader) | Failed(status: Status, line: nat)

  predicate IsAllowed(c: char) {
    ' ' <= c <= '~' || c == '\t'
  }

  function Fresh(): Settings {
    Settings(Defaults(), {})
  }

  function Begin(): Progress {
    Reading(Reader("", 1, 0, false, Fresh()))
  }

  function CommitReader(o: Oracles, r: Reader): Progress {
    if r.lineNo > MAX_LINES then Failed(TooManyLines, r.lineNo)
    else
      match Commit(o, r.settings, r.line)
      case Ok(s) => Reading(r.(line := "", lineNo := r.lineNo + 1, pendingCr := false, settings := s))
      case Err(status) => Failed(status, r.lineNo)
  }

  function Feed(o: Oracles, p: Progress, c: char): Progress {
    if p.Failed? then p
    else if p.r.total >= MAX_FILE_BYTES then Failed(TooLarge, 0)
    else
      var r := p.r.(total := p.r.total + 1);
      if r.pendingCr then
        if c != '\n' then Failed(Syntax, r.lineNo) else CommitReader(o, r)
      else if c == '\r' then Reading(r.(pendingCr := true))
      else if c == '\n' then CommitReader(o, r)
      else if !IsAllowed(c) then Failed(Syntax, r.lineNo)
      else if |r.line| >= MAX_LINE_LEN then Failed(LineTooLong, r.lineNo)
      else Reading(r.(line := r.line + [c]))
  }

  function FeedAll(o: Oracles, p: Progress, text: string): Progress {
    if text == "" then p else Feed(o, FeedAll(o, p, text[..|text| - 1]), text[|text| - 1])
  }

  datatype Outcome = Loaded(cfg: Config) | Refused(status: Status, line: nat)

  function RequiredKeys(): set<Key> {
    {MaxClients, BufferSize, ListenHost, ListenPort, TargetIp, TargetPort, ListenBacklog, AcceptBatchMax}
  }

  function Conclude(o: Oracles, r: Reader, enforce: bool): Outcome {
    if r.total == 0 || !(RequiredKeys() <= r.settings.present) then Refused(Required, 0)
    else
      match ValidateFile(o, r.settings.cfg, enforce)
      case Some(status) => Refused(status, 0)
      case None => Loaded(r.settings.cfg)
  }

  /** At the end of the file a carriage return, or a line without an end, is one more line. */
  function Finish(o: Oracles, p: Progress, enforce: bool): Outcome {
    var after := if p.Reading? && p.r.pendingCr then CommitReader(o, p.r) else p;
    var last := if after.Reading? && after.r.line != "" then CommitReader(o, after.r) else after;
    match last
    case Failed(status, line) => Refused(status, line)
    case Reading(r) => Conclude(o, r, enforce)
  }

  function Load(o: Oracles, text: string, enforce: bool): Outcome {
    Finish(o, FeedAll(o, Begin(), text), enforce)
  }

  // -- the loop, whatever `read` returns

  datatype Read = Interrupted | Got(bytes: string)

  predicate IsRead(r: Read) {
    r.Got? ==> 0 < |r.bytes| <= READ_CHUNK
  }

  /** The bytes of the file, however they were cut. */
  function Contents(rs: seq<Read>): string {
    if rs == [] then ""
    else Contents(rs[..|rs| - 1]) + (if rs[|rs| - 1].Got? then rs[|rs| - 1].bytes else "")
  }

  lemma {:induction false} FeedConcat(o: Oracles, p: Progress, a: string, b: string)
    ensures FeedAll(o, p, a + b) == FeedAll(o, FeedAll(o, p, a), b)
  {
    hide Feed;
    if b == "" {
      assert a + b == a;
    } else {
      assert (a + b)[..|a + b| - 1] == a + b[..|b| - 1];
      FeedConcat(o, p, a, b[..|b| - 1]);
    }
  }

  lemma {:induction false} FailedStays(o: Oracles, p: Progress, text: string)
    requires p.Failed?
    ensures FeedAll(o, p, text) == p
  {
    if text != "" {
      FailedStays(o, p, text[..|text| - 1]);
    }
  }

  lemma {:induction false} ContentsGrow(rs: seq<Read>, k: nat)
    requires k <= |rs|
    ensures exists rest :: Contents(rs) == Contents(rs[..k]) + rest
  {
    if k == |rs| {
      assert rs[..k] == rs;
      assert Contents(rs) == Contents(rs[..k]) + "";
    } else {
      var n := |rs| - 1;
      assert rs[..n][..k] == rs[..k];
      ContentsGrow(rs[..n], k);
      var rest :| Contents(rs[..n]) == Contents(rs[..k]) + rest;
      var more := if rs[n].Got? then rs[n].bytes else "";
      assert Contents(rs) == Contents(rs[..k]) + (rest + more);
    }
  }

  /** One read's bytes, one at a time, until the first failure. */
  method FeedChunk(o: Oracles, start: Progress, chunk: string) returns (p: Progress)
    ensures p == FeedAll(o, start, chunk)
  {
    hide Feed;
    p := start;
    for i := 0 to |chunk|
      invariant p == FeedAll(o, start, chunk[..i])
    {
      if p.Failed? {
        assert chunk == chunk[..i] + chunk[i..];
        FeedConcat(o, start, chunk[..i], chunk[i..]);
        FailedStays(o, p, chunk[i..]);
        return;
      }
      assert chunk[..i + 1][..i] == chunk[..i];
      p := Feed(o, p, chunk[i]);
    }
    assert chunk[..|chunk|] == chunk;
  }

  /** The streaming load, over any way of splitting the file into reads. */
  method LoadReads(o: Oracles, rs: seq<Read>, enforce: bool) returns (r: Outcome)
    requires forall i :: 0 <= i < |rs| ==> IsRead(rs[i])
    ensures r == Load(o, Contents(rs), enforce)
  {
    hide FeedAll, Finish;
    var p := Begin();
    assert p == FeedAll(o, Begin(), "") by {
      FeedNothing(o, p);
    }
    for i := 0 to |rs|
      invariant p == FeedAll(o, Begin(), Contents(rs[..i]))
    {
      assert rs[..i + 1][..i] == rs[..i];
      if p.Failed? {
        ContentsGrow(rs, i);
        ghost var rest :| Contents(rs) == Contents(rs[..i]) + rest;
        FeedConcat(o, Begin(), Contents(rs[..i]), rest);
        FailedStays(o, p, rest);
        return Finish(o, p, enforce);
      }
      if rs[i].Got? {
        FeedConcat(o, Begin(), Contents(rs[..i]), rs[i].bytes);
        p := FeedChunk(o, p, rs[i].bytes);
      } else {
        assert Contents(rs[..i]) + "" == Contents(rs[..i]);
      }
    }
    assert rs[..|rs|] == rs;
    return Finish(o, p, enforce);
  }

  lemma FeedNothing(o: Oracles, p: Progress)
    ensures FeedAll(o, p, "") == p
  {
  }
}
