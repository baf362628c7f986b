/** The restart scanner: reads a log line by line and recovers the writer's counters. */
module AuditScan {
  import opened Bytes
  import opened Digits
  import opened Tokens
  import opened AuditLog

  // -- rows

  function ParseAuditRow(body: string): Option<AuditRow> {
    var f :- Fields(body, [64, 64, 32, 64, 64, 64, 64, REASON_TEXT, 64, 64]);
    var n :- ParseU64(f[0]);
    var requestNo :- ParseU64(f[1]);
    var kind :- KindFromText(f[2]);
    var eventNo :- ParseU64(f[3]);
    var total :- ParseU64(f[4]);
    var timeNs :- ParseU64(f[5]);
    var session :- ParseU64(f[6]);
    var durationNs :- ParseU64(f[8]);
    var crc :- ParseHex32(f[9]);
    if session < U32 && Safe(f[7], REASON_TEXT, false) then
      Some(AuditRow(n, requestNo, kind, eventNo, total, timeNs, session, f[7], durationNs, crc))
    else None
  }

  datatype ParsedEndpoint = ParsedEndpoint(seqNo: nat, role: Role, endpoint: Endpoint)

  function RoleFromText(s: string): (r: Option<Role>)
    ensures r.Some? ==> RoleText(r.value) == s
    ensures r.None? ==> forall q :: RoleText(q) != s
  {
    if s == "client" then Some(Client)
    else if s == "listen" then Some(Listen)
    else if s == "target" then Some(Target)
    else if s == "backend" then Some(Backend)
    else None
  }

  function ParseEndpointRow(body: string): Option<ParsedEndpoint> {
    var f :- Fields(body, [64, 16, HOST_TEXT, 64]);
    var n :- ParseU64(f[0]);
    var role :- RoleFromText(f[1]);
    var port :- ParseU64(f[3]);
    if port < U16 && Safe(f[2], HostCap(role), true) then Some(ParsedEndpoint(n, role, Endpoint(f[2], port))) else None
  }

  datatype ParsedMac = ParsedMac(seqNo: nat, fingerprint: nat, tag: string)

  function ParseMacRow(body: string): Option<ParsedMac> {
    var f :- Fields(body, [64, 64, 65]);
    var n :- ParseU64(f[0]);
    var fingerprint :- ParseHex32(f[1]);
    if |f[2]| == 64 && AllHex(f[2]) then Some(ParsedMac(n, fingerprint, LowerAll(f[2]))) else None
  }

  function ParseU64s(ts: seq<string>): (r: Option<seq<nat>>)
    ensures r.Some? ==> |r.value| == |ts|
  {
    if ts == [] then Some([])
    else
      var n :- ParseU64(ts[0]);
      var rest :- ParseU64s(ts[1..]);
      Some([n] + rest)
  }

  function ParseHex32s(ts: seq<string>): (r: Option<seq<nat>>)
    ensures r.Some? ==> |r.value| == |ts|
  {
    if ts == [] then Some([])
    else
      var n :- ParseHex32(ts[0]);
      var rest :- ParseHex32s(ts[1..]);
      Some([n] + rest)
  }

  function EvidenceCaps(): (caps: seq<nat>)
    ensures |caps| == 19 && forall i :: 0 <= i < 19 ==> caps[i] == if i == 1 then REASON_TEXT else 64
  {
    [64, REASON_TEXT] + seq(17, i => 64)
  }

  function ParseEvidenceRow(body: string): Option<EvidenceRow> {
    var f :- Fields(body, EvidenceCaps());
    var n :- ParseU64(f[0]);
    var timeNs :- ParseU64(f[2]);
    var status :- ParseHex32(f[3]);
    var mask :- ParseHex32(f[4]);
    var patrols :- ParseU64s(f[5..13]);
    var settings :- ParseHex32s(f[13..18]);
    var crc :- ParseHex32(f[18]);
    if Safe(f[1], REASON_TEXT, false) then
      Some(EvidenceRow(n, Evidence(f[1], timeNs, status, mask, patrols, settings), crc))
    else None
  }

  // -- scanning state

  /** The audit record being read. */
  datatype Pending = Pending(row: AuditRow, endpoints: map<Role, Endpoint>, mac: Option<ParsedMac>)

  datatype PendingEvidence = PendingEvidence(row: EvidenceRow, macSeen: bool)

  datatype Scan = Scan(audit: Option<Pending>, evidence: Option<PendingEvidence>,
                       lastSeq: nat, evidenceSeq: nat, counts: seq<nat>)

  function Zeros(): (r: seq<nat>)
    ensures |r| == KINDS
  {
    [0, 0, 0, 0, 0]
  }

  function Start(): Scan {
    Scan(None, None, 0, 0, Zeros())
  }

  predicate AllRoles(m: map<Role, Endpoint>) {
    Client in m && Listen in m && Target in m && Backend in m
  }

  function PeersOf(m: map<Role, Endpoint>): Peers
    requires AllRoles(m)
  {
    Peers(m[Client], m[Listen], m[Target], m[Backend])
  }

  predicate AuditMacOk(env: Env, p: Pending)
    requires AllRoles(p.endpoints)
  {
    env.key.Some? ==>
      var key, m := env.key.value, AuditMessage(p.row, PeersOf(p.endpoints));
      p.mac.Some? && p.mac.value.fingerprint == key.fingerprint && |m| < MAC_MESSAGE_BYTES
      && p.mac.value.tag == LowerAll(key.tag(m))
  }

  /** A record is complete: four endpoints, the right checksum and, with a key, the right tag. */
  predicate Sealed(env: Env, p: Pending) {
    AllRoles(p.endpoints) && AuditCrc(env, p.row, PeersOf(p.endpoints)) == p.row.crc && AuditMacOk(env, p)
  }

  function FinalizeAudit(env: Env, s: Scan): Option<Scan>
    requires |s.counts| == KINDS
  {
    if s.audit.None? then Some(s)
    else
      var p := s.audit.value;
      if !Sealed(env, p) then None
      else Some(s.(audit := None, lastSeq := p.row.seqNo, counts := s.counts[KindIndex(p.row.kind) := p.row.eventNo]))
  }

  function FinalizeEvidence(env: Env, s: Scan): Option<Scan> {
    if s.evidence.Some? && env.key.Some? && !s.evidence.value.macSeen then None else Some(s.(evidence := None))
  }

  /** The next record continues every count by one. */
  predicate Continues(s: Scan, row: AuditRow)
    requires |s.counts| == KINDS
  {
    var k := KindIndex(row.kind);
    && s.lastSeq != U64 - 1 && row.seqNo == s.lastSeq + 1 && row.totalEvents == row.seqNo
    && s.counts[k] != U64 - 1 && row.eventNo == s.counts[k] + 1
  }

  function OnAudit(env: Env, s: Scan, body: string): Option<Scan>
    requires |s.counts| == KINDS
  {
    var f :- FinalizeAudit(env, s);
    var row :- ParseAuditRow(body);
    if Continues(f, row) then Some(f.(audit := Some(Pending(row, map[], None)))) else None
  }

  function OnEndpoint(s: Scan, body: string): Option<Scan> {
    var p :- s.audit;
    var e :- ParseEndpointRow(body);
    if e.seqNo == p.row.seqNo && e.role !in p.endpoints then
      Some(s.(audit := Some(p.(endpoints := p.endpoints[e.role := e.endpoint]))))
    else None
  }

  function OnMac(env: Env, s: Scan, body: string): Option<Scan> {
    var p :- s.audit;
    var m :- ParseMacRow(body);
    if env.key.Some? && m.seqNo == p.row.seqNo && p.mac.None? then Some(s.(audit := Some(p.(mac := Some(m))))) else None
  }

  /** The evidence sequence is compared after a 64-bit increment, which wraps. */
  function OnEvidence(env: Env, s: Scan, body: string): Option<Scan> {
    var f :- FinalizeEvidence(env, s);
    var row :- ParseEvidenceRow(body);
    if row.seqNo == (f.evidenceSeq + 1) % U64 && row.crc == EvidenceCrc(env, row.seqNo, row.evidence) then
      Some(f.(evidence := Some(PendingEvidence(row, false)), evidenceSeq := row.seqNo))
    else None
  }

  function OnEvidenceMac(env: Env, s: Scan, body: string): Option<Scan> {
    var p :- s.evidence;
    var key :- env.key;
    var m :- ParseMacRow(body);
    var message := EvidenceMessage(p.row);
    if m.seqNo == p.row.seqNo && m.fingerprint == key.fingerprint && !p.macSeen && |message| < MAC_MESSAGE_BYTES
       && m.tag == LowerAll(key.tag(message))
    then Some(s.(evidence := Some(p.(macSeen := true))))
    else None
  }

  /** What a line is, and the text behind its keyword. */
  datatype Line =
    | AuditLine(body: string)
    | EndpointLine(body: string)
    | MacLine(body: string)
    | EvidenceLine(body: string)
    | EvidenceMacLine(body: string)
    | Ignorable
    | Unknown

  function Classify(line: string): Line {
    if StartsWith(line, "+audit ") then AuditLine(line[7..])
    else if StartsWith(line, "+audit_endpoint ") then EndpointLine(line[16..])
    else if StartsWith(line, "+audit_mac ") then MacLine(line[11..])
    else if StartsWith(line, "+evidence ") then EvidenceLine(line[10..])
    else if StartsWith(line, "+evidence_mac ") then EvidenceMacLine(line[14..])
    else if line == "" || line[0] == '#' || line[0] == '@' || line == "pxf/1" then Ignorable
    else Unknown
  }

  function ProcessLine(env: Env, s: Scan, raw: string): (r: Option<Scan>)
    requires |s.counts| == KINDS
    ensures r.Some? ==> |r.value.counts| == KINDS
  {
    match Classify(CString(raw))
    case AuditLine(body) => OnAudit(env, s, body)
    case EndpointLine(body) => OnEndpoint(s, body)
    case MacLine(body) => OnMac(env, s, body)
    case EvidenceLine(body) => OnEvidence(env, s, body)
    case EvidenceMacLine(body) => OnEvidenceMac(env, s, body)
    case Ignorable => Some(s)
    case Unknown => None
  }

  function Finalize(env: Env, s: Scan): (r: Option<Scan>)
    requires |s.counts| == KINDS
    ensures r.Some? ==> |r.value.counts| == KINDS
  {
    var f :- FinalizeAudit(env, s);
    FinalizeEvidence(env, f)
  }

  /** A line that its newline has ended; a blank one ends the record. */
  function CompleteLine(env: Env, s: Scan, raw: string): (r: Option<Scan>)
    requires |s.counts| == KINDS
    ensures r.Some? ==> |r.value.counts| == KINDS
  {
    var after :- ProcessLine(env, s, raw);
    if CString(raw) == "" then Finalize(env, after) else Some(after)
  }

  function ScanLines(env: Env, s: Scan, ls: seq<string>): (r: Option<Scan>)
    requires |s.counts| == KINDS
    ensures r.Some? ==> |r.value.counts| == KINDS
  {
    if ls == [] then Some(s)
    else
      var before :- ScanLines(env, s, ls[..|ls| - 1]);
      CompleteLine(env, before, ls[|ls| - 1])
  }

  predicate LinesFit(c: Cut) {
    (forall i :: 0 <= i < |c.lines| ==> |c.lines[i]| < LINE_BYTES) && |c.rest| < LINE_BYTES
  }

  datatype Counters = Counters(lastSeq: nat, evidenceSeq: nat, counts: seq<nat>)

  /** The whole file: its lines, a last one without a newline, and what is still open. */
  function ScanFile(env: Env, text: string): (r: Option<Counters>)
    ensures r.Some? ==> |r.value.counts| == KINDS
  {
    var c := CutLines(text);
    if !LinesFit(c) then None
    else
      var done :- ScanLines(env, Start(), c.lines);
      var last :- if c.rest == "" then Some(done) else ProcessLine(env, done, c.rest);
      var end :- Finalize(env, last);
      Some(Counters(end.lastSeq, end.evidenceSeq, end.counts))
  }

  lemma {:induction false} ScanConcat(env: Env, s: Scan, a: seq<string>, b: seq<string>)
    requires |s.counts| == KINDS && ScanLines(env, s, a).Some?
    ensures ScanLines(env, s, a + b) == ScanLines(env, ScanLines(env, s, a).value, b)
  {
    hide CompleteLine;
    if b == [] {
      assert a + b == a;
    } else {
      var n := |b| - 1;
      assert (a + b)[..|a + b| - 1] == a + b[..n];
      ScanConcat(env, s, a, b[..n]);
    }
  }

  lemma {:induction false} ScanStuck(env: Env, s: Scan, ls: seq<string>, k: nat)
    requires |s.counts| == KINDS && k <= |ls| && ScanLines(env, s, ls[..k]).None?
    ensures ScanLines(env, s, ls).None?
  {
    hide CompleteLine;
    if k == |ls| {
      assert ls[..k] == ls;
    } else {
      assert ls[..|ls| - 1][..k] == ls[..k];
      ScanStuck(env, s, ls[..|ls| - 1], k);
    }
  }

  lemma CutNext(text: string, i: nat)
    requires i < |text|
    ensures var seen := CutLines(text[..i]);
            CutLines(text[..i + 1]) == if text[i] == '\n' then Cut(seen.lines + [seen.rest], "")
                                       else Cut(seen.lines, seen.rest + [text[i]])
  {
    assert text[..i + 1][..i] == text[..i];
  }

  lemma ScanNext(env: Env, ls: seq<string>, line: string)
    requires ScanLines(env, Start(), ls).Some?
    ensures ScanLines(env, Start(), ls + [line]) == CompleteLine(env, ScanLines(env, Start(), ls).value, line)
  {
    hide CompleteLine;
    assert (ls + [line])[..|ls|] == ls;
  }

  /** A line that fails ends the whole file. */
  lemma ScanFails(env: Env, text: string, k: nat)
    requires k <= |text| && ScanLines(env, Start(), CutLines(text[..k]).lines) == None
    ensures ScanFile(env, text) == None
  {
    hide ScanLines, CutLines, LinesFit, ProcessLine, Finalize;
    CutGrows(text, k);
    ScanStuck(env, Start(), CutLines(text).lines, |CutLines(text[..k]).lines|);
  }

  /** What is left to do at the end of the file. */
  function AtEnd(env: Env, s: Scan, line: string): (r: Option<Counters>)
    requires |s.counts| == KINDS
  {
    var last :- if line == "" then Some(s) else ProcessLine(env, s, line);
    var end :- Finalize(env, last);
    Some(Counters(end.lastSeq, end.evidenceSeq, end.counts))
  }

  lemma ScanEnds(env: Env, text: string, s: Scan)
    requires LinesFit(CutLines(text)) && ScanLines(env, Start(), CutLines(text).lines) == Some(s)
    ensures |s.counts| == KINDS && ScanFile(env, text) == AtEnd(env, s, CutLines(text).rest)
  {
    hide ScanLines, CutLines, LinesFit, ProcessLine, Finalize;
  }

  lemma FitsNext(text: string, i: nat)
    requires i < |text| && LinesFit(CutLines(text[..i]))
    requires text[i] == '\n' || |CutLines(text[..i]).rest| + 1 < LINE_BYTES
    ensures LinesFit(CutLines(text[..i + 1]))
  {
    hide CutLines;
    CutNext(text, i);
  }

  lemma NothingCut(text: string)
    ensures CutLines(text[..0]) == Cut([], "") && LinesFit(Cut([], ""))
  {
  }

  /** The reading loop: one character at a time into a bounded line buffer. */
  method ReadFile(env: Env, text: string) returns (r: Option<Counters>)
    ensures r == ScanFile(env, text)
  {
    hide CompleteLine, ProcessLine, Finalize, ScanLines, CutLines, LinesFit, ScanFile;
    var line := "";
    var s := Start();
    NothingCut(text);
    ScanNothing(env);
    for i := 0 to |text|
      invariant |s.counts| == KINDS && |line| < LINE_BYTES
      invariant CutLines(text[..i]).rest == line && LinesFit(CutLines(text[..i]))
      invariant ScanLines(env, Start(), CutLines(text[..i]).lines) == Some(s)
    {
      CutNext(text, i);
      if text[i] == '\n' {
        ScanNext(env, CutLines(text[..i]).lines, line);
        var next := CompleteLine(env, s, line);
        if next.None? {
          ScanFails(env, text, i + 1);
          return None;
        }
        s := next.value;
        line := "";
      } else {
        if |line| + 1 >= LINE_BYTES {
          LongLineFails(env, text, i + 1);
          return None;
        }
        line := line + [text[i]];
      }
      FitsNext(text, i);
    }
    assert text[..|text|] == text;
    ScanEnds(env, text, s);
    if line != "" {
      var next := ProcessLine(env, s, line);
      if next.None? {
        return None;
      }
      s := next.value;
    }
    var end := Finalize(env, s);
    return if end.None? then None else Some(Counters(end.value.lastSeq, end.value.evidenceSeq, end.value.counts));
  }

  lemma ScanNothing(env: Env)
    ensures ScanLines(env, Start(), []) == Some(Start())
  {
  }

  lemma LongLineFails(env: Env, text: string, k: nat)
    requires k <= |text| && |CutLines(text[..k]).rest| >= LINE_BYTES
    ensures ScanFile(env, text) == None
  {
    hide ScanLines, CutLines, LinesFit, ProcessLine, Finalize;
    LongLineStays(text, k);
  }

  lemma {:induction false} CutGrows(text: string, k: nat)
    requires k <= |text|
    ensures var part, all := CutLines(text[..k]).lines, CutLines(text).lines;
            |part| <= |all| && all[..|part|] == part
  {
    if k == |text| {
      assert text[..k] == text;
    } else {
      var t := text[..|text| - 1];
      assert t[..k] == text[..k];
      CutGrows(t, k);
    }
  }

  lemma {:induction false} LongLineStays(text: string, k: nat)
    requires k <= |text| && |CutLines(text[..k]).rest| >= LINE_BYTES
    ensures !LinesFit(CutLines(text))
  {
    RestIsKept(text, k);
  }

  /** What stands after the last newline stays the beginning of some line. */
  lemma {:induction false} RestIsKept(text: string, k: nat)
    requires k <= |text|
    ensures var part, all := CutLines(text[..k]), CutLines(text);
            && |part.lines| <= |all.lines|
            && (|all.lines| == |part.lines| ==> |all.rest| >= |part.rest|)
            && (|all.lines| > |part.lines| ==> |all.lines[|part.lines|]| >= |part.rest|)
  {
    if k == |text| {
      assert text[..k] == text;
    } else {
      var t := text[..|text| - 1];
      assert t[..k] == text[..k];
      RestIsKept(t, k);
    }
  }
}
