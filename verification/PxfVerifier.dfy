/** The independent reader: an offline verifier that shares no code with the scanner. */
module PxfVerifier {
  import opened Bytes
  import opened Digits
  import opened Tokens
  import opened AuditLog

  // -- how Python cuts text

  predicate IsSpace(c: char) {
    var n := c as int;
    || 0x09 <= n <= 0x0d || 0x1c <= n <= 0x20 || n == 0x85 || n == 0xa0 || n == 0x1680 || 0x2000 <= n <= 0x200a
    || n == 0x2028 || n == 0x2029 || n == 0x202f || n == 0x205f || n == 0x3000
  }

  predicate IsLineBreak(c: char) {
    var n := c as int;
    0x0a <= n <= 0x0d || 0x1c <= n <= 0x1e || n == 0x85 || n == 0x2028 || n == 0x2029
  }

  function WordLength(s: string): (n: nat)
    ensures n <= |s| && (s != "" && !IsSpace(s[0]) ==> n > 0)
  {
    if s == "" || IsSpace(s[0]) then 0 else 1 + WordLength(s[1..])
  }

  /** `str.split()`. */
  function Split(s: string): seq<string>
    decreases |s|
  {
    if s == "" then []
    else if IsSpace(s[0]) then Split(s[1..])
    else [s[..WordLength(s)]] + Split(s[WordLength(s)..])
  }

  /** Lines so far, the current one, and whether the last character was a carriage return. */
  datatype Breaking = Breaking(lines: seq<string>, current: string, afterReturn: bool)

  function BreakLines(text: string): Breaking {
    if text == "" then Breaking([], "", false)
    else
      var c, b := text[|text| - 1], BreakLines(text[..|text| - 1]);
      if c == '\n' && b.afterReturn then Breaking(b.lines, "", false)
      else if IsLineBreak(c) then Breaking(b.lines + [b.current], "", c == '\r')
      else Breaking(b.lines, b.current + [c], false)
  }

  /** `str.splitlines()`. */
  function SplitLines(text: string): seq<string> {
    var b := BreakLines(text);
    if b.current == "" then b.lines else b.lines + [b.current]
  }

  // -- field checks

  predicate IsUint(s: string) {
    s != "" && AllDigits(s)
  }

  predicate IsHex32(s: string) {
    |s| == 10 && s[..2] == "0x" && AllHex(s[2..])
  }

  predicate IsHex256(s: string) {
    |s| == 64 && AllHex(s)
  }

  // -- the parsed document

  /** A row is the sequence of its fields, in column order. */
  datatype Entry = Entry(fields: seq<string>, endpoints: map<string, seq<string>>, mac: Option<seq<string>>)

  datatype EvidenceEntry = EvidenceEntry(fields: seq<string>, mac: Option<seq<string>>)

  datatype Doc = Doc(records: seq<Entry>, evidence: seq<EvidenceEntry>, tables: set<string>)

  function TableNames(): set<string> {
    {"audit", "audit_endpoint", "audit_mac", "evidence", "evidence_mac"}
  }

  predicate IsRole(s: string) {
    s == "client" || s == "listen" || s == "target" || s == "backend"
  }

  /** The newest record with this sequence text; for a tag, one that has none yet. */
  function FindRecord(records: seq<Entry>, n: string, forMac: bool): (r: Option<nat>)
    requires forall i :: 0 <= i < |records| ==> |records[i].fields| == 10
    ensures r.Some? ==> r.value < |records|
  {
    if records == [] then None
    else
      var k := |records| - 1;
      if records[k].fields[0] == n && (!forMac || records[k].mac.None?) then Some(k)
      else FindRecord(records[..k], n, forMac)
  }

  function FindEvidence(records: seq<EvidenceEntry>, n: string): (r: Option<nat>)
    requires forall i :: 0 <= i < |records| ==> |records[i].fields| == 19
    ensures r.Some? ==> r.value < |records|
  {
    if records == [] then None
    else
      var k := |records| - 1;
      if records[k].fields[0] == n && records[k].mac.None? then Some(k) else FindEvidence(records[..k], n)
  }

  predicate Shaped(d: Doc) {
    && (forall i :: 0 <= i < |d.records| ==> |d.records[i].fields| == 10)
    && (forall i :: 0 <= i < |d.evidence| ==> |d.evidence[i].fields| == 19)
  }

  predicate AuditRowOk(f: seq<string>) {
    && |f| == 10
    && IsUint(f[0]) && IsUint(f[1]) && IsUint(f[3]) && IsUint(f[4]) && IsUint(f[5]) && IsUint(f[6]) && IsUint(f[8])
    && IsHex32(f[9]) && f[0] == f[4] && KindFromText(f[2]).Some? && Safe(f[7], REASON_TEXT, false)
  }

  predicate EndpointRowOk(f: seq<string>) {
    && |f| == 4 && IsUint(f[0]) && IsUint(f[3]) && Value(f[3]) < U16 && IsRole(f[1])
    && Safe(f[2], if f[1] == "client" || f[1] == "backend" then IP_TEXT else HOST_TEXT, true)
  }

  predicate MacRowOk(f: seq<string>) {
    |f| == 3 && IsUint(f[0]) && IsHex32(f[1]) && IsHex256(f[2])
  }

  predicate EvidenceRowIsOk(f: seq<string>) {
    && |f| == 19 && IsUint(f[0]) && IsUint(f[2]) && (forall i :: 5 <= i < 13 ==> IsUint(f[i]))
    && IsHex32(f[3]) && IsHex32(f[4]) && (forall i :: 13 <= i < 19 ==> IsHex32(f[i]))
    && Safe(f[1], REASON_TEXT, false)
  }

  function OnTable(d: Doc, tokens: seq<string>): Option<Doc> {
    if |tokens| >= 3 && tokens[1] in TableNames() then Some(d.(tables := d.tables + {tokens[1]})) else None
  }

  function OnEndpointRow(d: Doc, f: seq<string>): Option<Doc>
    requires Shaped(d) && EndpointRowOk(f)
  {
    var k :- FindRecord(d.records, f[0], false);
    var e := d.records[k];
    if f[1] in e.endpoints then None
    else Some(d.(records := d.records[k := e.(endpoints := e.endpoints[f[1] := f])]))
  }

  function OnMacRow(d: Doc, f: seq<string>): Option<Doc>
    requires Shaped(d) && MacRowOk(f)
  {
    var k :- FindRecord(d.records, f[0], true);
    Some(d.(records := d.records[k := d.records[k].(mac := Some(f))]))
  }

  function OnEvidenceMacRow(d: Doc, f: seq<string>): Option<Doc>
    requires Shaped(d) && MacRowOk(f)
  {
    var k :- FindEvidence(d.evidence, f[0]);
    Some(d.(evidence := d.evidence[k := d.evidence[k].(mac := Some(f))]))
  }

  function OnRow(d: Doc, head: string, f: seq<string>): (r: Option<Doc>)
    requires Shaped(d)
    ensures r.Some? ==> Shaped(r.value)
  {
    if head == "+audit" then
      if "audit" in d.tables && AuditRowOk(f) then Some(d.(records := d.records + [Entry(f, map[], None)])) else None
    else if head == "+audit_endpoint" then
      if "audit_endpoint" in d.tables && EndpointRowOk(f) then OnEndpointRow(d, f) else None
    else if head == "+audit_mac" then
      if "audit_mac" in d.tables && MacRowOk(f) then OnMacRow(d, f) else None
    else if head == "+evidence" then
      if "evidence" in d.tables && EvidenceRowIsOk(f) && Value(f[0]) == |d.evidence| + 1
      then Some(d.(evidence := d.evidence + [EvidenceEntry(f, None)])) else None
    else if head == "+evidence_mac" then
      if "evidence_mac" in d.tables && MacRowOk(f) then OnEvidenceMacRow(d, f) else None
    else None
  }

  function OnLine(d: Doc, line: string): (r: Option<Doc>)
    requires Shaped(d)
    ensures r.Some? ==> Shaped(r.value)
  {
    if line == "" || line[0] == '#' then Some(d)
    else if StartsWith(line, "@table ") then OnTable(d, Split(line))
    else if line[0] == '@' then Some(d)
    else
      var tokens := Split(line);
      if tokens == [] then Some(d) else OnRow(d, tokens[0], tokens[1..])
  }

  function OnLines(d: Doc, ls: seq<string>): (r: Option<Doc>)
    requires Shaped(d)
    ensures r.Some? ==> Shaped(r.value)
  {
    if ls == [] then Some(d)
    else
      var before :- OnLines(d, ls[..|ls| - 1]);
      OnLine(before, ls[|ls| - 1])
  }

  function Empty(): Doc {
    Doc([], [], {})
  }

  /** The parser: the first line names the format, two tables are required, and one record. */
  function ParsePxf(text: string): (r: Option<Doc>)
    ensures r.Some? ==> Shaped(r.value)
  {
    var ls := SplitLines(text);
    if ls == [] || ls[0] != "pxf/1" then None
    else
      var d :- OnLines(Empty(), ls[1..]);
      if "audit" in d.tables && "audit_endpoint" in d.tables && d.records != [] then Some(d) else None
  }

  // -- verification

  function PeerOf(f: seq<string>): Endpoint
    requires EndpointRowOk(f)
  {
    Endpoint(f[2], Value(f[3]))
  }

  predicate FourRoles(m: map<string, seq<string>>) {
    && "client" in m && EndpointRowOk(m["client"]) && "listen" in m && EndpointRowOk(m["listen"])
    && "target" in m && EndpointRowOk(m["target"]) && "backend" in m && EndpointRowOk(m["backend"])
  }

  function RowOf(f: seq<string>): AuditRow
    requires AuditRowOk(f)
  {
    AuditRow(Value(f[0]), Value(f[1]), KindFromText(f[2]).value, Value(f[3]), Value(f[4]), Value(f[5]), Value(f[6]),
             f[7], Value(f[8]), 0)
  }

  function PeersFrom(m: map<string, seq<string>>): Peers
    requires FourRoles(m)
  {
    Peers(PeerOf(m["client"]), PeerOf(m["listen"]), PeerOf(m["target"]), PeerOf(m["backend"]))
  }

  /** The authenticated text, joined from the fields as they stand in the file. */
  function Message(e: Entry): string
    requires AuditRowOk(e.fields) && FourRoles(e.endpoints)
  {
    var m := e.endpoints;
    Join(["audit/v1"] + e.fields[..9] + [LowerAll(e.fields[9])]
         + [m["client"][2], m["client"][3], m["listen"][2], m["listen"][3],
            m["target"][2], m["target"][3], m["backend"][2], m["backend"][3]], '|')
  }

  predicate MacVerifies(key: Key, mac: Option<seq<string>>, message: string) {
    mac.Some? && MacRowOk(mac.value) && LowerAll(mac.value[1]) == Hex32(key.fingerprint)
    && LowerAll(mac.value[2]) == key.tag(message)
  }

  /** One record at position `n`: sequential, complete, with the right checksum and tag. */
  predicate EntryVerifies(env: Env, e: Entry, n: nat) {
    && AuditRowOk(e.fields) && Value(e.fields[0]) == n && FourRoles(e.endpoints)
    && LowerAll(e.fields[9]) == Hex32(AuditCrc(env, RowOf(e.fields), PeersFrom(e.endpoints)))
    && (env.key.Some? ==> MacVerifies(env.key.value, e.mac, Message(e)))
  }

  function Values(ts: seq<string>): seq<nat>
    requires forall i :: 0 <= i < |ts| ==> IsUint(ts[i])
  {
    if ts == [] then [] else assert IsUint(ts[0]); [Value(ts[0])] + Values(ts[1..])
  }

  function HexValues(ts: seq<string>): seq<nat>
    requires forall i :: 0 <= i < |ts| ==> IsHex32(ts[i])
  {
    if ts == [] then [] else assert IsHex32(ts[0]); [HexValue(ts[0][2..])] + HexValues(ts[1..])
  }

  function EvidenceOf(f: seq<string>): Evidence
    requires EvidenceRowIsOk(f)
  {
    Evidence(f[1], Value(f[2]), HexValue(f[3][2..]), HexValue(f[4][2..]), Values(f[5..13]), HexValues(f[13..18]))
  }

  function EvidenceText(f: seq<string>): string
    requires EvidenceRowIsOk(f)
  {
    Join(["evidence/v1", f[0], f[1], f[2], LowerAll(f[3]), LowerAll(f[4])] + f[5..13]
         + [LowerAll(f[13]), LowerAll(f[14]), LowerAll(f[15]), LowerAll(f[16]), LowerAll(f[17]), LowerAll(f[18])], '|')
  }

  predicate EvidenceVerifies(env: Env, e: EvidenceEntry) {
    && EvidenceRowIsOk(e.fields)
    && LowerAll(e.fields[18]) == Hex32(EvidenceCrc(env, Value(e.fields[0]), EvidenceOf(e.fields)))
    && (env.key.Some? ==> MacVerifies(env.key.value, e.mac, EvidenceText(e.fields)))
  }

  datatype Report = Report(records: nat, macs: nat, evidence: nat, evidenceMacs: nat)

  function CountMacs(records: seq<Entry>): nat {
    if records == [] then 0
    else CountMacs(records[..|records| - 1]) + (if records[|records| - 1].mac.Some? then 1 else 0)
  }

  function CountEvidenceMacs(records: seq<EvidenceEntry>): nat {
    if records == [] then 0
    else CountEvidenceMacs(records[..|records| - 1]) + (if records[|records| - 1].mac.Some? then 1 else 0)
  }

  predicate DocVerifies(env: Env, d: Doc) {
    && (forall i :: 0 <= i < |d.records| ==> EntryVerifies(env, d.records[i], i + 1))
    && (forall i :: 0 <= i < |d.evidence| ==> EvidenceVerifies(env, d.evidence[i]))
  }

  /** Verification with sequential numbers required, and with the log's key if it has one. */
  function Verify(env: Env, text: string): Option<Report> {
    var d :- ParsePxf(text);
    if DocVerifies(env, d) then
      Some(Report(|d.records|, CountMacs(d.records), |d.evidence|, CountEvidenceMacs(d.evidence)))
    else None
  }

  // -- the loops

  method FindRelated(records: seq<Entry>, n: string, forMac: bool) returns (r: Option<nat>)
    requires forall i :: 0 <= i < |records| ==> |records[i].fields| == 10
    ensures r == FindRecord(records, n, forMac)
  {
    var k := |records|;
    assert records[..k] == records;
    while k > 0
      invariant 0 <= k <= |records|
      invariant FindRecord(records, n, forMac) == FindRecord(records[..k], n, forMac)
    {
      k := k - 1;
      assert records[..k + 1][..k] == records[..k];
      if records[k].fields[0] == n && (!forMac || records[k].mac.None?) {
        return Some(k);
      }
    }
    return None;
  }

  lemma {:induction false} LinesStuck(d: Doc, ls: seq<string>, k: nat)
    requires Shaped(d) && k <= |ls| && OnLines(d, ls[..k]).None?
    ensures OnLines(d, ls).None?
  {
    hide OnLine;
    if k == |ls| {
      assert ls[..k] == ls;
    } else {
      assert ls[..|ls| - 1][..k] == ls[..k];
      LinesStuck(d, ls[..|ls| - 1], k);
    }
  }

  method Parse(text: string) returns (r: Option<Doc>)
    ensures r == ParsePxf(text)
  {
    hide OnLine, SplitLines;
    var ls := SplitLines(text);
    if ls == [] || ls[0] != "pxf/1" {
      return None;
    }
    var body := ls[1..];
    var d := Empty();
    for i := 0 to |body|
      invariant Shaped(d) && OnLines(Empty(), body[..i]) == Some(d)
    {
      assert body[..i + 1][..i] == body[..i];
      var next := OnLine(d, body[i]);
      if next.None? {
        LinesStuck(Empty(), body, i + 1);
        return None;
      }
      d := next.value;
    }
    assert body[..|body|] == body;
    if "audit" !in d.tables || "audit_endpoint" !in d.tables || d.records == [] {
      return None;
    }
    return Some(d);
  }

  method Check(env: Env, text: string) returns (r: Option<Report>)
    ensures r == Verify(env, text)
  {
    hide ParsePxf, EntryVerifies, EvidenceVerifies;
    var parsed := Parse(text);
    if parsed.None? {
      return None;
    }
    var d := parsed.value;
    var macs: nat, evidenceMacs: nat := 0, 0;
    for i := 0 to |d.records|
      invariant forall j :: 0 <= j < i ==> EntryVerifies(env, d.records[j], j + 1)
      invariant macs == CountMacs(d.records[..i])
    {
      assert d.records[..i + 1][..i] == d.records[..i];
      if d.records[i].mac.Some? {
        macs := macs + 1;
      }
      if !EntryVerifies(env, d.records[i], i + 1) {
        return None;
      }
    }
    assert d.records[..|d.records|] == d.records;
    for i := 0 to |d.evidence|
      invariant forall j :: 0 <= j < i ==> EvidenceVerifies(env, d.evidence[j])
      invariant evidenceMacs == CountEvidenceMacs(d.evidence[..i])
    {
      assert d.evidence[..i + 1][..i] == d.evidence[..i];
      if !EvidenceVerifies(env, d.evidence[i]) {
        return None;
      }
      if d.evidence[i].mac.Some? {
        evidenceMacs := evidenceMacs + 1;
      }
    }
    assert d.evidence[..|d.evidence|] == d.evidence;
    return Some(Report(|d.records|, macs, |d.evidence|, evidenceMacs));
  }
}
