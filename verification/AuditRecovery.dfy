/**
 Restart recovery: what the writer appends, the scanner reads back, one record after another,
 and a record out of sequence stops it.
 */
module AuditRecovery {
  import opened Bytes
  import opened Digits
  import opened Tokens
  import opened AuditLog
  import opened AuditText
  import opened AuditScan

  // -- rows round trip

  lemma NarrowFields(f: seq<string>, caps: seq<nat>)
    requires f != [] && |f| == |caps| && Narrows(f, 31) && forall i :: 0 <= i < |caps| ==> caps[i] >= 32
    ensures Fields(Join(f, ' '), caps) == Some(f)
  {
    forall i | 0 <= i < |f| ensures Clean(f[i]) && |f[i]| < caps[i] {
      assert Narrow(f[i], 31);
    }
    FieldsOfJoin(f, caps);
  }

  lemma AuditRowRoundTrip(row: AuditRow)
    requires RowOk(row)
    ensures ParseAuditRow(Join(AuditFields(row), ' ')) == Some(row)
  {
    AuditFieldsNarrow(row);
    NarrowFields(AuditFields(row), [64, 64, 32, 64, 64, 64, 64, REASON_TEXT, 64, 64]);
    DecimalRoundTrip(row.seqNo);
    DecimalRoundTrip(row.requestNo);
    DecimalRoundTrip(row.eventNo);
    DecimalRoundTrip(row.totalEvents);
    DecimalRoundTrip(row.timeNs);
    DecimalRoundTrip(row.session);
    DecimalRoundTrip(row.durationNs);
    Hex32RoundTrip(row.crc);
    KindRoundTrip(row.kind);
    hide Fields, Decimal, Hex32, ParseU64, ParseHex32, KindText, KindFromText, Join, AllClean, Narrows;
  }

  lemma KindRoundTrip(k: Kind)
    ensures KindFromText(KindText(k)) == Some(k)
  {
  }

  lemma RoleRoundTrip(r: Role)
    ensures RoleFromText(RoleText(r)) == Some(r)
  {
  }

  lemma EndpointRoundTrip(n: nat, r: Role, e: Endpoint)
    requires n < U64 && PeerOk(r, e)
    ensures ParseEndpointRow(Join(EndpointFields(n, r, e), ' ')) == Some(ParsedEndpoint(n, r, e))
  {
    EndpointFieldsClean(n, r, e);
    FieldsOfJoin(EndpointFields(n, r, e), [64, 16, HOST_TEXT, 64]);
    DecimalRoundTrip(n);
    DecimalRoundTrip(e.port);
    RoleRoundTrip(r);
    hide Fields, Decimal, ParseU64, RoleText, RoleFromText, Join, AllClean, Cleans;
  }

  lemma MacRoundTrip(n: nat, key: Key, message: string)
    requires n < U64 && KeyOk(key)
    ensures ParseMacRow(Join(MacFields(n, key.fingerprint, key.tag(message)), ' '))
         == Some(ParsedMac(n, key.fingerprint, key.tag(message)))
  {
    MacFieldsClean(n, key, message);
    FieldsOfJoin(MacFields(n, key.fingerprint, key.tag(message)), [64, 64, 65]);
    DecimalRoundTrip(n);
    Hex32RoundTrip(key.fingerprint);
    assert IsTag(key.tag(message));
    hide Fields, Decimal, Hex32, ParseU64, ParseHex32, Join, AllClean, Cleans;
  }

  lemma {:induction false} DecimalsRoundTrip(ns: seq<nat>)
    requires forall i :: 0 <= i < |ns| ==> ns[i] < U64
    ensures ParseU64s(Decimals(ns)) == Some(ns)
  {
    if ns != [] {
      DecimalRoundTrip(ns[0]);
      DecimalsRoundTrip(ns[1..]);
      assert ns == [ns[0]] + ns[1..];
    }
  }

  lemma {:induction false} HexesRoundTrip(ns: seq<nat>)
    requires forall i :: 0 <= i < |ns| ==> ns[i] < U32
    ensures ParseHex32s(Hexes(ns)) == Some(ns)
  {
    if ns != [] {
      Hex32RoundTrip(ns[0]);
      HexesRoundTrip(ns[1..]);
      assert ns == [ns[0]] + ns[1..];
    }
  }

  lemma EvidenceRowRoundTrip(row: EvidenceRow)
    requires EvidenceRowOk(row)
    ensures ParseEvidenceRow(Join(EvidenceFields(row), ' ')) == Some(row)
  {
    hide Fields, Decimal, Hex32, ParseU64, ParseHex32, Join, AllClean, Narrows, Decimals, Hexes, ParseU64s, ParseHex32s,
         Safe, EvidenceCaps, EvidenceValues;
    var e := row.evidence;
    EvidenceFieldsNarrow(row);
    var f := EvidenceFields(row);
    NarrowFields(f, EvidenceCaps());
    DecimalRoundTrip(row.seqNo);
    DecimalRoundTrip(e.timeNs);
    Hex32RoundTrip(e.status);
    Hex32RoundTrip(e.failureMask);
    Hex32RoundTrip(row.crc);
    DecimalsRoundTrip(e.patrols);
    HexesRoundTrip(e.settings);
    assert f[5..13] == Decimals(e.patrols) && f[13..18] == Hexes(e.settings);
  }

  // -- single lines

  lemma StartsWithHead(head: string, body: string)
    ensures StartsWith(head + " " + body, head + " ") && (head + " " + body)[|head| + 1..] == body
  {
    assert head + " " + body == (head + " ") + body;
  }

  lemma DiffersAt(line: string, prefix: string, k: nat)
    requires k < |line| && k < |prefix| && line[k] != prefix[k]
    ensures !StartsWith(line, prefix)
  {
  }

  lemma ClassifyRow(head: string, body: string)
    ensures var line := head + " " + body;
            && (head == "+audit" ==> Classify(line) == AuditLine(body))
            && (head == "+audit_endpoint" ==> Classify(line) == EndpointLine(body))
            && (head == "+audit_mac" ==> Classify(line) == MacLine(body))
            && (head == "+evidence" ==> Classify(line) == EvidenceLine(body))
            && (head == "+evidence_mac" ==> Classify(line) == EvidenceMacLine(body))
  {
    var line := head + " " + body;
    StartsWithHead(head, body);
    if head == "+audit" {
      assert head + " " == "+audit ";
    } else if head == "+audit_endpoint" {
      assert head + " " == "+audit_endpoint ";
      DiffersAt(line, "+audit ", 6);
    } else if head == "+audit_mac" {
      assert head + " " == "+audit_mac ";
      DiffersAt(line, "+audit ", 6);
      DiffersAt(line, "+audit_endpoint ", 7);
    } else if head == "+evidence" || head == "+evidence_mac" {
      DiffersAt(line, "+audit ", 1);
      DiffersAt(line, "+audit_endpoint ", 1);
      DiffersAt(line, "+audit_mac ", 1);
      if head == "+evidence" {
        assert head + " " == "+evidence ";
      } else {
        assert head + " " == "+evidence_mac ";
        DiffersAt(line, "+evidence ", 9);
      }
    }
    hide StartsWith;
  }

  lemma RowLine(env: Env, s: Scan, head: string, fields: seq<string>, w: nat)
    requires |s.counts| == KINDS && Short(Row(head, fields), w)
    ensures var line := Row(head, fields);
            CompleteLine(env, s, line) == ProcessLine(env, s, line) && CString(line) == head + " " + Join(fields, ' ')
  {
    CStringOfPrintable(Row(head, fields));
    hide CString, ProcessLine, Join, Finalize;
  }

  /** Comments and table declarations leave the scanner alone. */
  lemma OnNoteLine(env: Env, s: Scan, line: string, w: nat)
    requires |s.counts| == KINDS && Short(line, w) && line != "" && (line[0] == '#' || line[0] == '@')
    ensures CompleteLine(env, s, line) == Some(s)
  {
    CStringOfPrintable(line);
    hide CString;
    DiffersAt(line, "+audit ", 0);
    DiffersAt(line, "+audit_endpoint ", 0);
    DiffersAt(line, "+audit_mac ", 0);
    DiffersAt(line, "+evidence ", 0);
    DiffersAt(line, "+evidence_mac ", 0);
    hide StartsWith;
  }

  predicate AreComments(ls: seq<string>) {
    forall i :: 0 <= i < |ls| ==> ls[i] != "" && ls[i][0] == '#'
  }

  lemma CommentsAreNotes(ls: seq<string>)
    requires AreComments(ls)
    ensures AreNotes(ls)
  {
  }

  predicate AreNotes(ls: seq<string>) {
    forall i :: 0 <= i < |ls| ==> ls[i] != "" && (ls[i][0] == '#' || ls[i][0] == '@')
  }

  lemma {:induction false} OnNotes(env: Env, s: Scan, ls: seq<string>, w: nat)
    requires |s.counts| == KINDS && Shorts(ls, w) && AreNotes(ls)
    ensures ScanLines(env, s, ls) == Some(s)
  {
    hide CompleteLine, Short;
    if ls != [] {
      var n := |ls| - 1;
      OnNotes(env, s, ls[..n], w);
      assert Short(ls[n], w);
      OnNoteLine(env, s, ls[n], w);
    }
  }

  lemma ScanOne(env: Env, s: Scan, line: string)
    requires |s.counts| == KINDS
    ensures ScanLines(env, s, [line]) == CompleteLine(env, s, line)
  {
    assert [line][..0] == [];
    assert ScanLines(env, s, []) == Some(s);
  }

  // -- a whole audit record

  /** The scanner stands between records. */
  predicate Quiet(s: Scan) {
    |s.counts| == KINDS && s.audit.None? && s.evidence.None?
  }

  lemma ScanEndpoint(env: Env, s: Scan, n: nat, r: Role, e: Endpoint)
    requires |s.counts| == KINDS && n < U64 && PeerOk(r, e)
    requires s.audit.Some? && s.audit.value.row.seqNo == n && r !in s.audit.value.endpoints
    ensures var p := s.audit.value;
            ScanLines(env, s, [EndpointRow(n, r, e)]) == Some(s.(audit := Some(p.(endpoints := p.endpoints[r := e]))))
  {
    hide ParseEndpointRow, CompleteLine, Classify, EndpointFields, Row, Join, ScanLines, PeerOk, CString;
    EndpointRowShort(n, r, e);
    EndpointRoundTrip(n, r, e);
    var f := EndpointFields(n, r, e);
    RowLine(env, s, "+audit_endpoint", f, HostCap(r) + 52);
    ClassifyRow("+audit_endpoint", Join(f, ' '));
    ScanOne(env, s, EndpointRow(n, r, e));
  }

  lemma ScanEndpoints(env: Env, s: Scan, n: nat, ps: Peers)
    requires |s.counts| == KINDS && n < U64 && PeersOk(ps)
    requires s.audit.Some? && s.audit.value.row.seqNo == n && s.audit.value.endpoints == map[]
    ensures var p := s.audit.value;
            var m := map[Client := ps.client, Listen := ps.listen, Target := ps.target, Backend := ps.backend];
            ScanLines(env, s, EndpointRows(n, ps)) == Some(s.(audit := Some(p.(endpoints := m))))
  {
    hide ScanLines, EndpointRow, PeerOk;
    var p := s.audit.value;
    var a, b := [EndpointRow(n, Client, ps.client)], [EndpointRow(n, Listen, ps.listen)];
    var c, d := [EndpointRow(n, Target, ps.target)], [EndpointRow(n, Backend, ps.backend)];
    var m1 := map[Client := ps.client];
    var m2 := m1[Listen := ps.listen];
    var m3 := m2[Target := ps.target];
    var s1 := s.(audit := Some(p.(endpoints := m1)));
    var s2 := s.(audit := Some(p.(endpoints := m2)));
    var s3 := s.(audit := Some(p.(endpoints := m3)));
    assert p.endpoints[Client := ps.client] == m1;
    ScanEndpoint(env, s, n, Client, ps.client);
    ScanEndpoint(env, s1, n, Listen, ps.listen);
    ScanConcat(env, s, a, b);
    ScanEndpoint(env, s2, n, Target, ps.target);
    ScanConcat(env, s, a + b, c);
    ScanEndpoint(env, s3, n, Backend, ps.backend);
    ScanConcat(env, s, a + b + c, d);
    assert EndpointRows(n, ps) == a + b + c + d;
    assert m3[Backend := ps.backend]
        == map[Client := ps.client, Listen := ps.listen, Target := ps.target, Backend := ps.backend];
  }

  lemma ScanAuditRow(env: Env, s: Scan, row: AuditRow)
    requires Quiet(s) && RowOk(row) && Continues(s, row)
    ensures ScanLines(env, s, [Row("+audit", AuditFields(row))]) == Some(s.(audit := Some(Pending(row, map[], None))))
  {
    hide ParseAuditRow, CompleteLine, Classify, AuditFields, Row, Join, ScanLines, RowOk, CString;
    AuditRowShort(row);
    AuditRowRoundTrip(row);
    RowLine(env, s, "+audit", AuditFields(row), 327);
    ClassifyRow("+audit", Join(AuditFields(row), ' '));
    ScanOne(env, s, Row("+audit", AuditFields(row)));
  }

  /** What the scanner keeps of a record's tag. */
  function MacOf(env: Env, row: AuditRow, ps: Peers): Option<ParsedMac> {
    if env.key.None? then None
    else Some(ParsedMac(row.seqNo, env.key.value.fingerprint, env.key.value.tag(AuditMessage(row, ps))))
  }

  function MacBody(n: nat, key: Key, m: string): string {
    Join(MacFields(n, key.fingerprint, key.tag(m)), ' ')
  }

  lemma ScanMacRow(env: Env, s: Scan, head: string, n: nat, key: Key, m: string)
    requires |s.counts| == KINDS && KeyOk(key) && n < U64 && (head == "+audit_mac" || head == "+evidence_mac")
    ensures ScanLines(env, s, [MacRow(head, n, key, m)])
         == if head == "+audit_mac" then OnMac(env, s, MacBody(n, key, m))
            else OnEvidenceMac(env, s, MacBody(n, key, m))
  {
    hide CompleteLine, Classify, MacFields, Join, ScanLines, CString, OnMac, OnEvidenceMac, KeyOk;
    assert Printable(head);
    MacRowShort(head, n, key, m);
    RowLine(env, s, head, MacFields(n, key.fingerprint, key.tag(m)), 110);
    ClassifyRow(head, MacBody(n, key, m));
    ScanOne(env, s, MacRow(head, n, key, m));
  }

  lemma ScanAuditMac(env: Env, s: Scan, ps: Peers)
    requires |s.counts| == KINDS && Keyed(env) && s.audit.Some? && RowOk(s.audit.value.row) && s.audit.value.mac.None?
    ensures var p := s.audit.value;
            ScanLines(env, s, AuditMac(env, p.row, ps)) == Some(s.(audit := Some(p.(mac := MacOf(env, p.row, ps)))))
  {
    hide ParseMacRow, MacFields, Join, MacRow, AuditMessage;
    var row := s.audit.value.row;
    if env.key.Some? {
      var key, m := env.key.value, AuditMessage(row, ps);
      MacRoundTrip(row.seqNo, key, m);
      ScanMacRow(env, s, "+audit_mac", row.seqNo, key, m);
    }
    hide RowOk;
  }

  /** A blank line ends a sealed record. */
  lemma ScanBlank(env: Env, s: Scan)
    requires |s.counts| == KINDS
    ensures ScanLines(env, s, [""]) == Finalize(env, s)
  {
    ScanOne(env, s, "");
    assert CString("") == "";
    hide Finalize;
  }

  lemma SealedRecord(env: Env, row: AuditRow, ps: Peers, p: Pending)
    requires RowOk(row) && PeersOk(ps) && Keyed(env) && row.crc == AuditCrc(env, row, ps)
    requires p.row == row
    requires p.endpoints == map[Client := ps.client, Listen := ps.listen, Target := ps.target, Backend := ps.backend]
    requires p.mac == MacOf(env, row, ps)
    ensures Sealed(env, p)
  {
    assert PeersOf(p.endpoints) == ps;
    AuditMessageFits(row, ps);
    if env.key.Some? {
      assert IsTag(env.key.value.tag(AuditMessage(row, ps)));
    }
    hide AuditCrc, AuditMessage, RowOk, PeersOk;
  }

  lemma ScanAuditRows(env: Env, s: Scan, row: AuditRow, ps: Peers)
    requires Quiet(s) && RowOk(row) && PeersOk(ps) && Keyed(env) && Continues(s, row)
    requires row.crc == AuditCrc(env, row, ps)
    ensures ScanLines(env, s, [Row("+audit", AuditFields(row))] + EndpointRows(row.seqNo, ps) + AuditMac(env, row, ps)
                              + [""])
         == Some(s.(lastSeq := row.seqNo, counts := s.counts[KindIndex(row.kind) := row.eventNo]))
  {
    ScanAuditRow(env, s, row);
    var s1 := s.(audit := Some(Pending(row, map[], None)));
    ScanEndpoints(env, s1, row.seqNo, ps);
    hide EndpointRows, Row, AuditFields, ScanLines, RowOk, AuditCrc, AuditMac, PeersOk, Continues, AuditMessage;
    var a, b, c := [Row("+audit", AuditFields(row))], EndpointRows(row.seqNo, ps), AuditMac(env, row, ps);
    ScanConcat(env, s, a, b);
    var m := map[Client := ps.client, Listen := ps.listen, Target := ps.target, Backend := ps.backend];
    var s2 := s.(audit := Some(Pending(row, m, None)));
    assert ScanLines(env, s, a + b) == Some(s2);
    ScanAuditMac(env, s2, ps);
    ScanConcat(env, s, a + b, c);
    var s3 := ScanLines(env, s, a + b + c).value;
    SealedRecord(env, row, ps, s3.audit.value);
    ScanBlank(env, s3);
    ScanConcat(env, s, a + b + c, [""]);
    hide Sealed;
  }

  /** One record, scanned from a quiet state, moves the counters as the writer moved them. */
  lemma ScanAuditRecord(env: Env, s: Scan, row: AuditRow, ps: Peers)
    requires Quiet(s) && RowOk(row) && PeersOk(ps) && Keyed(env) && Continues(s, row)
    requires row.crc == AuditCrc(env, row, ps)
    ensures ScanLines(env, s, AuditLines(env, row, ps))
         == Some(s.(lastSeq := row.seqNo, counts := s.counts[KindIndex(row.kind) := row.eventNo]))
  {
    hide AuditNotes, MacNotes, PeerNotes, EndpointRows, AuditFits, Row, AuditFields, ScanLines, RowOk,
         AuditCrc, AreNotes, AuditMac, PeersOk, Continues, AuditMessage, Shorts;
    var notes := AuditNotes(row) + (if env.key.None? then [] else MacNotes("", env.key.value, AuditMessage(row, ps)))
                 + PeerNotes(ps);
    AuditLinesFit(env, row, ps);
    AuditNotesAreComments(env, row, ps);
    CommentsAreNotes(notes);
    ScanAuditRows(env, s, row, ps);
    var rest := [Row("+audit", AuditFields(row))] + EndpointRows(row.seqNo, ps) + AuditMac(env, row, ps) + [""];
    assert AuditLines(env, row, ps) == notes + rest;
    ShortsPrefix(notes, rest, 327);
    OnNotes(env, s, notes, 327);
    ScanConcat(env, s, notes, rest);
  }

  /** A record that does not continue the counts stops the scan. */
  lemma ScanAuditGap(env: Env, s: Scan, row: AuditRow, ps: Peers)
    requires Quiet(s) && RowOk(row) && PeersOk(ps) && Keyed(env) && !Continues(s, row)
    ensures ScanLines(env, s, AuditLines(env, row, ps)) == None
  {
    hide AuditNotes, MacNotes, PeerNotes, EndpointRows, AuditFits, Row, AuditFields, ScanLines, RowOk,
         AreNotes, AuditMac, PeersOk, Continues, AuditMessage, Shorts;
    var notes := AuditNotes(row) + (if env.key.None? then [] else MacNotes("", env.key.value, AuditMessage(row, ps)))
                 + PeerNotes(ps);
    AuditLinesFit(env, row, ps);
    AuditNotesAreComments(env, row, ps);
    CommentsAreNotes(notes);
    var first, rest := [Row("+audit", AuditFields(row))], EndpointRows(row.seqNo, ps) + AuditMac(env, row, ps) + [""];
    assert AuditLines(env, row, ps) == notes + (first + rest);
    ShortsPrefix(notes, first + rest, 327);
    OnNotes(env, s, notes, 327);
    ScanConcat(env, s, notes, first + rest);
    AuditRowStops(env, s, row);
    assert (first + rest)[..1] == first;
    ScanStuck(env, s, first + rest, 1);
  }

  lemma AuditRowStops(env: Env, s: Scan, row: AuditRow)
    requires Quiet(s) && RowOk(row) && !Continues(s, row)
    ensures ScanLines(env, s, [Row("+audit", AuditFields(row))]) == None
  {
    hide ParseAuditRow, CompleteLine, Classify, AuditFields, Row, Join, ScanLines, RowOk, CString;
    AuditRowShort(row);
    AuditRowRoundTrip(row);
    RowLine(env, s, "+audit", AuditFields(row), 327);
    ClassifyRow("+audit", Join(AuditFields(row), ' '));
    ScanOne(env, s, Row("+audit", AuditFields(row)));
  }

  lemma ShortsPrefix(a: seq<string>, b: seq<string>, w: nat)
    requires Shorts(a + b, w)
    ensures Shorts(a, w)
  {
    forall i | 0 <= i < |a| ensures Short(a[i], w) {
      assert (a + b)[i] == a[i];
    }
  }

  lemma CommentsConcat(a: seq<string>, b: seq<string>)
    requires AreComments(a) && AreComments(b)
    ensures AreComments(a + b)
  {
  }

  lemma NotesAreComments(title: string, names: seq<string>, values: seq<string>)
    requires |names| == |values| && title != "" && title[0] == '#'
    ensures AreComments([title] + Notes(names, values))
  {
    var ls := [title] + Notes(names, values);
    forall i | 0 <= i < |ls| ensures ls[i] != "" && ls[i][0] == '#' {
      if i > 0 {
        assert ls[i] == Note(names[i - 1], values[i - 1]);
      }
    }
  }

  lemma AuditNotesAreComments(env: Env, row: AuditRow, ps: Peers)
    ensures AreComments(AuditNotes(row)
                        + (if env.key.None? then [] else MacNotes("", env.key.value, AuditMessage(row, ps)))
                        + PeerNotes(ps))
  {
    assert AuditTitle()[0] == '#';
    NotesAreComments(AuditTitle(), AuditNames(), AuditFields(row));
    var b := if env.key.None? then [] else MacNotes("", env.key.value, AuditMessage(row, ps));
    assert AreComments(b);
    assert AreComments(PeerNotes(ps));
    hide AreComments, AuditNames, AuditFields, MacNotes, PeerNotes, AuditTitle, Notes;
    CommentsConcat(AuditNotes(row), b);
    CommentsConcat(AuditNotes(row) + b, PeerNotes(ps));
  }

  // -- a whole evidence record

  lemma ScanEvidenceRow(env: Env, s: Scan, row: EvidenceRow)
    requires Quiet(s) && EvidenceRowOk(row) && row.seqNo == (s.evidenceSeq + 1) % U64
    requires row.crc == EvidenceCrc(env, row.seqNo, row.evidence)
    ensures ScanLines(env, s, [Row("+evidence", EvidenceFields(row))])
         == Some(s.(evidence := Some(PendingEvidence(row, false)), evidenceSeq := row.seqNo))
  {
    hide ParseEvidenceRow, CompleteLine, Classify, EvidenceFields, Row, Join, ScanLines, EvidenceRowOk, CString,
         EvidenceCrc;
    EvidenceRowShort(row);
    EvidenceRowRoundTrip(row);
    RowLine(env, s, "+evidence", EvidenceFields(row), 618);
    ClassifyRow("+evidence", Join(EvidenceFields(row), ' '));
    ScanOne(env, s, Row("+evidence", EvidenceFields(row)));
  }

  lemma ScanEvidenceMac(env: Env, s: Scan)
    requires |s.counts| == KINDS && Keyed(env) && s.evidence.Some? && !s.evidence.value.macSeen
    requires EvidenceRowOk(s.evidence.value.row)
    ensures var p := s.evidence.value;
            ScanLines(env, s, EvidenceMac(env, p.row)) == Some(s.(evidence := Some(p.(macSeen := env.key.Some?))))
  {
    hide ParseMacRow, MacFields, Join, MacRow, EvidenceMessage, LowerAll;
    var row := s.evidence.value.row;
    if env.key.Some? {
      var key, m := env.key.value, EvidenceMessage(row);
      EvidenceMessageFits(row);
      MacRoundTrip(row.seqNo, key, m);
      ScanMacRow(env, s, "+evidence_mac", row.seqNo, key, m);
      assert IsTag(key.tag(m));
    }
    hide EvidenceRowOk;
  }

  lemma EvidenceNotesAreComments(env: Env, row: EvidenceRow)
    requires EvidenceShape(row.evidence)
    ensures AreComments(EvidenceNotes(row)
                     + (if env.key.None? then [] else MacNotes("evidence_", env.key.value, EvidenceMessage(row))))
  {
    assert EvidenceTitle()[0] == '#';
    NotesAreComments(EvidenceTitle(), EvidenceNames(), EvidenceValues(row));
    var b := if env.key.None? then [] else MacNotes("evidence_", env.key.value, EvidenceMessage(row));
    assert AreComments(b);
    hide AreComments, EvidenceNames, EvidenceValues, MacNotes, EvidenceTitle, Notes;
    CommentsConcat(EvidenceNotes(row), b);
  }

  lemma ScanEvidenceRows(env: Env, s: Scan, row: EvidenceRow)
    requires Quiet(s) && EvidenceRowOk(row) && Keyed(env) && row.seqNo == (s.evidenceSeq + 1) % U64
    requires row.crc == EvidenceCrc(env, row.seqNo, row.evidence)
    ensures ScanLines(env, s, [Row("+evidence", EvidenceFields(row))] + EvidenceMac(env, row) + [""])
         == Some(s.(evidenceSeq := row.seqNo))
  {
    ScanEvidenceRow(env, s, row);
    hide Row, EvidenceFields, ScanLines, EvidenceRowOk, EvidenceCrc, EvidenceMac;
    var a, b := [Row("+evidence", EvidenceFields(row))], EvidenceMac(env, row);
    var s1 := s.(evidence := Some(PendingEvidence(row, false)), evidenceSeq := row.seqNo);
    ScanEvidenceMac(env, s1);
    ScanConcat(env, s, a, b);
    ScanBlank(env, s1.(evidence := Some(PendingEvidence(row, env.key.Some?))));
    ScanConcat(env, s, a + b, [""]);
  }

  lemma ScanEvidenceRecord(env: Env, s: Scan, row: EvidenceRow)
    requires Quiet(s) && EvidenceRowOk(row) && Keyed(env) && row.seqNo == (s.evidenceSeq + 1) % U64
    requires row.crc == EvidenceCrc(env, row.seqNo, row.evidence)
    ensures ScanLines(env, s, EvidenceLines(env, row)) == Some(s.(evidenceSeq := row.seqNo))
  {
    hide EvidenceNotes, MacNotes, EvidenceFits, Row, EvidenceFields, ScanLines, EvidenceCrc, AreNotes, EvidenceMac,
         EvidenceMessage, Shorts;
    var notes := EvidenceNotes(row)
                 + (if env.key.None? then [] else MacNotes("evidence_", env.key.value, EvidenceMessage(row)));
    EvidenceLinesFit(env, row);
    EvidenceNotesAreComments(env, row);
    CommentsAreNotes(notes);
    ScanEvidenceRows(env, s, row);
    var rest := [Row("+evidence", EvidenceFields(row))] + EvidenceMac(env, row) + [""];
    assert EvidenceLines(env, row) == notes + rest;
    ShortsPrefix(notes, rest, 618);
    OnNotes(env, s, notes, 618);
    ScanConcat(env, s, notes, rest);
  }

  lemma EvidenceRowStops(env: Env, s: Scan, row: EvidenceRow)
    requires Quiet(s) && EvidenceRowOk(row) && row.seqNo != (s.evidenceSeq + 1) % U64
    ensures ScanLines(env, s, [Row("+evidence", EvidenceFields(row))]) == None
  {
    hide ParseEvidenceRow, CompleteLine, Classify, EvidenceFields, Row, Join, ScanLines, EvidenceRowOk, CString,
         EvidenceCrc;
    EvidenceRowShort(row);
    EvidenceRowRoundTrip(row);
    RowLine(env, s, "+evidence", EvidenceFields(row), 618);
    ClassifyRow("+evidence", Join(EvidenceFields(row), ' '));
    ScanOne(env, s, Row("+evidence", EvidenceFields(row)));
  }

  lemma ScanEvidenceGap(env: Env, s: Scan, row: EvidenceRow)
    requires Quiet(s) && EvidenceRowOk(row) && Keyed(env) && row.seqNo != (s.evidenceSeq + 1) % U64
    ensures ScanLines(env, s, EvidenceLines(env, row)) == None
  {
    hide EvidenceNotes, MacNotes, EvidenceFits, Row, EvidenceFields, ScanLines, AreNotes, EvidenceMac,
         EvidenceMessage, Shorts;
    var notes := EvidenceNotes(row)
                 + (if env.key.None? then [] else MacNotes("evidence_", env.key.value, EvidenceMessage(row)));
    EvidenceLinesFit(env, row);
    EvidenceNotesAreComments(env, row);
    CommentsAreNotes(notes);
    var first, rest := [Row("+evidence", EvidenceFields(row))], EvidenceMac(env, row) + [""];
    assert EvidenceLines(env, row) == notes + (first + rest);
    ShortsPrefix(notes, first + rest, 618);
    OnNotes(env, s, notes, 618);
    ScanConcat(env, s, notes, first + rest);
    EvidenceRowStops(env, s, row);
    assert (first + rest)[..1] == first;
    ScanStuck(env, s, first + rest, 1);
  }

  // -- the header

  lemma ToksClean(names: seq<string>, w: nat)
    requires Narrows(names, w)
    ensures Cleans(Toks(names)) && Narrows(Toks(names), w + 4)
  {
    forall i | 0 <= i < |names| ensures Narrow(Toks(names)[i], w + 4) {
      assert Narrow(names[i], w);
    }
  }

  lemma TableShort(name: string, columns: seq<string>)
    requires Narrow(name, 44) && Narrows(columns, 44) && |columns| <= 19
    ensures Short(Table(name, columns), 1000) && Table(name, columns) != "" && Table(name, columns)[0] == '@'
  {
    assert Printable("@table");
    NarrowsConcat([name], columns, 44);
    hide Narrow;
    NarrowsAreClean([name] + columns, 44);
    JoinLength([name] + columns, 44, ' ');
    hide Join, Narrows, Cleans;
    RowShort("@table", [name] + columns);
  }

  lemma ColumnsNarrow()
    ensures Narrows(EvidenceColumns(), 44) && |EvidenceColumns()| == 19
    ensures Narrows(MacColumns(), 44) && |MacColumns()| == 3
    ensures Narrows(Toks(AuditNames()), 44)
    ensures Narrows(["seq:tok", "role:tok", "host:host", "port:u16"], 44)
  {
    AuditNamesNarrow();
    EvidenceNamesNarrow();
    var names := ["seq"] + EvidenceNames()[1..];
    assert Narrows(["seq"], 40);
    assert Narrows(["seq", "key_fingerprint", "hmac_sha256"], 40);
    assert Narrows(["seq:tok", "role:tok", "host:host", "port:u16"], 44);
    hide Narrow, EvidenceNames, AuditNames;
    assert Narrows(EvidenceNames()[1..], 40);
    NarrowsConcat(["seq"], EvidenceNames()[1..], 40);
    ToksClean(names, 40);
    ToksClean(AuditNames(), 40);
    ToksClean(["seq", "key_fingerprint", "hmac_sha256"], 40);
  }

  lemma TablesArePlain()
    ensures |Tables()| == 5
    ensures forall i :: 0 <= i < 5 ==> Short(Tables()[i], 1000) && Tables()[i] != "" && Tables()[i][0] == '@'
  {
    hide Narrows, EvidenceColumns, MacColumns, AuditNames, Short, Table, Toks;
    ColumnsNarrow();
    assert Narrow("audit", 44) && Narrow("audit_endpoint", 44) && Narrow("audit_mac", 44);
    assert Narrow("evidence", 44) && Narrow("evidence_mac", 44);
    hide Narrow;
    TableShort("audit", Toks(AuditNames()));
    TableShort("audit_endpoint", ["seq:tok", "role:tok", "host:host", "port:u16"]);
    TableShort("audit_mac", MacColumns());
    TableShort("evidence", EvidenceColumns());
    TableShort("evidence_mac", MacColumns());
  }

  lemma HeaderIsPlain()
    ensures Shorts(HeaderLines(), 1000) && AreNotes(HeaderLines()[1..])
  {
    hide Tables;
    TablesArePlain();
    assert Short("pxf/1", 1000) && Short("# LLPS IP audit", 1000);
    hide Short;
    assert HeaderLines()[1..] == ["# LLPS IP audit"] + Tables();
  }

  lemma ScanHeader(env: Env)
    ensures ScanLines(env, Start(), HeaderLines()) == Some(Start())
  {
    HeaderIsPlain();
    var hs := HeaderLines();
    assert hs[0] == "pxf/1" && hs == ["pxf/1"] + hs[1..];
    assert CompleteLine(env, Start(), "pxf/1") == Some(Start()) by {
      assert Printable("pxf/1");
      CStringOfPrintable("pxf/1");
      hide CString;
    }
    ScanOne(env, Start(), "pxf/1");
    hide HeaderLines, CompleteLine, ScanLines, AreNotes;
    assert Shorts(hs[1..], 1000);
    OnNotes(env, Start(), hs[1..], 1000);
    ScanConcat(env, Start(), ["pxf/1"], hs[1..]);
  }
}
