/** The independent verifier agrees with the restart scanner on every log that the writer can produce. */
module AuditAgreement {
  import opened Bytes
  import opened Digits
  import opened Tokens
  import opened AuditLog
  import opened AuditText
  import opened AuditScan
  import opened AuditRecovery
  import opened AuditRuns
  import opened PxfVerifier

  // -- cutting text

  lemma {:induction false} WordOfClean(t: string, rest: string)
    requires (forall i :: 0 <= i < |t| ==> '!' <= t[i] <= '~') && (rest == "" || rest[0] == ' ')
    ensures WordLength(t + rest) == |t|
  {
    if t == "" {
      assert t + rest == rest;
    } else {
      assert (t + rest)[1..] == t[1..] + rest;
      WordOfClean(t[1..], rest);
    }
  }

  lemma SplitWord(t: string, rest: string)
    requires Clean(t) && (rest == "" || rest[0] == ' ')
    ensures Split(t + rest) == [t] + Split(rest)
  {
    WordOfClean(t, rest);
    assert (t + rest)[..|t|] == t && (t + rest)[|t|..] == rest;
  }

  lemma {:induction false} SplitSpaced(ts: seq<string>)
    requires Cleans(ts)
    ensures Split(Spaced(ts)) == ts
  {
    if ts != [] {
      var rest := Spaced(ts[1..]);
      SplitSpaced(ts[1..]);
      assert Clean(ts[0]);
      SplitWord(ts[0], rest);
      assert (" " + ts[0] + rest)[1..] == ts[0] + rest;
      assert ts == [ts[0]] + ts[1..];
    }
  }

  lemma SplitRow(head: string, ts: seq<string>)
    requires Clean(head) && Cleans(ts) && ts != []
    ensures Split(Row(head, ts)) == [head] + ts
  {
    JoinIsSpaced(ts);
    assert Row(head, ts) == head + Spaced(ts);
    SplitWord(head, Spaced(ts));
    SplitSpaced(ts);
  }

  lemma {:induction false} BreakRest(text: string, s: string)
    requires Printable(s)
    ensures var b := BreakLines(text);
            BreakLines(text + s) == if s == "" then b else Breaking(b.lines, b.current + s, false)
  {
    if s == "" {
      assert text + s == text;
    } else {
      var n := |s| - 1;
      BreakRest(text, s[..n]);
      assert (text + s)[..|text + s| - 1] == text + s[..n];
      assert BreakLines(text).current + s == (BreakLines(text).current + s[..n]) + [s[n]];
      assert !IsLineBreak(s[n]);
    }
  }

  lemma BreakLine(text: string, l: string)
    requires var b := BreakLines(text); b.current == "" && !b.afterReturn
    requires Printable(l)
    ensures BreakLines(text + l + "\n") == Breaking(BreakLines(text).lines + [l], "", false)
  {
    hide Printable;
    BreakRest(text, l);
    var whole := text + l + "\n";
    assert whole[..|whole| - 1] == text + l;
    assert whole[|whole| - 1] == '\n';
    assert "" + l == l;
  }

  lemma {:induction false} BreakUnlines(text: string, ls: seq<string>, w: nat)
    requires BreakLines(text) == Breaking(BreakLines(text).lines, "", false) && Shorts(ls, w)
    ensures BreakLines(text + Unlines(ls)) == Breaking(BreakLines(text).lines + ls, "", false)
  {
    hide BreakLines, Short;
    if ls == [] {
      assert text + Unlines(ls) == text;
      assert BreakLines(text).lines + ls == BreakLines(text).lines;
    } else {
      var n := |ls| - 1;
      BreakUnlines(text, ls[..n], w);
      assert Short(ls[n], w);
      ShortIsPrintable(ls[n], w);
      BreakLine(text + Unlines(ls[..n]), ls[n]);
      assert text + Unlines(ls) == text + Unlines(ls[..n]) + ls[n] + "\n";
      assert BreakLines(text).lines + ls == (BreakLines(text).lines + ls[..n]) + [ls[n]];
    }
  }

  lemma ShortIsPrintable(l: string, w: nat)
    requires Short(l, w)
    ensures Printable(l)
  {
  }

  // -- lines

  lemma {:induction false} OnLinesConcat(d: Doc, a: seq<string>, b: seq<string>)
    requires Shaped(d) && OnLines(d, a).Some?
    ensures OnLines(d, a + b) == OnLines(OnLines(d, a).value, b)
  {
    hide OnLine;
    if b == [] {
      assert a + b == a;
    } else {
      var n := |b| - 1;
      assert (a + b)[..|a + b| - 1] == a + b[..n];
      OnLinesConcat(d, a, b[..n]);
    }
  }

  lemma OnLinesOne(d: Doc, l: string)
    requires Shaped(d)
    ensures OnLines(d, [l]) == OnLine(d, l)
  {
    assert [l][..0] == [];
    assert OnLines(d, []) == Some(d);
  }

  lemma {:induction false} OnComments(d: Doc, ls: seq<string>)
    requires Shaped(d) && AreComments(ls)
    ensures OnLines(d, ls) == Some(d)
  {
    if ls != [] {
      OnComments(d, ls[..|ls| - 1]);
    }
  }

  lemma RowLineIsRow(d: Doc, head: string, ts: seq<string>)
    requires Shaped(d) && Clean(head) && head[0] == '+' && Cleans(ts) && ts != []
    ensures OnLines(d, [Row(head, ts)]) == OnRow(d, head, ts)
  {
    hide OnRow, Split, Join;
    SplitRow(head, ts);
    OnLinesOne(d, Row(head, ts));
    assert Row(head, ts)[0] == '+';
    DiffersAt(Row(head, ts), "@table ", 0);
    assert ([head] + ts)[1..] == ts;
    hide StartsWith;
  }

  // -- printed fields pass the checks

  lemma DecimalIsUint(n: nat)
    ensures IsUint(Decimal(n)) && Value(Decimal(n)) == n
  {
    ValueOfDecimal(n);
  }

  lemma Hex32Is(n: nat)
    requires n < U32
    ensures IsHex32(Hex32(n)) && HexValue(Hex32(n)[2..]) == n && LowerAll(Hex32(n)) == Hex32(n)
  {
    Hex32RoundTrip(n);
    assert Hex32(n)[..2] == "0x" && Hex32(n)[2..] == HexDigits(n, 8);
  }

  lemma AuditFieldsPass(row: AuditRow)
    requires RowOk(row) && row.seqNo == row.totalEvents
    ensures var f := AuditFields(row);
            AuditRowOk(f) && RowOf(f) == row.(crc := 0) && LowerAll(f[9]) == f[9]
  {
    hide Decimal, Hex32, KindText, KindFromText, Value, IsUint, IsHex32, LowerAll, HexValue;
    DecimalIsUint(row.seqNo);
    DecimalIsUint(row.requestNo);
    DecimalIsUint(row.eventNo);
    DecimalIsUint(row.timeNs);
    DecimalIsUint(row.session);
    DecimalIsUint(row.durationNs);
    KindRoundTrip(row.kind);
    Hex32Is(row.crc);
  }

  lemma EndpointFieldsPass(n: nat, r: Role, e: Endpoint)
    requires PeerOk(r, e)
    ensures var f := EndpointFields(n, r, e);
            EndpointRowOk(f) && PeerOf(f) == e && f[1] == RoleText(r)
  {
    hide Decimal, Value, IsUint, Safe;
    DecimalIsUint(n);
    DecimalIsUint(e.port);
  }

  lemma MacFieldsPass(n: nat, key: Key, message: string)
    requires KeyOk(key)
    ensures var f := MacFields(n, key.fingerprint, key.tag(message));
            MacRowOk(f) && MacVerifies(key, Some(f), message)
  {
    hide Decimal, Value, Hex32, IsUint, IsHex32, AllHex, LowerAll;
    DecimalIsUint(n);
    Hex32Is(key.fingerprint);
    assert IsTag(key.tag(message));
  }

  // -- an audit record

  function EndpointEntries(n: nat, ps: Peers): map<string, seq<string>> {
    map["client" := EndpointFields(n, Client, ps.client), "listen" := EndpointFields(n, Listen, ps.listen),
        "target" := EndpointFields(n, Target, ps.target), "backend" := EndpointFields(n, Backend, ps.backend)]
  }

  function MacEntry(env: Env, row: AuditRow, ps: Peers): Option<seq<string>> {
    if env.key.None? then None
    else Some(MacFields(row.seqNo, env.key.value.fingerprint, env.key.value.tag(AuditMessage(row, ps))))
  }

  /** What the verifier keeps of a printed record. */
  function EntryOf(env: Env, row: AuditRow, ps: Peers): Entry {
    Entry(AuditFields(row), EndpointEntries(row.seqNo, ps), MacEntry(env, row, ps))
  }

  lemma FindLast(records: seq<Entry>, e: Entry, forMac: bool)
    requires forall i :: 0 <= i < |records| ==> |records[i].fields| == 10
    requires |e.fields| == 10 && (forMac ==> e.mac.None?)
    ensures FindRecord(records + [e], e.fields[0], forMac) == Some(|records|)
  {
  }

  lemma OneEndpoint(d: Doc, before: seq<Entry>, e: Entry, n: nat, r: Role, p: Endpoint)
    requires Shaped(d) && n < U64 && PeerOk(r, p) && "audit_endpoint" in d.tables
    requires d.records == before + [e] && |e.fields| == 10 && e.fields[0] == Decimal(n) && RoleText(r) !in e.endpoints
    ensures var after := e.(endpoints := e.endpoints[RoleText(r) := EndpointFields(n, r, p)]);
            OnLines(d, [EndpointRow(n, r, p)]) == Some(d.(records := before + [after]))
  {
    hide Decimal, FindRecord, OnLines, Cleans, EndpointRowOk, PeerOk, HostCap, Join, AllClean, Row;
    EndpointFieldsClean(n, r, p);
    EndpointFieldsPass(n, r, p);
    var f := EndpointFields(n, r, p);
    assert Clean("+audit_endpoint");
    RowLineIsRow(d, "+audit_endpoint", f);
    assert d.records[|before|] == e;
    assert before == d.records[..|before|];
    FindLast(before, e, false);
    var after := e.(endpoints := e.endpoints[RoleText(r) := f]);
    assert d.records[|before| := after] == before + [after];
    hide Clean;
  }

  lemma FourEndpoints(d: Doc, before: seq<Entry>, e: Entry, n: nat, ps: Peers)
    requires Shaped(d) && n < U64 && PeersOk(ps) && "audit_endpoint" in d.tables
    requires d.records == before + [e] && |e.fields| == 10 && e.fields[0] == Decimal(n) && e.endpoints == map[]
    ensures OnLines(d, EndpointRows(n, ps))
         == Some(d.(records := before + [e.(endpoints := EndpointEntries(n, ps))]))
  {
    hide OnLines, EndpointRow, PeerOk, Decimal, EndpointFields;
    var a, b := [EndpointRow(n, Client, ps.client)], [EndpointRow(n, Listen, ps.listen)];
    var c, f := [EndpointRow(n, Target, ps.target)], [EndpointRow(n, Backend, ps.backend)];
    var m1 := map["client" := EndpointFields(n, Client, ps.client)];
    var m2 := m1["listen" := EndpointFields(n, Listen, ps.listen)];
    var m3 := m2["target" := EndpointFields(n, Target, ps.target)];
    assert e.endpoints["client" := EndpointFields(n, Client, ps.client)] == m1;
    var d1 := d.(records := before + [e.(endpoints := m1)]);
    var d2 := d.(records := before + [e.(endpoints := m2)]);
    var d3 := d.(records := before + [e.(endpoints := m3)]);
    assert Shaped(d1) && Shaped(d2) && Shaped(d3) by {
      assert forall i :: 0 <= i < |before| ==> before[i] == d.records[i];
    }
    hide Shaped;
    OneEndpoint(d, before, e, n, Client, ps.client);
    OneEndpoint(d1, before, e.(endpoints := m1), n, Listen, ps.listen);
    OnLinesConcat(d, a, b);
    OneEndpoint(d2, before, e.(endpoints := m2), n, Target, ps.target);
    OnLinesConcat(d, a + b, c);
    OneEndpoint(d3, before, e.(endpoints := m3), n, Backend, ps.backend);
    OnLinesConcat(d, a + b + c, f);
    assert EndpointRows(n, ps) == a + b + c + f;
    assert m3["backend" := EndpointFields(n, Backend, ps.backend)] == EndpointEntries(n, ps);
  }

  lemma OneMac(d: Doc, before: seq<Entry>, e: Entry, env: Env, row: AuditRow, ps: Peers)
    requires Shaped(d) && Keyed(env) && row.seqNo < U64 && "audit_mac" in d.tables
    requires d.records == before + [e] && |e.fields| == 10 && e.fields[0] == Decimal(row.seqNo) && e.mac.None?
    ensures OnLines(d, AuditMac(env, row, ps)) == Some(d.(records := before + [e.(mac := MacEntry(env, row, ps))]))
  {
    hide Decimal, FindRecord, Cleans, MacRowOk, Join, AllClean, Row, AuditMessage, MacFields, KeyOk;
    if env.key.Some? {
      var key, m := env.key.value, AuditMessage(row, ps);
      var f := MacFields(row.seqNo, key.fingerprint, key.tag(m));
      MacFieldsClean(row.seqNo, key, m);
      MacFieldsPass(row.seqNo, key, m);
      assert f[0] == Decimal(row.seqNo) by {
        MacFieldsHead(row.seqNo, key, m);
      }
      assert Clean("+audit_mac");
      RowLineIsRow(d, "+audit_mac", f);
      assert before == d.records[..|before|];
      FindLast(before, e, true);
      assert d.records[|before|] == e;
      assert d.records[|before| := e.(mac := Some(f))] == before + [e.(mac := Some(f))];
      hide Clean, OnLines;
    } else {
      assert e.(mac := None) == e;
    }
  }

  lemma MacFieldsHead(n: nat, key: Key, m: string)
    ensures MacFields(n, key.fingerprint, key.tag(m))[0] == Decimal(n)
  {
  }

  lemma BlankLine(d: Doc)
    requires Shaped(d)
    ensures OnLines(d, [""]) == Some(d)
  {
    OnLinesOne(d, "");
  }

  lemma AuditRows(env: Env, d: Doc, row: AuditRow, ps: Peers)
    requires Shaped(d) && Keyed(env) && RowOk(row) && row.seqNo == row.totalEvents && PeersOk(ps)
    requires d.tables == TableNames()
    ensures OnLines(d, [Row("+audit", AuditFields(row))] + EndpointRows(row.seqNo, ps) + AuditMac(env, row, ps) + [""])
         == Some(d.(records := d.records + [EntryOf(env, row, ps)]))
  {
    hide OnLines, EndpointRows, AuditMac, Row, PeersOk, Decimal, EndpointEntries, MacEntry, RowOk, KeyOk;
    var f := AuditFields(row);
    var e0 := Entry(f, map[], None);
    var e1 := e0.(endpoints := EndpointEntries(row.seqNo, ps));
    AuditFieldsNarrow(row);
    NarrowsAreClean(f, 31);
    AuditFieldsPass(row);
    assert f[0] == Decimal(row.seqNo);
    assert row.seqNo < U64 by {
      RowIsTyped(row);
    }
    hide AuditFields, AuditRowOk, Cleans, Narrows;
    assert Clean("+audit");
    RowLineIsRow(d, "+audit", f);
    var a, b, c := [Row("+audit", f)], EndpointRows(row.seqNo, ps), AuditMac(env, row, ps);
    var d0 := d.(records := d.records + [e0]);
    assert OnLines(d, a) == Some(d0);
    FourEndpoints(d0, d.records, e0, row.seqNo, ps);
    OnLinesConcat(d, a, b);
    var d1 := d.(records := d.records + [e1]);
    OneMac(d1, d.records, e1, env, row, ps);
    OnLinesConcat(d, a + b, c);
    var d2 := d.(records := d.records + [EntryOf(env, row, ps)]);
    assert e1.(mac := MacEntry(env, row, ps)) == EntryOf(env, row, ps);
    BlankLine(d2);
    OnLinesConcat(d, a + b + c, [""]);
  }

  lemma RowIsTyped(row: AuditRow)
    requires RowOk(row)
    ensures row.seqNo < U64
  {
  }

  lemma AuditRecord(env: Env, d: Doc, row: AuditRow, ps: Peers)
    requires Shaped(d) && Keyed(env) && RowOk(row) && row.seqNo == row.totalEvents && PeersOk(ps)
    requires d.tables == TableNames()
    ensures OnLines(d, AuditLines(env, row, ps)) == Some(d.(records := d.records + [EntryOf(env, row, ps)]))
  {
    hide OnLines, AuditNotes, MacNotes, PeerNotes, EndpointRows, AuditMac, AuditMessage, Row, AuditFields, RowOk,
         PeersOk, EntryOf, AreComments;
    var notes := AuditNotes(row) + (if env.key.None? then [] else MacNotes("", env.key.value, AuditMessage(row, ps)))
                 + PeerNotes(ps);
    var rest := [Row("+audit", AuditFields(row))] + EndpointRows(row.seqNo, ps) + AuditMac(env, row, ps) + [""];
    assert AuditLines(env, row, ps) == notes + rest;
    AuditNotesAreComments(env, row, ps);
    OnComments(d, notes);
    AuditRows(env, d, row, ps);
    OnLinesConcat(d, notes, rest);
  }

  lemma MessagesAgree(env: Env, row: AuditRow, ps: Peers)
    requires RowOk(row) && row.seqNo == row.totalEvents && PeersOk(ps)
    ensures var e := EntryOf(env, row, ps);
            AuditRowOk(e.fields) && FourRoles(e.endpoints) && PeersFrom(e.endpoints) == ps
            && Message(e) == AuditMessage(row, ps)
  {
    hide Decimal, AuditRowOk, EndpointRowOk, RowOk, PeerOk, Join;
    EndpointFieldsPass(row.seqNo, Client, ps.client);
    EndpointFieldsPass(row.seqNo, Listen, ps.listen);
    EndpointFieldsPass(row.seqNo, Target, ps.target);
    EndpointFieldsPass(row.seqNo, Backend, ps.backend);
    AuditFieldsPass(row);
    var e := EntryOf(env, row, ps);
    var f, m := e.fields, e.endpoints;
    assert f[..9] + [f[9]] == f;
    assert ["audit/v1"] + f[..9] + [f[9]]
           + [m["client"][2], m["client"][3], m["listen"][2], m["listen"][3],
              m["target"][2], m["target"][3], m["backend"][2], m["backend"][3]]
        == ["audit/v1"] + f + PeerFields(ps.client) + PeerFields(ps.listen) + PeerFields(ps.target)
           + PeerFields(ps.backend);
  }

  lemma CrcIgnoresItself(env: Env, row: AuditRow, ps: Peers)
    ensures AuditCrc(env, row.(crc := 0), ps) == AuditCrc(env, row, ps)
  {
    hide LittleEndian, CText, PeerBytes;
  }

  lemma RecordVerifies(env: Env, row: AuditRow, ps: Peers)
    requires Keyed(env) && RowOk(row) && row.seqNo == row.totalEvents && PeersOk(ps)
    requires row.crc == AuditCrc(env, row, ps)
    ensures EntryVerifies(env, EntryOf(env, row, ps), row.seqNo)
  {
    hide Decimal, AuditRowOk, FourRoles, RowOk, PeersOk, Message, AuditMessage, PeersFrom, EndpointEntries, MacVerifies,
         LowerAll, Hex32, AuditCrc, KeyOk, RowOf;
    MessagesAgree(env, row, ps);
    AuditFieldsPass(row);
    DecimalIsUint(row.seqNo);
    CrcIgnoresItself(env, row, ps);
    if env.key.Some? {
      MacFieldsPass(row.seqNo, env.key.value, AuditMessage(row, ps));
    }
  }

  // -- an evidence record

  lemma {:induction false} DecimalsPass(ns: seq<nat>)
    ensures forall i :: 0 <= i < |ns| ==> IsUint(Decimals(ns)[i])
    ensures Values(Decimals(ns)) == ns
  {
    if ns != [] {
      DecimalIsUint(ns[0]);
      DecimalsPass(ns[1..]);
      assert ns == [ns[0]] + ns[1..];
    }
  }

  lemma {:induction false} HexesPass(ns: seq<nat>)
    requires forall i :: 0 <= i < |ns| ==> ns[i] < U32
    ensures forall i :: 0 <= i < |ns| ==> IsHex32(Hexes(ns)[i]) && LowerAll(Hexes(ns)[i]) == Hexes(ns)[i]
    ensures HexValues(Hexes(ns)) == ns
  {
    if ns != [] {
      Hex32Is(ns[0]);
      HexesPass(ns[1..]);
      hide Hex32, IsHex32, LowerAll;
      assert ns == [ns[0]] + ns[1..];
    }
  }

  lemma EvidenceFieldsPass(row: EvidenceRow)
    requires EvidenceRowOk(row)
    ensures var f := EvidenceFields(row);
            && EvidenceRowIsOk(f) && EvidenceOf(f) == row.evidence && Value(f[0]) == row.seqNo
            && LowerAll(f[18]) == f[18] == Hex32(row.crc)
  {
    hide Decimal, Hex32, Value, IsUint, IsHex32, LowerAll, HexValue, Decimals, Hexes, Values, HexValues, Safe;
    var e := row.evidence;
    DecimalIsUint(row.seqNo);
    DecimalIsUint(e.timeNs);
    Hex32Is(e.status);
    Hex32Is(e.failureMask);
    Hex32Is(row.crc);
    DecimalsPass(e.patrols);
    HexesPass(e.settings);
    var f := EvidenceFields(row);
    assert f[5..13] == Decimals(e.patrols) && f[13..18] == Hexes(e.settings);
    forall i | 5 <= i < 13 ensures IsUint(f[i]) {
      assert f[i] == Decimals(e.patrols)[i - 5];
    }
    forall i | 13 <= i < 18 ensures IsHex32(f[i]) {
      assert f[i] == Hexes(e.settings)[i - 13];
    }
  }

  lemma EvidenceTextsAgree(row: EvidenceRow)
    requires EvidenceRowOk(row) && EvidenceRowIsOk(EvidenceFields(row))
    ensures EvidenceText(EvidenceFields(row)) == EvidenceMessage(row)
  {
    hide Decimal, Hex32, LowerAll, Decimals, Hexes, EvidenceRowIsOk, Join, Safe, IsHex32, HexValues, IsUint;
    var e := row.evidence;
    Hex32Is(e.status);
    Hex32Is(e.failureMask);
    Hex32Is(row.crc);
    HexesPass(e.settings);
    var f := EvidenceFields(row);
    forall i | 13 <= i < 18 ensures LowerAll(f[i]) == f[i] {
      assert f[i] == Hexes(e.settings)[i - 13];
    }
    assert ["evidence/v1", f[0], f[1], f[2], f[3], f[4]] + f[5..13] + [f[13], f[14], f[15], f[16], f[17], f[18]]
        == ["evidence/v1"] + f;
  }

  function EvidenceMacEntry(env: Env, row: EvidenceRow): Option<seq<string>> {
    if env.key.None? then None
    else Some(MacFields(row.seqNo, env.key.value.fingerprint, env.key.value.tag(EvidenceMessage(row))))
  }

  function EvidenceEntryOf(env: Env, row: EvidenceRow): EvidenceEntry {
    EvidenceEntry(EvidenceFields(row), EvidenceMacEntry(env, row))
  }

  lemma OneEvidenceMac(d: Doc, before: seq<EvidenceEntry>, e: EvidenceEntry, env: Env, row: EvidenceRow)
    requires Shaped(d) && Keyed(env) && row.seqNo < U64 && "evidence_mac" in d.tables
    requires d.evidence == before + [e] && |e.fields| == 19 && e.fields[0] == Decimal(row.seqNo) && e.mac.None?
    ensures OnLines(d, EvidenceMac(env, row)) == Some(d.(evidence := before + [e.(mac := EvidenceMacEntry(env, row))]))
  {
    hide Decimal, Cleans, MacRowOk, Join, AllClean, Row, EvidenceMessage, MacFields, KeyOk;
    if env.key.Some? {
      var key, m := env.key.value, EvidenceMessage(row);
      var f := MacFields(row.seqNo, key.fingerprint, key.tag(m));
      MacFieldsClean(row.seqNo, key, m);
      MacFieldsPass(row.seqNo, key, m);
      MacFieldsHead(row.seqNo, key, m);
      assert Clean("+evidence_mac");
      RowLineIsRow(d, "+evidence_mac", f);
      assert before == d.evidence[..|before|];
      assert d.evidence[|before|] == e;
      assert FindEvidence(d.evidence, f[0]) == Some(|before|);
      assert d.evidence[|before| := e.(mac := Some(f))] == before + [e.(mac := Some(f))];
      hide Clean, OnLines;
    } else {
      assert e.(mac := None) == e;
    }
  }

  lemma EvidenceRows(env: Env, d: Doc, row: EvidenceRow)
    requires Shaped(d) && Keyed(env) && EvidenceRowOk(row) && row.seqNo == |d.evidence| + 1
    requires d.tables == TableNames()
    ensures OnLines(d, [Row("+evidence", EvidenceFields(row))] + EvidenceMac(env, row) + [""])
         == Some(d.(evidence := d.evidence + [EvidenceEntryOf(env, row)]))
  {
    hide OnLines, EvidenceMac, Row, Decimal, EvidenceMacEntry, KeyOk, Value, Hex32, LowerAll;
    var f := EvidenceFields(row);
    EvidenceFieldsNarrow(row);
    NarrowsAreClean(f, 31);
    EvidenceFieldsPass(row);
    assert f[0] == Decimal(row.seqNo);
    hide EvidenceFields, EvidenceValues, EvidenceRowIsOk, Cleans, Narrows;
    assert Clean("+evidence");
    RowLineIsRow(d, "+evidence", f);
    var a, b := [Row("+evidence", f)], EvidenceMac(env, row);
    var e0 := EvidenceEntry(f, None);
    var d0 := d.(evidence := d.evidence + [e0]);
    assert OnLines(d, a) == Some(d0);
    OneEvidenceMac(d0, d.evidence, e0, env, row);
    OnLinesConcat(d, a, b);
    var d1 := d.(evidence := d.evidence + [EvidenceEntryOf(env, row)]);
    assert e0.(mac := EvidenceMacEntry(env, row)) == EvidenceEntryOf(env, row);
    BlankLine(d1);
    OnLinesConcat(d, a + b, [""]);
  }

  lemma EvidenceRecord(env: Env, d: Doc, row: EvidenceRow)
    requires Shaped(d) && Keyed(env) && EvidenceRowOk(row) && row.seqNo == |d.evidence| + 1
    requires d.tables == TableNames()
    ensures OnLines(d, EvidenceLines(env, row)) == Some(d.(evidence := d.evidence + [EvidenceEntryOf(env, row)]))
  {
    hide OnLines, EvidenceNotes, MacNotes, EvidenceMac, EvidenceMessage, Row, EvidenceFields, EvidenceEntryOf,
         AreComments;
    var notes := EvidenceNotes(row)
                 + (if env.key.None? then [] else MacNotes("evidence_", env.key.value, EvidenceMessage(row)));
    var rest := [Row("+evidence", EvidenceFields(row))] + EvidenceMac(env, row) + [""];
    assert EvidenceLines(env, row) == notes + rest;
    EvidenceNotesAreComments(env, row);
    OnComments(d, notes);
    EvidenceRows(env, d, row);
    OnLinesConcat(d, notes, rest);
  }

  /** Evidence out of sequence ends the parse. */
  lemma EvidenceOutOfSequence(env: Env, d: Doc, row: EvidenceRow)
    requires Shaped(d) && Keyed(env) && EvidenceRowOk(row) && row.seqNo != |d.evidence| + 1
    ensures OnLines(d, EvidenceLines(env, row)) == None
  {
    hide OnLines, EvidenceNotes, MacNotes, EvidenceMac, EvidenceMessage, Row, EvidenceFields, AreComments;
    var notes := EvidenceNotes(row)
                 + (if env.key.None? then [] else MacNotes("evidence_", env.key.value, EvidenceMessage(row)));
    var first, rest := [Row("+evidence", EvidenceFields(row))], EvidenceMac(env, row) + [""];
    assert EvidenceLines(env, row) == notes + (first + rest);
    EvidenceNotesAreComments(env, row);
    OnComments(d, notes);
    OnLinesConcat(d, notes, first + rest);
    EvidenceRowRefused(d, row);
    assert (first + rest)[..1] == first;
    LinesStuck(d, first + rest, 1);
  }

  lemma EvidenceRowRefused(d: Doc, row: EvidenceRow)
    requires Shaped(d) && EvidenceRowOk(row) && row.seqNo != |d.evidence| + 1
    ensures OnLines(d, [Row("+evidence", EvidenceFields(row))]) == None
  {
    hide OnLines, Row, Decimal, Value, Hex32, LowerAll;
    var f := EvidenceFields(row);
    EvidenceFieldsNarrow(row);
    NarrowsAreClean(f, 31);
    EvidenceFieldsPass(row);
    hide EvidenceFields, EvidenceValues, EvidenceRowIsOk, Cleans, Narrows;
    assert Clean("+evidence");
    RowLineIsRow(d, "+evidence", f);
  }

  lemma EvidenceRecordVerifies(env: Env, row: EvidenceRow)
    requires Keyed(env) && EvidenceRowOk(row) && row.crc == EvidenceCrc(env, row.seqNo, row.evidence)
    ensures EvidenceVerifies(env, EvidenceEntryOf(env, row))
  {
    hide Decimal, EvidenceRowIsOk, EvidenceText, EvidenceMessage, MacVerifies, LowerAll, Hex32, EvidenceCrc, KeyOk,
         EvidenceOf, EvidenceFields, EvidenceRowOk;
    EvidenceFieldsPass(row);
    EvidenceTextsAgree(row);
    if env.key.Some? {
      MacFieldsPass(row.seqNo, env.key.value, EvidenceMessage(row));
    }
  }

  // -- the header

  lemma OneTable(d: Doc, name: string, columns: seq<string>)
    requires Shaped(d) && Clean(name) && Cleans(columns) && columns != [] && name in TableNames()
    ensures OnLines(d, [Table(name, columns)]) == Some(d.(tables := d.tables + {name}))
  {
    hide Split, Join, TableNames;
    var ts := [name] + columns;
    assert Cleans(ts);
    assert Clean("@table");
    SplitRow("@table", ts);
    StartsWithHead("@table", Join(ts, ' '));
    assert "@table" + " " == "@table ";
    OnLinesOne(d, Table(name, columns));
    hide Clean, StartsWith;
  }

  lemma ColumnsClean()
    ensures Cleans(Toks(AuditNames())) && Cleans(MacColumns()) && Cleans(EvidenceColumns())
    ensures Cleans(["seq:tok", "role:tok", "host:host", "port:u16"])
    ensures EvidenceColumns() != [] && MacColumns() != []
  {
    hide Narrows, Toks, EvidenceColumns, MacColumns, AuditNames;
    ColumnsNarrow();
    NarrowsAreClean(Toks(AuditNames()), 44);
    NarrowsAreClean(MacColumns(), 44);
    NarrowsAreClean(EvidenceColumns(), 44);
    NarrowsAreClean(["seq:tok", "role:tok", "host:host", "port:u16"], 44);
  }

  lemma HeaderTables()
    ensures OnLines(Empty(), Tables()) == Some(Doc([], [], TableNames()))
  {
    hide OnLines, Table, Toks, MacColumns, EvidenceColumns, AuditNames, Cleans;
    ColumnsClean();
    var a, b := [Table("audit", Toks(AuditNames()))],
                [Table("audit_endpoint", ["seq:tok", "role:tok", "host:host", "port:u16"])];
    var c, d, e := [Table("audit_mac", MacColumns())], [Table("evidence", EvidenceColumns())],
                   [Table("evidence_mac", MacColumns())];
    var t1, t2, t3 := {"audit"}, {"audit", "audit_endpoint"}, {"audit", "audit_endpoint", "audit_mac"};
    var t4 := t3 + {"evidence"};
    assert Clean("audit") && Clean("audit_endpoint") && Clean("audit_mac");
    assert Clean("evidence") && Clean("evidence_mac");
    hide Clean;
    OneTable(Empty(), "audit", Toks(AuditNames()));
    assert {} + {"audit"} == t1;
    OneTable(Doc([], [], t1), "audit_endpoint", ["seq:tok", "role:tok", "host:host", "port:u16"]);
    assert t1 + {"audit_endpoint"} == t2;
    OnLinesConcat(Empty(), a, b);
    OneTable(Doc([], [], t2), "audit_mac", MacColumns());
    assert t2 + {"audit_mac"} == t3;
    OnLinesConcat(Empty(), a + b, c);
    OneTable(Doc([], [], t3), "evidence", EvidenceColumns());
    OnLinesConcat(Empty(), a + b + c, d);
    OneTable(Doc([], [], t4), "evidence_mac", MacColumns());
    assert t4 + {"evidence_mac"} == TableNames();
    OnLinesConcat(Empty(), a + b + c + d, e);
    assert Tables() == a + b + c + d + e;
  }

  // -- files in step

  /** A file of whole lines under the format's first line. */
  ghost predicate WholeLines(file: string) {
    var b := BreakLines(file);
    b == Breaking(b.lines, "", false) && b.lines != [] && b.lines[0] == "pxf/1"
  }

  ghost function Body(file: string): (r: Option<Doc>)
    requires WholeLines(file)
    ensures r.Some? ==> Shaped(r.value)
  {
    OnLines(Empty(), BreakLines(file).lines[1..])
  }

  /** The verifier's document for a file with so many records and so much evidence. */
  ghost predicate ReadsAs(env: Env, file: string, records: nat, evidence: nat, d: Doc) {
    && Shaped(d) && d.tables == TableNames() && |d.records| == records && |d.evidence| == evidence
    && DocVerifies(env, d)
    && CountMacs(d.records) == (if env.key.Some? then records else 0)
    && CountEvidenceMacs(d.evidence) == (if env.key.Some? then evidence else 0)
    && WholeLines(file) && Body(file) == Some(d)
  }

  lemma AppendReads(file: string, ls: seq<string>)
    requires WholeLines(file) && Shorts(ls, 1000)
    ensures WholeLines(file + Unlines(ls))
    ensures Body(file + Unlines(ls)) == if Body(file).None? then None else OnLines(Body(file).value, ls)
  {
    hide BreakLines, OnLines, Shorts, Unlines;
    BreakUnlines(file, ls, 1000);
    var before := BreakLines(file).lines;
    assert (before + ls)[1..] == before[1..] + ls;
    if Body(file).None? {
      assert (before[1..] + ls)[..|before| - 1] == before[1..];
      LinesStuck(Empty(), before[1..] + ls, |before| - 1);
    } else {
      OnLinesConcat(Empty(), before[1..], ls);
    }
  }

  lemma AuditStaysReadable(env: Env, file: string, m: nat, n: nat, d: Doc, row: AuditRow, ps: Peers)
    requires ReadsAs(env, file, m, n, d) && Keyed(env) && RowOk(row) && PeersOk(ps) && row.crc == AuditCrc(env, row, ps)
    requires row.seqNo == row.totalEvents == m + 1 && Shorts(AuditLines(env, row, ps), 1000)
    ensures ReadsAs(env, file + Unlines(AuditLines(env, row, ps)), m + 1, n,
                    d.(records := d.records + [EntryOf(env, row, ps)]))
  {
    hide WholeLines, Body, OnLines, Shorts, Unlines, AuditLines, EntryVerifies, EvidenceVerifies, AuditCrc, RowOk,
         PeersOk, TableNames;
    AuditRecord(env, d, row, ps);
    RecordVerifies(env, row, ps);
    var e := EntryOf(env, row, ps);
    var more := d.(records := d.records + [e]);
    AppendReads(file, AuditLines(env, row, ps));
    assert more.records[..|d.records|] == d.records;
    assert e.mac.Some? <==> env.key.Some?;
    hide EntryOf;
  }

  lemma EvidenceStaysReadable(env: Env, file: string, m: nat, n: nat, d: Doc, row: EvidenceRow)
    requires ReadsAs(env, file, m, n, d) && Keyed(env) && EvidenceRowOk(row)
    requires row.crc == EvidenceCrc(env, row.seqNo, row.evidence)
    requires row.seqNo == n + 1 && Shorts(EvidenceLines(env, row), 1000)
    ensures ReadsAs(env, file + Unlines(EvidenceLines(env, row)), m, n + 1,
                    d.(evidence := d.evidence + [EvidenceEntryOf(env, row)]))
  {
    hide WholeLines, Body, OnLines, Shorts, Unlines, EvidenceLines, EntryVerifies, EvidenceVerifies, EvidenceCrc,
         TableNames;
    EvidenceRecord(env, d, row);
    EvidenceRecordVerifies(env, row);
    var e := EvidenceEntryOf(env, row);
    var more := d.(evidence := d.evidence + [e]);
    AppendReads(file, EvidenceLines(env, row));
    assert more.evidence[..|d.evidence|] == d.evidence;
    assert e.mac.Some? <==> env.key.Some?;
    hide EvidenceEntryOf;
  }

  // -- spoiled files

  predicate NumberIs(f: seq<string>, n: nat) {
    |f| == 10 && IsUint(f[0]) && Value(f[0]) == n
  }

  /** Some record's number is not its position. */
  ghost predicate Misnumbered(d: Doc) {
    exists i :: 0 <= i < |d.records| && !NumberIs(d.records[i].fields, i + 1)
  }

  /** No line takes a record away or changes its fields. */
  lemma RecordsPersist(d: Doc, line: string)
    requires Shaped(d) && OnLine(d, line).Some?
    ensures var after := OnLine(d, line).value;
            && |d.records| <= |after.records|
            && forall i :: 0 <= i < |d.records| ==> after.records[i].fields == d.records[i].fields
  {
    hide Split, StartsWith, AuditRowOk, EndpointRowOk, MacRowOk, EvidenceRowIsOk, FindRecord, FindEvidence, Value;
  }

  lemma {:induction false} MisnumberedStays(d: Doc, ls: seq<string>)
    requires Shaped(d) && Misnumbered(d) && OnLines(d, ls).Some?
    ensures Misnumbered(OnLines(d, ls).value)
  {
    hide OnLine, NumberIs;
    if ls != [] {
      var n := |ls| - 1;
      MisnumberedStays(d, ls[..n]);
      var before, after := OnLines(d, ls[..n]).value, OnLines(d, ls).value;
      RecordsPersist(before, ls[n]);
      var i :| 0 <= i < |before.records| && !NumberIs(before.records[i].fields, i + 1);
      assert !NumberIs(after.records[i].fields, i + 1);
    }
  }

  ghost predicate Refused(file: string) {
    WholeLines(file) && (Body(file).Some? ==> Misnumbered(Body(file).value))
  }

  lemma RefusedStays(file: string, ls: seq<string>)
    requires Refused(file) && Shorts(ls, 1000)
    ensures Refused(file + Unlines(ls))
  {
    hide WholeLines, Body, OnLines, Shorts, Unlines, Misnumbered;
    AppendReads(file, ls);
    if Body(file + Unlines(ls)).Some? {
      MisnumberedStays(Body(file).value, ls);
    }
  }

  lemma AuditSpoilsReading(env: Env, file: string, m: nat, n: nat, d: Doc, row: AuditRow, ps: Peers)
    requires ReadsAs(env, file, m, n, d) && Keyed(env) && RowOk(row) && PeersOk(ps)
    requires row.seqNo == row.totalEvents != m + 1 && Shorts(AuditLines(env, row, ps), 1000)
    ensures Refused(file + Unlines(AuditLines(env, row, ps)))
  {
    hide WholeLines, Body, OnLines, Shorts, Unlines, AuditLines, DocVerifies, RowOk, PeersOk, TableNames, Value,
         Decimal, EndpointEntries, MacEntry;
    AuditRecord(env, d, row, ps);
    AppendReads(file, AuditLines(env, row, ps));
    DecimalIsUint(row.seqNo);
    var more := d.(records := d.records + [EntryOf(env, row, ps)]);
    assert !NumberIs(more.records[m].fields, m + 1);
  }

  lemma EvidenceSpoilsReading(env: Env, file: string, m: nat, n: nat, d: Doc, row: EvidenceRow)
    requires ReadsAs(env, file, m, n, d) && Keyed(env) && EvidenceRowOk(row)
    requires row.seqNo != n + 1 && Shorts(EvidenceLines(env, row), 1000)
    ensures Refused(file + Unlines(EvidenceLines(env, row)))
  {
    hide WholeLines, Body, OnLines, Shorts, Unlines, EvidenceLines, DocVerifies, TableNames;
    EvidenceOutOfSequence(env, d, row);
    AppendReads(file, EvidenceLines(env, row));
  }

  lemma RefusedIsNotVerified(env: Env, file: string)
    requires Refused(file)
    ensures Verify(env, file) == None
  {
    hide OnLines, BreakLines, Value, IsUint;
  }

  // -- every run

  /** Scanner and verifier see the same in the file. */
  ghost predicate Agree(env: Env, file: string, s: Scan, d: Doc) {
    ScansTo(env, file, s) && ReadsAs(env, file, s.lastSeq, s.evidenceSeq, d)
  }

  ghost predicate Readable(env: Env, file: string, h: Health) {
    if h.spoiled then Refused(file) else exists s, d :: Agree(env, file, s, d)
  }

  lemma ScansToOne(env: Env, file: string, s: Scan, t: Scan)
    requires ScansTo(env, file, s) && ScansTo(env, file, t)
    ensures s == t
  {
  }

  lemma AuditLandsReadably(env: Env, w: Writer, h: Health, e: Event)
    requires EnvOk(env) && Consistent(env, w, h) && Readable(env, w.file, h)
    requires TypedEvent(e) && SafeEvent(e) && w.lastSeq < U64 - 1
    ensures Readable(env, w.file + Unlines(AuditLines(env, RowFor(env, w, e), e.peers)),
                     h.(spoiled := h.spoiled || h.auditLost))
  {
    hide SafeEvent, AuditFits, AuditLines, Unlines, ReadsAs, ScansTo, StartsWith, EnvOk, Header, RowFor, TypedEvent,
         RowOk, PeersOk, AuditCrc, Keyed, KindIndex, Total, Shorts, Stuck, Refused;
    RowForFits(env, w, e);
    var row := RowFor(env, w, e);
    var ls := AuditLines(env, row, e.peers);
    if h.spoiled {
      RefusedStays(w.file, ls);
    } else {
      var s :| InStep(env, w, h, s);
      var t, d :| Agree(env, w.file, t, d);
      ScansToOne(env, w.file, s, t);
      if h.auditLost {
        AuditSpoilsReading(env, w.file, s.lastSeq, s.evidenceSeq, d, row, e.peers);
      } else {
        MovedIsCountable(w, e.kind);
        var after := Moved(w, e.kind).(file := w.file + Unlines(ls));
        AuditKeepsStep(env, w, h, s, e, after);
        AuditStaysReadable(env, w.file, s.lastSeq, s.evidenceSeq, d, row, e.peers);
        assert Agree(env, after.file, s.(lastSeq := after.lastSeq, counts := after.counts),
                     d.(records := d.records + [EntryOf(env, row, e.peers)]));
      }
    }
  }

  lemma EvidenceLandsReadably(env: Env, w: Writer, h: Health, e: Evidence)
    requires EnvOk(env) && Consistent(env, w, h) && Readable(env, w.file, h)
    requires TypedEvidence(e) && Safe(e.event, REASON_TEXT, false) && w.evidenceSeq < U64 - 1
    ensures Readable(env, w.file + Unlines(EvidenceLines(env, EvidenceRowFor(env, w, e))),
                     h.(spoiled := h.spoiled || h.evidenceLost))
  {
    hide Safe, EvidenceFits, EvidenceLines, Unlines, ReadsAs, ScansTo, StartsWith, EnvOk, Header, EvidenceRowFor,
         EvidenceRowOk, EvidenceCrc, Keyed, Total, Shorts, Stuck, Refused;
    EvidenceRowForFits(env, w, e);
    var row := EvidenceRowFor(env, w, e);
    var ls := EvidenceLines(env, row);
    if h.spoiled {
      RefusedStays(w.file, ls);
    } else {
      var s :| InStep(env, w, h, s);
      var t, d :| Agree(env, w.file, t, d);
      ScansToOne(env, w.file, s, t);
      if h.evidenceLost {
        EvidenceSpoilsReading(env, w.file, s.lastSeq, s.evidenceSeq, d, row);
      } else {
        var after := w.(evidenceSeq := w.evidenceSeq + 1, file := w.file + Unlines(ls));
        EvidenceKeepsStep(env, w, h, s, e, after);
        EvidenceStaysReadable(env, w.file, s.lastSeq, s.evidenceSeq, d, row);
        assert Agree(env, after.file, s.(evidenceSeq := after.evidenceSeq),
                     d.(evidence := d.evidence + [EvidenceEntryOf(env, row)]));
      }
    }
  }

  lemma RecordStaysReadable(env: Env, w: Writer, h: Health, event: Event, d: Delivery)
    requires EnvOk(env) && Consistent(env, w, h) && TypedEvent(event) && Readable(env, w.file, h)
    ensures |w.counts| == KINDS
    ensures Readable(env, Record(env, w, event, d).0.file, NextHealth(env, w, h, Audit(event, d)))
  {
    hide SafeEvent, AuditLines, Unlines, EnvOk, Defaults, RowFor, TypedEvent, Refused, Agree, Record, Consistent, Lands;
    ConsistentIsCountable(env, w, h);
    var e := Defaults(w.runtime, event);
    TypedDefaults(w.runtime, event);
    RecordKeeps(env, w, h, event, d);
    assert w.file + "" == w.file;
    if Admits(w, event) && Lands(env, d) {
      AuditLandsReadably(env, w, h, e);
    }
  }

  lemma EvidenceRunReadable(env: Env, w: Writer, h: Health, evidence: Evidence, d: Delivery)
    requires EnvOk(env) && Consistent(env, w, h) && TypedEvidence(evidence) && Readable(env, w.file, h)
    ensures Readable(env, RecordEvidence(env, w, evidence, d).0.file, NextHealth(env, w, h, Readiness(evidence, d)))
  {
    hide Safe, EvidenceLines, Unlines, EnvOk, EvidenceRowFor, Refused, Agree, RecordEvidence, Consistent, Lands;
    var e := EvidenceDefaults(evidence);
    TypedEvidenceDefaults(evidence);
    hide EvidenceDefaults;
    RecordEvidenceKeeps(env, w, h, evidence, d);
    assert w.file + "" == w.file;
    if AdmitsEvidence(w, evidence) && Lands(env, d) {
      EvidenceLandsReadably(env, w, h, e);
    }
  }

  lemma HeaderReads(env: Env)
    ensures ReadsAs(env, Header(), 0, 0, Doc([], [], TableNames()))
  {
    hide OnLines, BreakLines, Shorts, Unlines, Tables, AreNotes;
    HeaderIsPlain();
    HeaderTables();
    assert BreakLines("") == Breaking([], "", false) by {
      NothingToBreak();
    }
    BreakUnlines("", HeaderLines(), 1000);
    assert "" + Unlines(HeaderLines()) == Header();
    var ls := [] + HeaderLines();
    assert ls[1..] == ["# LLPS IP audit"] + Tables();
    assert AreComments(["# LLPS IP audit"]);
    OnComments(Empty(), ["# LLPS IP audit"]);
    OnLinesConcat(Empty(), ["# LLPS IP audit"], Tables());
  }

  lemma NothingToBreak()
    ensures BreakLines("") == Breaking([], "", false)
  {
  }

  lemma NewIsReadable(env: Env)
    ensures Readable(env, Header(), Sound())
  {
    hide ReadsAs, ScansTo, Header;
    HeaderReads(env);
    HeaderScans(env);
    assert Agree(env, Header(), Start(), Doc([], [], TableNames()));
  }

  lemma ApplyStaysReadable(env: Env, w: Writer, h: Health, op: Op)
    requires EnvOk(env) && Consistent(env, w, h) && TypedOp(op) && Readable(env, w.file, h)
    ensures |w.counts| == KINDS
    ensures Apply(env, w, op).Some? ==> Readable(env, Apply(env, w, op).value.file, NextHealth(env, w, h, op))
  {
    hide Consistent, Open, Record, RecordEvidence, EnvOk, Refused, Agree;
    ConsistentIsCountable(env, w, h);
    match op
    case Audit(e, d) => RecordStaysReadable(env, w, h, e, d);
    case Readiness(e, d) => EvidenceRunReadable(env, w, h, e, d);
    case Restart(r) => RestartKeeps(env, w, h, r);
  }

  lemma {:induction false} RunIsReadable(env: Env, rt: Runtime, ops: seq<Op>)
    requires EnvOk(env) && TypedRuntime(rt) && TypedOps(ops) && Run(env, rt, ops).Some?
    ensures Readable(env, Run(env, rt, ops).value.file, HealthOf(env, rt, ops))
  {
    hide Consistent, Open, Apply, NextHealth, EnvOk, Readable, Header;
    if ops == [] {
      OpenNew(env, rt);
      NewIsReadable(env);
    } else {
      var n := |ops| - 1;
      RunIsReadable(env, rt, ops[..n]);
      RunIsConsistent(env, rt, ops[..n]);
      assert TypedOp(ops[n]);
      ApplyStaysReadable(env, Run(env, rt, ops[..n]).value, HealthOf(env, rt, ops[..n]), ops[n]);
    }
  }

  /** What the verifier reports when it agrees with the scanner's counters. */
  function Reported(env: Env, c: Counters): Report {
    Report(c.lastSeq, if env.key.Some? then c.lastSeq else 0, c.evidenceSeq, if env.key.Some? then c.evidenceSeq else 0)
  }

  lemma AgreeingReports(env: Env, file: string, s: Scan, d: Doc)
    requires Agree(env, file, s, d)
    ensures var c := Counters(s.lastSeq, s.evidenceSeq, s.counts);
            && ScanFile(env, file) == Some(c)
            && Verify(env, file) == if s.lastSeq == 0 then None else Some(Reported(env, c))
  {
    hide ScansTo, OnLines, BreakLines, DocVerifies, ScanFile;
    ScansToIsScanFile(env, file, s);
  }

  /**
   After any run of records, evidence and restarts, with any losses, the independent verifier,
   told to require sequential numbers and given the log's key, accepts the file exactly when
   the scanner does and there is an audit record, and reports exactly the scanner's totals.
   */
  lemma VerifierAgrees(env: Env, rt: Runtime, ops: seq<Op>)
    requires EnvOk(env) && TypedRuntime(rt) && TypedOps(ops) && Run(env, rt, ops).Some?
    ensures var file := Run(env, rt, ops).value.file;
            var c := ScanFile(env, file);
            Verify(env, file) == if c.None? || c.value.lastSeq == 0 then None else Some(Reported(env, c.value))
  {
    hide Run, HealthOf, Refused, Agree, Verify, ScanFile, Consistent, Reported;
    RunIsReadable(env, rt, ops);
    RestartRecovers(env, rt, ops, rt);
    var file, h := Run(env, rt, ops).value.file, HealthOf(env, rt, ops);
    if h.spoiled {
      RefusedIsNotVerified(env, file);
    } else {
      var s, d :| Agree(env, file, s, d);
      AgreeingReports(env, file, s, d);
    }
  }

  /** Without a loss the totals are the writer's own. */
  lemma LosslessRunVerifies(env: Env, rt: Runtime, ops: seq<Op>)
    requires EnvOk(env) && TypedRuntime(rt) && TypedOps(ops) && AllLand(env, ops)
    ensures Run(env, rt, ops).Some?
    ensures var w := Run(env, rt, ops).value;
            Verify(env, w.file) == if w.lastSeq == 0 then None
                                   else Some(Reported(env, Counters(w.lastSeq, w.evidenceSeq, w.counts)))
  {
    hide Run, Verify, ScanFile, Open, Reported;
    LosslessRunRecovers(env, rt, ops, rt);
    VerifierAgrees(env, rt, ops);
  }
}
