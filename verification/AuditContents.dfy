/** What the log says is what happened: the rows of a file against the events that were recorded. */
module AuditContents {
  import opened Bytes
  import opened Digits
  import opened Tokens
  import opened AuditLog
  import opened AuditText
  import opened AuditScan
  import opened AuditRecovery
  import opened AuditSoundness
  import opened AuditRuns

  // -- what a reader of the log should find

  /** An event's own endpoint; one without a host is the proxy's, or no client's address. */
  function Shown(event: Event, rt: Runtime, role: Role): Endpoint {
    var own := event.peers.At(role);
    if own.host != "" then own
    else
      match role
      case Client => Endpoint("0.0.0.0", own.port)
      case Listen => rt.listen
      case Target => rt.target
      case Backend => rt.backend
  }

  /** The row gives the event's own kind, request, times, session and reason. */
  predicate Tells(row: AuditRow, event: Event) {
    && row.kind == event.kind && row.requestNo == event.requestNo && row.timeNs == event.timeNs
    && row.durationNs == event.durationNs && row.session == event.session
    && row.reason == (if event.reason == "" then "ok" else event.reason)
  }

  /** The endpoint rows of one record: each role once, in the writer's order. */
  function EndpointsOf(n: nat, event: Event, rt: Runtime): (g: seq<ParsedEndpoint>)
    ensures |g| == 4
  {
    [ParsedEndpoint(n, Client, Shown(event, rt, Client)), ParsedEndpoint(n, Listen, Shown(event, rt, Listen)),
     ParsedEndpoint(n, Target, Shown(event, rt, Target)), ParsedEndpoint(n, Backend, Shown(event, rt, Backend))]
  }

  /** The row gives the evidence's own name and all of its numbers. */
  predicate TellsEvidence(row: EvidenceRow, e: Evidence) {
    && row.evidence.event == (if e.event == "" then "readiness_monitor" else e.event)
    && row.evidence.timeNs == e.timeNs && row.evidence.status == e.status
    && row.evidence.failureMask == e.failureMask
    && row.evidence.patrols == e.patrols && row.evidence.settings == e.settings
  }

  // -- rows of concatenated lines

  function Plus(a: Rows, b: Rows): Rows {
    Rows(a.audits + b.audits, a.endpoints + b.endpoints, a.macs + b.macs, a.evidence + b.evidence,
         a.evidenceMacs + b.evidenceMacs)
  }

  function NoRows(): Rows {
    Rows([], [], [], [], [])
  }

  lemma AddLineIsPlus(h: Rows, raw: string)
    ensures AddLine(h, raw) == Plus(h, AddLine(NoRows(), raw))
  {
    hide Classify, CString, ParseAuditRow, ParseEndpointRow, ParseMacRow, ParseEvidenceRow;
    assert Plus(h, NoRows()) == h;
  }

  lemma PlusAssociates(a: Rows, b: Rows, c: Rows)
    ensures Plus(Plus(a, b), c) == Plus(a, Plus(b, c)) && Plus(a, NoRows()) == a && Plus(NoRows(), a) == a
  {
  }

  lemma {:induction false} RowsConcat(a: seq<string>, b: seq<string>)
    ensures RowsOf(a + b) == Plus(RowsOf(a), RowsOf(b))
  {
    hide AddLine, Plus;
    PlusAssociates(RowsOf(a), NoRows(), NoRows());
    if b == [] {
      assert a + b == a;
    } else {
      var n := |b| - 1;
      assert (a + b)[..|a + b| - 1] == a + b[..n];
      RowsConcat(a, b[..n]);
      AddLineIsPlus(RowsOf(a + b[..n]), b[n]);
      AddLineIsPlus(RowsOf(b[..n]), b[n]);
      PlusAssociates(RowsOf(a), RowsOf(b[..n]), AddLine(NoRows(), b[n]));
    }
  }

  lemma RowsOfOne(line: string)
    ensures RowsOf([line]) == AddLine(NoRows(), line)
  {
    hide AddLine;
    assert [line][..0] == [];
  }

  lemma PlainLineHasNoRow(line: string, w: nat)
    requires Short(line, w) && line != "" && (line[0] == '#' || line[0] == '@')
    ensures AddLine(NoRows(), line) == NoRows()
  {
    CStringOfPrintable(line);
    hide CString;
    DiffersAt(line, "+audit ", 0);
    DiffersAt(line, "+audit_endpoint ", 0);
    DiffersAt(line, "+audit_mac ", 0);
    DiffersAt(line, "+evidence ", 0);
    DiffersAt(line, "+evidence_mac ", 0);
    hide StartsWith;
  }

  lemma {:induction false} PlainLinesHaveNoRows(ls: seq<string>, w: nat)
    requires Shorts(ls, w) && AreNotes(ls)
    ensures RowsOf(ls) == NoRows()
  {
    hide AddLine, Short;
    if ls != [] {
      var n := |ls| - 1;
      PlainLinesHaveNoRows(ls[..n], w);
      assert Short(ls[n], w);
      PlainLineHasNoRow(ls[n], w);
    }
  }

  lemma BlankHasNoRow()
    ensures RowsOf([""]) == NoRows()
  {
    RowsOfOne("");
    assert CString("") == "";
  }

  // -- rows of a printed record

  lemma AuditRowReads(row: AuditRow)
    requires RowOk(row)
    ensures RowsOf([Row("+audit", AuditFields(row))]) == Rows([row], [], [], [], [])
  {
    hide ParseAuditRow, Classify, AuditFields, Row, Join, RowOk, CString;
    AuditRowShort(row);
    AuditRowRoundTrip(row);
    RowText("+audit", AuditFields(row), 327);
    ClassifyRow("+audit", Join(AuditFields(row), ' '));
    RowsOfOne(Row("+audit", AuditFields(row)));
  }

  lemma RowText(head: string, fields: seq<string>, w: nat)
    requires Short(Row(head, fields), w)
    ensures CString(Row(head, fields)) == head + " " + Join(fields, ' ')
  {
    CStringOfPrintable(Row(head, fields));
    hide CString, Join;
  }

  lemma EndpointReads(n: nat, r: Role, e: Endpoint)
    requires n < U64 && PeerOk(r, e)
    ensures RowsOf([EndpointRow(n, r, e)]) == Rows([], [ParsedEndpoint(n, r, e)], [], [], [])
  {
    hide ParseEndpointRow, Classify, EndpointFields, Row, Join, PeerOk, CString;
    EndpointRowShort(n, r, e);
    EndpointRoundTrip(n, r, e);
    RowText("+audit_endpoint", EndpointFields(n, r, e), HostCap(r) + 52);
    ClassifyRow("+audit_endpoint", Join(EndpointFields(n, r, e), ' '));
    RowsOfOne(EndpointRow(n, r, e));
  }

  function PeerRows(n: nat, ps: Peers): Rows {
    Rows([], [ParsedEndpoint(n, Client, ps.client), ParsedEndpoint(n, Listen, ps.listen),
              ParsedEndpoint(n, Target, ps.target), ParsedEndpoint(n, Backend, ps.backend)], [], [], [])
  }

  lemma EndpointsRead(n: nat, ps: Peers)
    requires n < U64 && PeersOk(ps)
    ensures RowsOf(EndpointRows(n, ps)) == PeerRows(n, ps)
  {
    hide EndpointRow, PeerOk, RowsOf;
    var a, b := [EndpointRow(n, Client, ps.client)], [EndpointRow(n, Listen, ps.listen)];
    var c, d := [EndpointRow(n, Target, ps.target)], [EndpointRow(n, Backend, ps.backend)];
    EndpointReads(n, Client, ps.client);
    EndpointReads(n, Listen, ps.listen);
    EndpointReads(n, Target, ps.target);
    EndpointReads(n, Backend, ps.backend);
    RowsConcat(a, b);
    RowsConcat(a + b, c);
    RowsConcat(a + b + c, d);
    assert EndpointRows(n, ps) == a + b + c + d;
  }

  lemma MacReads(head: string, n: nat, key: Key, m: string)
    requires KeyOk(key) && n < U64 && (head == "+audit_mac" || head == "+evidence_mac")
    ensures var mac := ParsedMac(n, key.fingerprint, key.tag(m));
            RowsOf([MacRow(head, n, key, m)])
            == if head == "+audit_mac" then Rows([], [], [mac], [], []) else Rows([], [], [], [], [mac])
  {
    hide ParseMacRow, Classify, MacFields, Join, CString, KeyOk;
    assert Printable(head);
    MacRowShort(head, n, key, m);
    MacRoundTrip(n, key, m);
    RowText(head, MacFields(n, key.fingerprint, key.tag(m)), 110);
    ClassifyRow(head, MacBody(n, key, m));
    RowsOfOne(MacRow(head, n, key, m));
  }

  function MacsOf(env: Env, n: nat, message: string): seq<ParsedMac> {
    if env.key.None? then [] else [ParsedMac(n, env.key.value.fingerprint, env.key.value.tag(message))]
  }

  /** A printed record reads as one audit row, four endpoint rows and, under a key, one tag row. */
  lemma AuditLinesRead(env: Env, row: AuditRow, ps: Peers)
    requires RowOk(row) && PeersOk(ps) && Keyed(env)
    ensures RowsOf(AuditLines(env, row, ps))
         == Rows([row], PeerRows(row.seqNo, ps).endpoints, MacsOf(env, row.seqNo, AuditMessage(row, ps)), [], [])
  {
    hide AuditNotes, MacNotes, PeerNotes, EndpointRows, AuditFits, Row, AuditFields, RowOk, AuditMac, PeersOk,
         AreComments, AuditMessage, Shorts, RowsOf, Keyed, AreNotes;
    var notes := AuditNotes(row) + (if env.key.None? then [] else MacNotes("", env.key.value, AuditMessage(row, ps)))
                 + PeerNotes(ps);
    var a, b, c := [Row("+audit", AuditFields(row))], EndpointRows(row.seqNo, ps), AuditMac(env, row, ps);
    AuditLinesFit(env, row, ps);
    AuditNotesAreComments(env, row, ps);
    assert AuditLines(env, row, ps) == notes + (a + b + c + [""]);
    ShortsPrefix(notes, a + b + c + [""], 327);
    CommentsAreNotes(notes);
    PlainLinesHaveNoRows(notes, 327);
    RowIsNumbered(row);
    AuditRowReads(row);
    EndpointsRead(row.seqNo, ps);
    AuditMacReads(env, row, ps);
    BlankHasNoRow();
    RowsConcat(a, b);
    RowsConcat(a + b, c);
    RowsConcat(a + b + c, [""]);
    RowsConcat(notes, a + b + c + [""]);
  }

  lemma RowIsNumbered(row: AuditRow)
    requires RowOk(row)
    ensures row.seqNo < U64
  {
  }

  lemma AuditMacReads(env: Env, row: AuditRow, ps: Peers)
    requires Keyed(env) && row.seqNo < U64
    ensures RowsOf(AuditMac(env, row, ps)) == Rows([], [], MacsOf(env, row.seqNo, AuditMessage(row, ps)), [], [])
  {
    hide AuditMessage, MacRow, AddLine;
    if env.key.Some? {
      MacReads("+audit_mac", row.seqNo, env.key.value, AuditMessage(row, ps));
    }
  }

  lemma EvidenceRowReads(row: EvidenceRow)
    requires EvidenceRowOk(row)
    ensures RowsOf([Row("+evidence", EvidenceFields(row))]) == Rows([], [], [], [row], [])
  {
    hide ParseEvidenceRow, Classify, EvidenceFields, Row, Join, EvidenceRowOk, CString;
    EvidenceRowShort(row);
    EvidenceRowRoundTrip(row);
    RowText("+evidence", EvidenceFields(row), 618);
    ClassifyRow("+evidence", Join(EvidenceFields(row), ' '));
    RowsOfOne(Row("+evidence", EvidenceFields(row)));
  }

  lemma EvidenceMacReads(env: Env, row: EvidenceRow)
    requires Keyed(env) && row.seqNo < U64
    ensures RowsOf(EvidenceMac(env, row)) == Rows([], [], [], [], MacsOf(env, row.seqNo, EvidenceMessage(row)))
  {
    hide EvidenceMessage, MacRow, AddLine;
    if env.key.Some? {
      MacReads("+evidence_mac", row.seqNo, env.key.value, EvidenceMessage(row));
    }
  }

  lemma EvidenceLinesRead(env: Env, row: EvidenceRow)
    requires EvidenceRowOk(row) && Keyed(env)
    ensures RowsOf(EvidenceLines(env, row)) == Rows([], [], [], [row], MacsOf(env, row.seqNo, EvidenceMessage(row)))
  {
    hide EvidenceNotes, MacNotes, EvidenceFits, Row, EvidenceFields, EvidenceMac, AreComments, EvidenceMessage, Shorts,
         RowsOf, Keyed, AreNotes;
    var notes := EvidenceNotes(row)
                 + (if env.key.None? then [] else MacNotes("evidence_", env.key.value, EvidenceMessage(row)));
    var a, b := [Row("+evidence", EvidenceFields(row))], EvidenceMac(env, row);
    EvidenceLinesFit(env, row);
    EvidenceNotesAreComments(env, row);
    assert EvidenceLines(env, row) == notes + (a + b + [""]);
    ShortsPrefix(notes, a + b + [""], 618);
    CommentsAreNotes(notes);
    PlainLinesHaveNoRows(notes, 618);
    EvidenceRowReads(row);
    EvidenceMacReads(env, row);
    BlankHasNoRow();
    RowsConcat(a, b);
    RowsConcat(a + b, [""]);
    RowsConcat(notes, a + b + [""]);
  }

  // -- rows of a file

  lemma RowsAfterAppend(file: string, ls: seq<string>)
    requires CutLines(file).rest == "" && Shorts(ls, 1000)
    ensures CutLines(file + Unlines(ls)).rest == ""
    ensures RowsOf(LinesOf(file + Unlines(ls))) == Plus(RowsOf(LinesOf(file)), RowsOf(ls))
  {
    ShortsHaveNoBreak(ls, 1000);
    hide CutLines, Shorts, Unlines, RowsOf;
    CutUnlines(file, ls);
    RowsConcat(CutLines(file).lines, ls);
  }

  lemma ConsistentIsWhole(env: Env, w: Writer, h: Health)
    requires Consistent(env, w, h)
    ensures CutLines(w.file).rest == ""
  {
    hide CutLines, ScanLines, Shorts, Countable, Matches, StartsWith, Header;
  }

  lemma PeersAreShown(rt: Runtime, event: Event)
    ensures var e := Defaults(rt, event);
            && e.peers == Peers(Shown(event, rt, Client), Shown(event, rt, Listen), Shown(event, rt, Target),
                                Shown(event, rt, Backend))
  {
  }

  lemma RowTells(env: Env, w: Writer, event: Event)
    requires |w.counts| == KINDS
    ensures var row := RowFor(env, w, Defaults(w.runtime, event));
            Tells(row, event) && row.seqNo == row.totalEvents == w.lastSeq + 1
            && row.eventNo == w.counts[KindIndex(event.kind)] + 1
  {
    hide AuditCrc;
  }

  /**
   What one record adds to the log, for a reader who knows only the event: one audit row
   with the event's own values and the writer's numbers, one endpoint row for each role
   with the event's own endpoint, a checksum over them and, under a key, a tag over the lot.
   */
  lemma RecordShowsTheEvent(env: Env, w: Writer, h: Health, event: Event, d: Delivery)
    requires EnvOk(env) && Consistent(env, w, h) && TypedEvent(event)
    requires |w.counts| == KINDS && Record(env, w, event, d).0.file != w.file
    ensures var before, more := RowsOf(LinesOf(w.file)), RowsOf(LinesOf(Record(env, w, event, d).0.file));
            var peers := Peers(Shown(event, w.runtime, Client), Shown(event, w.runtime, Listen),
                               Shown(event, w.runtime, Target), Shown(event, w.runtime, Backend));
            exists row ::
              && more.audits == before.audits + [row] && Tells(row, event)
              && row.seqNo == row.totalEvents == w.lastSeq + 1
              && row.eventNo == w.counts[KindIndex(event.kind)] + 1 && row.crc == AuditCrc(env, row, peers)
              && more.endpoints == before.endpoints + EndpointsOf(w.lastSeq + 1, event, w.runtime)
              && more.macs == before.macs + MacsOf(env, w.lastSeq + 1, AuditMessage(row, peers))
              && more.evidence == before.evidence && more.evidenceMacs == before.evidenceMacs
  {
    hide SafeEvent, TypedEvent, AuditLines, RowFor, Unlines, EnvOk, Record, Lands, Stuck, InStep, Total, Defaults,
         RowsOf, CutLines, LinesOf, Consistent, Tells, Shown, AuditCrc, AuditMessage, RowOk, PeersOk, AuditFits, Shorts,
         Keyed, KindIndex, TypedRuntime;
    RecordKeeps(env, w, h, event, d);
    ConsistentIsCountable(env, w, h);
    ConsistentIsWhole(env, w, h);
    assert w.file + "" == w.file;
    var e := Defaults(w.runtime, event);
    TypedDefaults(w.runtime, event);
    var row := RowFor(env, w, e);
    RowForFits(env, w, e);
    RowTells(env, w, event);
    PeersAreShown(w.runtime, event);
    AuditLinesRead(env, row, e.peers);
    RowsAfterAppend(w.file, AuditLines(env, row, e.peers));
    hide MacsOf;
  }

  lemma EvidenceRowTells(env: Env, w: Writer, e: Evidence)
    ensures TellsEvidence(EvidenceRowFor(env, w, EvidenceDefaults(e)), e)
  {
    hide EvidenceCrc;
  }

  /** What one evidence record adds to the log: its own name and numbers, all thirteen of them. */
  lemma EvidenceShowsItself(env: Env, w: Writer, h: Health, evidence: Evidence, d: Delivery)
    requires EnvOk(env) && Consistent(env, w, h) && TypedEvidence(evidence)
    requires RecordEvidence(env, w, evidence, d).0.file != w.file
    ensures var before, more := RowsOf(LinesOf(w.file)), RowsOf(LinesOf(RecordEvidence(env, w, evidence, d).0.file));
            exists row ::
              && more.evidence == before.evidence + [row] && TellsEvidence(row, evidence)
              && row.seqNo == w.evidenceSeq + 1 && row.crc == EvidenceCrc(env, row.seqNo, row.evidence)
              && more.evidenceMacs == before.evidenceMacs + MacsOf(env, w.evidenceSeq + 1, EvidenceMessage(row))
              && more.audits == before.audits && more.endpoints == before.endpoints && more.macs == before.macs
  {
    hide Safe, EvidenceLines, EvidenceRowFor, Unlines, EnvOk, RecordEvidence, Lands, Stuck, InStep, Total, RowsOf,
         CutLines, LinesOf, Consistent, TellsEvidence, EvidenceCrc, EvidenceMessage, EvidenceFits, Shorts, Keyed;
    RecordEvidenceKeeps(env, w, h, evidence, d);
    ConsistentIsCountable(env, w, h);
    ConsistentIsWhole(env, w, h);
    assert w.file + "" == w.file;
    var e := EvidenceDefaults(evidence);
    TypedEvidenceDefaults(evidence);
    EvidenceRowTells(env, w, evidence);
    hide EvidenceDefaults;
    var row := EvidenceRowFor(env, w, e);
    EvidenceRowForFits(env, w, e);
    EvidenceLinesRead(env, row);
    RowsAfterAppend(w.file, EvidenceLines(env, row));
    hide MacsOf;
  }

  lemma LinesAreNotEmpty(ls: seq<string>)
    requires ls != []
    ensures Unlines(ls) != ""
  {
  }

  lemma AuditLinesExist(env: Env, row: AuditRow, ps: Peers)
    ensures AuditLines(env, row, ps) != []
  {
    hide AuditNotes, PeerNotes, EndpointRows, AuditMac, MacNotes, Row, AuditFields;
  }

  lemma EvidenceLinesExist(env: Env, row: EvidenceRow)
    requires EvidenceShape(row.evidence)
    ensures EvidenceLines(env, row) != []
  {
    hide EvidenceNotes, EvidenceMac, MacNotes, Row, EvidenceFields;
  }

  /** A record that was acknowledged is in the file. */
  lemma AcknowledgedIsShown(env: Env, w: Writer, h: Health, event: Event, evidence: Evidence, d: Delivery)
    requires EnvOk(env) && Consistent(env, w, h) && TypedEvent(event) && TypedEvidence(evidence) && |w.counts| == KINDS
    ensures Record(env, w, event, d).1 ==> Record(env, w, event, d).0.file != w.file
    ensures RecordEvidence(env, w, evidence, d).1 ==> RecordEvidence(env, w, evidence, d).0.file != w.file
  {
    hide SafeEvent, Safe, TypedEvent, AuditLines, EvidenceLines, RowFor, EvidenceRowFor, Unlines, EnvOk, Record,
         RecordEvidence, Lands, Consistent, Defaults;
    RecordKeeps(env, w, h, event, d);
    RecordEvidenceKeeps(env, w, h, evidence, d);
    var e := Defaults(w.runtime, event);
    AuditLinesExist(env, RowFor(env, w, e), e.peers);
    LinesAreNotEmpty(AuditLines(env, RowFor(env, w, e), e.peers));
    TypedEvidenceDefaults(evidence);
    var row := EvidenceRowFor(env, w, EvidenceDefaults(evidence));
    RowKeepsShape(env, w, EvidenceDefaults(evidence));
    EvidenceLinesExist(env, row);
    LinesAreNotEmpty(EvidenceLines(env, row));
  }

  lemma RowKeepsShape(env: Env, w: Writer, e: Evidence)
    requires EvidenceShape(e)
    ensures EvidenceShape(EvidenceRowFor(env, w, e).evidence)
  {
    hide EvidenceCrc;
  }

  // -- the log of a whole run

  /** An event that got into the file, and the proxy's endpoints at that time. */
  datatype Landing = Landing(event: Event, runtime: Runtime)

  /** The last operation of a run put something into the file. */
  predicate LastLanded(env: Env, rt: Runtime, ops: seq<Op>)
    requires TypedOps(ops) && ops != [] && Run(env, rt, ops).Some?
  {
    var before := Run(env, rt, ops[..|ops| - 1]);
    before.Some? && Run(env, rt, ops).value.file != before.value.file
  }

  function LandedEvents(env: Env, rt: Runtime, ops: seq<Op>): seq<Landing>
    requires TypedOps(ops) && Run(env, rt, ops).Some?
  {
    if ops == [] then []
    else
      var before, op := ops[..|ops| - 1], ops[|ops| - 1];
      LandedEvents(env, rt, before)
      + (if op.Audit? && LastLanded(env, rt, ops) then [Landing(op.event, Run(env, rt, before).value.runtime)] else [])
  }

  function LandedEvidence(env: Env, rt: Runtime, ops: seq<Op>): seq<Evidence>
    requires TypedOps(ops) && Run(env, rt, ops).Some?
  {
    if ops == [] then []
    else
      var before, op := ops[..|ops| - 1], ops[|ops| - 1];
      LandedEvidence(env, rt, before) + (if op.Readiness? && LastLanded(env, rt, ops) then [op.evidence] else [])
  }

  ghost predicate RecordTells(h: Rows, i: nat, l: Landing) {
    && i < |h.audits| && 4 * i + 4 <= |h.endpoints| && Tells(h.audits[i], l.event)
    && h.endpoints[4 * i..4 * i + 4] == EndpointsOf(h.audits[i].seqNo, l.event, l.runtime)
  }

  /** The rows are those of exactly these events and this evidence, in this order. */
  ghost predicate LogTells(h: Rows, es: seq<Landing>, vs: seq<Evidence>) {
    && |h.audits| == |es| && |h.endpoints| == 4 * |es| && (forall i: nat :: i < |es| ==> RecordTells(h, i, es[i]))
    && |h.evidence| == |vs| && (forall i :: 0 <= i < |vs| ==> TellsEvidence(h.evidence[i], vs[i]))
  }

  lemma TellsOneMore(h: Rows, more: Rows, es: seq<Landing>, vs: seq<Evidence>, row: AuditRow, l: Landing)
    requires LogTells(h, es, vs) && Tells(row, l.event) && more.audits == h.audits + [row]
    requires more.endpoints == h.endpoints + EndpointsOf(row.seqNo, l.event, l.runtime) && more.evidence == h.evidence
    ensures LogTells(more, es + [l], vs)
  {
    hide Tells, TellsEvidence, EndpointsOf;
    forall i: nat | i < |es| + 1 ensures RecordTells(more, i, (es + [l])[i]) {
      if i < |es| {
        assert RecordTells(h, i, es[i]);
        assert more.endpoints[4 * i..4 * i + 4] == h.endpoints[4 * i..4 * i + 4];
      }
    }
  }

  lemma TellsMoreEvidence(h: Rows, more: Rows, es: seq<Landing>, vs: seq<Evidence>, row: EvidenceRow, v: Evidence)
    requires LogTells(h, es, vs) && TellsEvidence(row, v) && more.evidence == h.evidence + [row]
    requires more.endpoints == h.endpoints && more.audits == h.audits
    ensures LogTells(more, es, vs + [v])
  {
    hide Tells, TellsEvidence, EndpointsOf;
    forall i: nat | i < |es| ensures RecordTells(more, i, es[i]) {
      assert RecordTells(h, i, es[i]);
    }
  }

  lemma HeaderHasNoRows()
    ensures RowsOf(LinesOf(Header())) == NoRows()
  {
    hide HeaderLines, CutLines, Shorts, AreNotes, Unlines, RowsOf;
    HeaderIsPlain();
    assert CutLines("") == Cut([], "") && LinesOf("") == [] by {
      NothingCut("");
      assert ""[..0] == "";
    }
    RowsAfterAppend("", HeaderLines());
    assert "" + Unlines(HeaderLines()) == Header();
    HeaderLinesHaveNoRows();
    assert RowsOf([]) == NoRows() by {
      NoLinesNoRows();
    }
    PlusAssociates(NoRows(), NoRows(), NoRows());
  }

  lemma NoLinesNoRows()
    ensures RowsOf([]) == NoRows()
  {
  }

  lemma HeaderLinesHaveNoRows()
    ensures RowsOf(HeaderLines()) == NoRows()
  {
    HeaderIsPlain();
    var hs := HeaderLines();
    assert hs[0] == "pxf/1" && hs == ["pxf/1"] + hs[1..];
    hide HeaderLines, AreNotes, RowsOf;
    assert Shorts(hs[1..], 1000);
    PlainLinesHaveNoRows(hs[1..], 1000);
    FirstLineHasNoRow();
    RowsConcat(["pxf/1"], hs[1..]);
  }

  lemma FirstLineHasNoRow()
    ensures RowsOf(["pxf/1"]) == NoRows()
  {
    RowsOfOne("pxf/1");
    assert Printable("pxf/1");
    CStringOfPrintable("pxf/1");
    hide CString;
    DiffersAt("pxf/1", "+audit ", 0);
    DiffersAt("pxf/1", "+audit_endpoint ", 0);
    DiffersAt("pxf/1", "+audit_mac ", 0);
    DiffersAt("pxf/1", "+evidence ", 0);
    DiffersAt("pxf/1", "+evidence_mac ", 0);
    hide StartsWith;
  }

  /**
   The log of every run: its audit rows are those of exactly the events that got into the file,
   in order, each with its own values and endpoints, and its evidence rows likewise.
   */
  lemma {:induction false} LogTellsTheRun(env: Env, rt: Runtime, ops: seq<Op>)
    requires EnvOk(env) && TypedRuntime(rt) && TypedOps(ops) && Run(env, rt, ops).Some?
    ensures LogTells(RowsOf(LinesOf(Run(env, rt, ops).value.file)), LandedEvents(env, rt, ops),
                     LandedEvidence(env, rt, ops))
  {
    hide Apply, LogTells, RowsOf, LinesOf, EnvOk, Open, Consistent;
    if ops == [] {
      OpenNew(env, rt);
      HeaderHasNoRows();
      NothingToTell();
    } else {
      var before := ops[..|ops| - 1];
      RunBefore(env, rt, ops);
      LogTellsTheRun(env, rt, before);
      RunIsConsistent(env, rt, before);
      TellsStep(env, rt, ops);
    }
  }

  lemma NothingToTell()
    ensures LogTells(NoRows(), [], [])
  {
  }

  lemma TellsStep(env: Env, rt: Runtime, ops: seq<Op>)
    requires EnvOk(env) && TypedOps(ops) && ops != [] && Run(env, rt, ops).Some?
    requires Run(env, rt, ops[..|ops| - 1]).Some?
    requires var before := ops[..|ops| - 1];
             && Consistent(env, Run(env, rt, before).value, HealthOf(env, rt, before))
             && LogTells(RowsOf(LinesOf(Run(env, rt, before).value.file)), LandedEvents(env, rt, before),
                         LandedEvidence(env, rt, before))
    ensures LogTells(RowsOf(LinesOf(Run(env, rt, ops).value.file)), LandedEvents(env, rt, ops),
                     LandedEvidence(env, rt, ops))
  {
    hide LogTells, RowsOf, LinesOf, EnvOk, Open, Consistent, Record, RecordEvidence, Tells, TellsEvidence, EndpointsOf,
         HealthOf, MacsOf, AuditCrc, EvidenceCrc, AuditMessage, EvidenceMessage, Shown;
    var before, op := ops[..|ops| - 1], ops[|ops| - 1];
    var w, h := Run(env, rt, before).value, HealthOf(env, rt, before);
    var file := Run(env, rt, ops).value.file;
    assert TypedOp(op);
    var es, vs := LandedEvents(env, rt, before), LandedEvidence(env, rt, before);
    assert es + [] == es && vs + [] == vs;
    match op
    case Audit(e, d) =>
      if file != w.file {
        RecordShowsTheEvent(env, w, h, e, d);
        var was, more := RowsOf(LinesOf(w.file)), RowsOf(LinesOf(file));
        var row :| more.audits == was.audits + [row] && Tells(row, e) && row.seqNo == w.lastSeq + 1;
        TellsOneMore(was, more, es, vs, row, Landing(e, w.runtime));
      }
    case Readiness(e, d) =>
      if file != w.file {
        EvidenceShowsItself(env, w, h, e, d);
        var was, more := RowsOf(LinesOf(w.file)), RowsOf(LinesOf(file));
        var row :| more.evidence == was.evidence + [row] && TellsEvidence(row, e);
        TellsMoreEvidence(was, more, es, vs, row, e);
      }
    case Restart(again) => RestartSameFile(env, w, h, again);
  }

  lemma RestartSameFile(env: Env, w: Writer, h: Health, rt: Runtime)
    requires Consistent(env, w, h) && TypedRuntime(rt) && Open(env, w.file, rt).Some?
    ensures Open(env, w.file, rt).value.file == w.file
  {
    hide Consistent, Open;
    RestartKeeps(env, w, h, rt);
  }
}
