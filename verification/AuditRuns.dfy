/** Runs of the audit log: records, evidence, losses and restarts in any order. */
module AuditRuns {
  import opened Bytes
  import opened Digits
  import opened Tokens
  import opened AuditLog
  import opened AuditText
  import opened AuditScan
  import opened AuditRecovery

  /** Starting on a file: a new one gets the header, an old one must have it and scan. */
  function Open(env: Env, file: string, rt: Runtime): Option<Writer> {
    var text := if file == "" then Header() else file;
    if !StartsWith(text, Header()) then None
    else
      var c :- ScanFile(env, text);
      if HostsFit(rt) then Some(Writer(text, c.lastSeq, c.evidenceSeq, c.counts, rt)) else None
  }

  datatype Op =
    | Audit(event: Event, delivery: Delivery)
    | Readiness(evidence: Evidence, delivery: Delivery)
    | Restart(runtime: Runtime)

  predicate TypedOp(op: Op) {
    match op
    case Audit(e, _) => TypedEvent(e)
    case Readiness(e, _) => TypedEvidence(e)
    case Restart(rt) => TypedRuntime(rt)
  }

  predicate TypedOps(ops: seq<Op>) {
    forall i :: 0 <= i < |ops| ==> TypedOp(ops[i])
  }

  function Apply(env: Env, w: Writer, op: Op): (r: Option<Writer>)
    requires |w.counts| == KINDS && TypedOp(op)
    ensures r.Some? ==> |r.value.counts| == KINDS
  {
    match op
    case Audit(e, d) => Some(Record(env, w, e, d).0)
    case Readiness(e, d) => Some(RecordEvidence(env, w, e, d).0)
    case Restart(rt) => Open(env, w.file, rt)
  }

  /** A run on a new file, or nothing if one of its restarts is refused. */
  function Run(env: Env, rt: Runtime, ops: seq<Op>): (r: Option<Writer>)
    requires TypedOps(ops)
    ensures r.Some? ==> |r.value.counts| == KINDS
  {
    if ops == [] then Open(env, "", rt)
    else
      var w :- Run(env, rt, ops[..|ops| - 1]);
      Apply(env, w, ops[|ops| - 1])
  }

  // -- what a run has lost

  /** The writer gives the event a number. */
  predicate Admits(w: Writer, event: Event) {
    SafeEvent(Defaults(w.runtime, event)) && w.lastSeq < U64 - 1
  }

  predicate AdmitsEvidence(w: Writer, evidence: Evidence) {
    Safe(EvidenceDefaults(evidence).event, REASON_TEXT, false) && w.evidenceSeq < U64 - 1
  }

  /** A number was given out, since the last restart, to a record that never got into the file. */
  datatype Health = Health(auditLost: bool, evidenceLost: bool, spoiled: bool)

  /** The file is spoiled by the first record that lands behind a lost one of its kind. */
  function NextHealth(env: Env, w: Writer, h: Health, op: Op): Health {
    match op
    case Audit(e, d) =>
      if !Admits(w, e) then h
      else if !Lands(env, d) then h.(auditLost := true)
      else h.(spoiled := h.spoiled || h.auditLost)
    case Readiness(e, d) =>
      if !AdmitsEvidence(w, e) then h
      else if !Lands(env, d) then h.(evidenceLost := true)
      else h.(spoiled := h.spoiled || h.evidenceLost)
    case Restart(_) => Health(false, false, h.spoiled)
  }

  function Sound(): Health {
    Health(false, false, false)
  }

  function HealthOf(env: Env, rt: Runtime, ops: seq<Op>): Health
    requires TypedOps(ops) && Run(env, rt, ops).Some?
  {
    if ops == [] then Sound()
    else
      var before := ops[..|ops| - 1];
      NextHealth(env, Run(env, rt, before).value, HealthOf(env, rt, before), ops[|ops| - 1])
  }

  // -- the invariant

  function Total(counts: seq<nat>): nat
    requires |counts| == KINDS
  {
    counts[0] + counts[1] + counts[2] + counts[3] + counts[4]
  }

  /** The file's lines scan, from the start, to a quiet state. */
  ghost predicate ScansTo(env: Env, file: string, s: Scan) {
    && Quiet(s) && CutLines(file).rest == "" && Shorts(CutLines(file).lines, 1000)
    && ScanLines(env, Start(), CutLines(file).lines) == Some(s)
  }

  /** The scanner stops at one of the file's lines. */
  ghost predicate Stuck(env: Env, file: string) {
    CutLines(file).rest == "" && ScanLines(env, Start(), CutLines(file).lines) == None
  }

  /** The writer's numbers are in range and add up. */
  ghost predicate Countable(w: Writer) {
    && |w.counts| == KINDS && w.lastSeq < U64 && w.evidenceSeq < U64 && Total(w.counts) == w.lastSeq
    && TypedRuntime(w.runtime)
  }

  /** The file's numbers are the writer's, or behind them where a record was lost. */
  ghost predicate Matches(w: Writer, h: Health, s: Scan)
    requires |w.counts| == KINDS && Quiet(s)
  {
    && Total(s.counts) == s.lastSeq
    && (if h.auditLost then s.lastSeq < w.lastSeq else s.lastSeq == w.lastSeq && s.counts == w.counts)
    && (if h.evidenceLost then s.evidenceSeq < w.evidenceSeq else s.evidenceSeq == w.evidenceSeq)
  }

  ghost predicate InStep(env: Env, w: Writer, h: Health, s: Scan) {
    Countable(w) && StartsWith(w.file, Header()) && ScansTo(env, w.file, s) && Matches(w, h, s)
  }

  ghost predicate Consistent(env: Env, w: Writer, h: Health) {
    Countable(w) && if h.spoiled then Stuck(env, w.file) else exists s :: InStep(env, w, h, s)
  }

  lemma ConsistentIsCountable(env: Env, w: Writer, h: Health)
    requires Consistent(env, w, h)
    ensures Countable(w)
  {
    hide InStep, Stuck, Countable;
  }

  lemma ShortsHaveNoBreak(ls: seq<string>, w: nat)
    requires Shorts(ls, w)
    ensures forall i :: 0 <= i < |ls| ==> NoBreak(ls[i])
  {
    forall i | 0 <= i < |ls| ensures NoBreak(ls[i]) {
      assert Short(ls[i], w);
    }
  }

  lemma AppendScans(env: Env, file: string, s: Scan, ls: seq<string>, after: Scan)
    requires ScansTo(env, file, s) && Shorts(ls, 1000) && Quiet(after) && ScanLines(env, s, ls) == Some(after)
    ensures ScansTo(env, file + Unlines(ls), after)
  {
    ShortsHaveNoBreak(ls, 1000);
    hide ScanLines, CutLines, Shorts, Unlines;
    CutUnlines(file, ls);
    ScanConcat(env, Start(), CutLines(file).lines, ls);
    ShortsConcat(CutLines(file).lines, ls, 1000);
  }

  lemma AppendSticks(env: Env, file: string, s: Scan, ls: seq<string>)
    requires ScansTo(env, file, s) && Shorts(ls, 1000) && ScanLines(env, s, ls) == None
    ensures Stuck(env, file + Unlines(ls))
  {
    ShortsHaveNoBreak(ls, 1000);
    hide ScanLines, CutLines, Shorts, Unlines;
    CutUnlines(file, ls);
    ScanConcat(env, Start(), CutLines(file).lines, ls);
  }

  /** No record appended later gets the scanner past the line it stops at. */
  lemma StaysStuck(env: Env, file: string, ls: seq<string>)
    requires Stuck(env, file) && Shorts(ls, 1000)
    ensures Stuck(env, file + Unlines(ls))
  {
    ShortsHaveNoBreak(ls, 1000);
    hide ScanLines, CutLines, Shorts, Unlines;
    CutUnlines(file, ls);
    var before := CutLines(file).lines;
    assert (before + ls)[..|before|] == before;
    ScanStuck(env, Start(), before + ls, |before|);
  }

  lemma StillStarts(file: string, more: string, prefix: string)
    requires StartsWith(file, prefix)
    ensures StartsWith(file + more, prefix)
  {
    assert (file + more)[..|prefix|] == file[..|prefix|];
  }

  /** What a quiet file scans to is what the scanner returns. */
  lemma ScansToIsScanFile(env: Env, file: string, s: Scan)
    requires ScansTo(env, file, s)
    ensures ScanFile(env, file) == Some(Counters(s.lastSeq, s.evidenceSeq, s.counts))
  {
    var c := CutLines(file);
    assert LinesFit(c) by {
      forall i | 0 <= i < |c.lines| ensures |c.lines[i]| < LINE_BYTES {
        assert Short(c.lines[i], 1000);
      }
    }
    hide ScanLines, CutLines, LinesFit, Shorts;
  }

  lemma StuckIsRefused(env: Env, file: string)
    requires Stuck(env, file)
    ensures ScanFile(env, file) == None
  {
    hide ScanLines, CutLines, LinesFit;
  }

  lemma ScansToIsQuiet(env: Env, file: string, s: Scan)
    requires ScansTo(env, file, s)
    ensures Quiet(s)
  {
  }

  lemma EnvIsKeyed(env: Env)
    requires EnvOk(env)
    ensures Keyed(env)
  {
  }

  // -- audit records

  lemma TypedDefaults(rt: Runtime, e: Event)
    requires TypedRuntime(rt) && TypedEvent(e)
    ensures TypedEvent(Defaults(rt, e)) && Defaults(rt, e).kind == e.kind
  {
  }

  lemma EventRowOk(env: Env, e: Event, n: nat, eventNo: nat)
    requires EnvOk(env) && TypedEvent(e) && SafeEvent(e) && n < U64 && eventNo < U64
    ensures var row := EventRow(env, e, n, eventNo);
            && RowOk(row) && PeersOk(e.peers) && row.crc == AuditCrc(env, row, e.peers)
            && row.seqNo == row.totalEvents == n && row.eventNo == eventNo && row.kind == e.kind
  {
    hide LittleEndian, PeerBytes, CText;
  }

  function RowFor(env: Env, w: Writer, e: Event): AuditRow
    requires |w.counts| == KINDS
  {
    EventRow(env, e, w.lastSeq + 1, w.counts[KindIndex(e.kind)] + 1)
  }

  function Moved(w: Writer, kind: Kind): Writer
    requires |w.counts| == KINDS
  {
    var k := KindIndex(kind);
    w.(lastSeq := w.lastSeq + 1, counts := w.counts[k := w.counts[k] + 1])
  }

  lemma MovedIsCountable(w: Writer, kind: Kind)
    requires Countable(w) && w.lastSeq < U64 - 1
    ensures Countable(Moved(w, kind)) && w.counts[KindIndex(kind)] < U64 - 1
  {
  }

  /** A numbered event can be printed: none of its buffers is too small. */
  lemma RowForFits(env: Env, w: Writer, e: Event)
    requires EnvOk(env) && Countable(w) && TypedEvent(e) && SafeEvent(e) && w.lastSeq < U64 - 1
    ensures var row := RowFor(env, w, e);
            && RowOk(row) && PeersOk(e.peers) && Keyed(env) && row.crc == AuditCrc(env, row, e.peers)
            && row.seqNo == row.totalEvents == w.lastSeq + 1 && row.kind == e.kind
            && row.eventNo == w.counts[KindIndex(e.kind)] + 1
            && AuditFits(env, row, e.peers) && Shorts(AuditLines(env, row, e.peers), 1000)
  {
    hide SafeEvent, TypedEvent, AuditFits, AuditLines, EventRow, RowOk, PeersOk, AuditCrc, Shorts, EnvOk;
    MovedIsCountable(w, e.kind);
    EventRowOk(env, e, w.lastSeq + 1, w.counts[KindIndex(e.kind)] + 1);
    EnvIsKeyed(env);
    AuditLinesFit(env, RowFor(env, w, e), e.peers);
    ShortsWiden(AuditLines(env, RowFor(env, w, e), e.peers), 327, 1000);
  }

  /** What a call to record does, in full. */
  lemma RecordSteps(env: Env, w: Writer, event: Event, d: Delivery)
    requires EnvOk(env) && Countable(w) && TypedEvent(event)
    ensures var (after, ok) := Record(env, w, event, d);
            var e := Defaults(w.runtime, event);
            && (ok <==> Admits(w, event) && Lands(env, d) && d.disk.Synced?)
            && (!Admits(w, event) ==> after == w)
            && (Admits(w, event) ==>
                  var text := if Lands(env, d) then Unlines(AuditLines(env, RowFor(env, w, e), e.peers)) else "";
                  after == Moved(w, event.kind).(file := w.file + text))
            && Countable(after)
  {
    hide SafeEvent, AuditFits, AuditLines, EventRow, Unlines, EnvOk, RowOk, PeersOk, Shorts, AuditCrc, Keyed;
    var e := Defaults(w.runtime, event);
    TypedDefaults(w.runtime, event);
    hide Defaults, TypedEvent;
    assert w.file + "" == w.file;
    if Admits(w, event) {
      RowForFits(env, w, e);
      MovedIsCountable(w, e.kind);
    }
  }

  /** A record behind none that was lost keeps the file in step. */
  lemma AuditKeepsStep(env: Env, w: Writer, h: Health, s: Scan, e: Event, after: Writer)
    requires EnvOk(env) && InStep(env, w, h, s) && TypedEvent(e) && SafeEvent(e) && w.lastSeq < U64 - 1
    requires !h.auditLost
    requires after == Moved(w, e.kind).(file := w.file + Unlines(AuditLines(env, RowFor(env, w, e), e.peers)))
    ensures InStep(env, after, h, s.(lastSeq := after.lastSeq, counts := after.counts))
  {
    hide SafeEvent, TypedEvent, ScansTo, AuditFits, AuditLines, RowFor, StartsWith, ScanLines, RowOk, PeersOk, AuditCrc,
         Shorts, Header, Unlines, EnvOk;
    RowForFits(env, w, e);
    MovedIsCountable(w, e.kind);
    var row := RowFor(env, w, e);
    var ls := AuditLines(env, row, e.peers);
    ScansToIsQuiet(env, w.file, s);
    ScanAuditRecord(env, s, row, e.peers);
    AppendScans(env, w.file, s, ls, s.(lastSeq := after.lastSeq, counts := after.counts));
    StillStarts(w.file, Unlines(ls), Header());
  }

  /** A record behind a lost one spoils the file. */
  lemma AuditSpoils(env: Env, w: Writer, h: Health, s: Scan, e: Event)
    requires EnvOk(env) && InStep(env, w, h, s) && TypedEvent(e) && SafeEvent(e) && w.lastSeq < U64 - 1
    requires h.auditLost
    ensures Stuck(env, w.file + Unlines(AuditLines(env, RowFor(env, w, e), e.peers)))
  {
    hide SafeEvent, TypedEvent, ScansTo, AuditFits, AuditLines, RowFor, StartsWith, ScanLines, RowOk, PeersOk, AuditCrc,
         Shorts, Header, Unlines, EnvOk;
    RowForFits(env, w, e);
    var row := RowFor(env, w, e);
    ScansToIsQuiet(env, w.file, s);
    ScanAuditGap(env, s, row, e.peers);
    AppendSticks(env, w.file, s, AuditLines(env, row, e.peers));
  }

  /** Numbers that go to a lost record leave the file where it was. */
  lemma LossKeepsStep(env: Env, w: Writer, h: Health, s: Scan, after: Writer, more: Health)
    requires InStep(env, w, h, s) && Countable(after) && after.file == w.file
    requires if more.auditLost && !h.auditLost then after.lastSeq > w.lastSeq
             else more.auditLost == h.auditLost && after.lastSeq >= w.lastSeq
                  && (!h.auditLost ==> after.lastSeq == w.lastSeq && after.counts == w.counts)
    requires if more.evidenceLost && !h.evidenceLost then after.evidenceSeq > w.evidenceSeq
             else more.evidenceLost == h.evidenceLost && after.evidenceSeq >= w.evidenceSeq
                  && (!h.evidenceLost ==> after.evidenceSeq == w.evidenceSeq)
    ensures InStep(env, after, more, s)
  {
    hide ScansTo, StartsWith, Header;
    ScansToIsQuiet(env, w.file, s);
  }

  lemma AuditLandsConsistently(env: Env, w: Writer, h: Health, e: Event, after: Writer)
    requires EnvOk(env) && Consistent(env, w, h) && TypedEvent(e) && SafeEvent(e) && w.lastSeq < U64 - 1
    requires after == Moved(w, e.kind).(file := w.file + Unlines(AuditLines(env, RowFor(env, w, e), e.peers)))
    ensures Consistent(env, after, h.(spoiled := h.spoiled || h.auditLost))
  {
    hide SafeEvent, TypedEvent, ScansTo, AuditFits, AuditLines, RowFor, StartsWith, RowOk, PeersOk, AuditCrc, Shorts,
         Header, Unlines, EnvOk, InStep, Stuck, Total;
    MovedIsCountable(w, e.kind);
    if h.spoiled {
      RowForFits(env, w, e);
      StaysStuck(env, w.file, AuditLines(env, RowFor(env, w, e), e.peers));
    } else {
      var s :| InStep(env, w, h, s);
      if h.auditLost {
        AuditSpoils(env, w, h, s, e);
      } else {
        AuditKeepsStep(env, w, h, s, e, after);
      }
    }
  }

  lemma LossIsConsistent(env: Env, w: Writer, h: Health, after: Writer, more: Health)
    requires Consistent(env, w, h) && Countable(after) && after.file == w.file && more.spoiled == h.spoiled
    requires || (more == h.(auditLost := true) && after.lastSeq > w.lastSeq && after.evidenceSeq == w.evidenceSeq)
             || (more == h.(evidenceLost := true) && after.evidenceSeq > w.evidenceSeq && after.lastSeq == w.lastSeq
                 && after.counts == w.counts)
    ensures Consistent(env, after, more)
  {
    hide InStep, Stuck, Countable;
    if !h.spoiled {
      var s :| InStep(env, w, h, s);
      LossKeepsStep(env, w, h, s, after, more);
    }
  }

  /**
   A record gets a number exactly when its tokens are safe and a number is left, and without
   one nothing changes.  With a number both counters move, the text is appended exactly when it
   lands, and the call says yes exactly when it was synced too.  A loss keeps the file as it
   was; the next record that lands spoils it.
   */
  lemma RecordKeeps(env: Env, w: Writer, h: Health, event: Event, d: Delivery)
    requires EnvOk(env) && Consistent(env, w, h) && TypedEvent(event)
    ensures var (after, ok) := Record(env, w, event, d);
            var e := Defaults(w.runtime, event);
            && Consistent(env, after, NextHealth(env, w, h, Audit(event, d)))
            && (ok <==> Admits(w, event) && Lands(env, d) && d.disk.Synced?)
            && (!Admits(w, event) ==> after == w)
            && (Admits(w, event) ==>
                  && after.lastSeq == w.lastSeq + 1 && after.evidenceSeq == w.evidenceSeq && after.runtime == w.runtime
                  && after.counts == w.counts[KindIndex(event.kind) := w.counts[KindIndex(event.kind)] + 1]
                  && after.file == w.file + if Lands(env, d) then Unlines(AuditLines(env, RowFor(env, w, e), e.peers))
                                            else "")
  {
    hide SafeEvent, AuditLines, RowFor, Unlines, EnvOk, Record, Lands, Stuck, InStep, TypedEvent, Total, Defaults;
    RecordSteps(env, w, event, d);
    var e := Defaults(w.runtime, event);
    TypedDefaults(w.runtime, event);
    var after := Record(env, w, event, d).0;
    if Admits(w, event) {
      if Lands(env, d) {
        AuditLandsConsistently(env, w, h, e, after);
      } else {
        assert w.file + "" == w.file;
        LossIsConsistent(env, w, h, after, h.(auditLost := true));
      }
    }
  }

  // -- evidence

  function EvidenceRowFor(env: Env, w: Writer, e: Evidence): EvidenceRow {
    EvidenceRow(w.evidenceSeq + 1, e, EvidenceCrc(env, w.evidenceSeq + 1, e))
  }

  lemma TypedEvidenceDefaults(e: Evidence)
    requires TypedEvidence(e)
    ensures TypedEvidence(EvidenceDefaults(e))
  {
  }

  lemma EvidenceRowForFits(env: Env, w: Writer, e: Evidence)
    requires EnvOk(env) && TypedEvidence(e) && Safe(e.event, REASON_TEXT, false) && w.evidenceSeq < U64 - 1
    ensures var row := EvidenceRowFor(env, w, e);
            && EvidenceRowOk(row) && Keyed(env) && row.crc == EvidenceCrc(env, row.seqNo, row.evidence)
            && row.seqNo == w.evidenceSeq + 1 && row.evidence == e
            && EvidenceFits(env, row) && Shorts(EvidenceLines(env, row), 1000)
  {
    hide Safe, EvidenceFits, EvidenceLines, Shorts, LittleEndian, Words, CText;
    var row := EvidenceRowFor(env, w, e);
    assert row.crc < U32;
    hide EvidenceCrc;
    EnvIsKeyed(env);
    hide EnvOk;
    EvidenceLinesFit(env, row);
    ShortsWiden(EvidenceLines(env, row), 618, 1000);
  }

  lemma RecordEvidenceSteps(env: Env, w: Writer, evidence: Evidence, d: Delivery)
    requires EnvOk(env) && Countable(w) && TypedEvidence(evidence)
    ensures var (after, ok) := RecordEvidence(env, w, evidence, d);
            var e := EvidenceDefaults(evidence);
            && (ok <==> AdmitsEvidence(w, evidence) && Lands(env, d) && d.disk.Synced?)
            && (!AdmitsEvidence(w, evidence) ==> after == w)
            && (AdmitsEvidence(w, evidence) ==>
                  var text := if Lands(env, d) then Unlines(EvidenceLines(env, EvidenceRowFor(env, w, e))) else "";
                  after == w.(evidenceSeq := w.evidenceSeq + 1, file := w.file + text))
            && Countable(after)
  {
    hide Safe, EvidenceFits, EvidenceLines, Unlines, EnvOk, EvidenceRowOk, Shorts, EvidenceCrc, Keyed, Total;
    var e := EvidenceDefaults(evidence);
    TypedEvidenceDefaults(evidence);
    assert EvidenceShape(e);
    hide EvidenceDefaults, TypedEvidence;
    assert w.file + "" == w.file;
    if AdmitsEvidence(w, evidence) {
      EvidenceRowForFits(env, w, e);
    }
  }

  lemma EvidenceKeepsStep(env: Env, w: Writer, h: Health, s: Scan, e: Evidence, after: Writer)
    requires EnvOk(env) && InStep(env, w, h, s) && TypedEvidence(e) && Safe(e.event, REASON_TEXT, false)
    requires w.evidenceSeq < U64 - 1 && !h.evidenceLost
    requires after == w.(evidenceSeq := w.evidenceSeq + 1,
                         file := w.file + Unlines(EvidenceLines(env, EvidenceRowFor(env, w, e))))
    ensures InStep(env, after, h, s.(evidenceSeq := after.evidenceSeq))
  {
    hide Safe, ScansTo, EvidenceFits, EvidenceLines, EvidenceRowFor, StartsWith, ScanLines, EvidenceCrc, Shorts, Header,
         Unlines, EnvOk;
    EvidenceRowForFits(env, w, e);
    var row := EvidenceRowFor(env, w, e);
    ScansToIsQuiet(env, w.file, s);
    ScanEvidenceRecord(env, s, row);
    AppendScans(env, w.file, s, EvidenceLines(env, row), s.(evidenceSeq := after.evidenceSeq));
    StillStarts(w.file, Unlines(EvidenceLines(env, row)), Header());
  }

  lemma EvidenceSpoils(env: Env, w: Writer, h: Health, s: Scan, e: Evidence)
    requires EnvOk(env) && InStep(env, w, h, s) && TypedEvidence(e) && Safe(e.event, REASON_TEXT, false)
    requires w.evidenceSeq < U64 - 1 && h.evidenceLost
    ensures Stuck(env, w.file + Unlines(EvidenceLines(env, EvidenceRowFor(env, w, e))))
  {
    hide Safe, ScansTo, EvidenceFits, EvidenceLines, EvidenceRowFor, StartsWith, ScanLines, EvidenceCrc, Shorts, Header,
         Unlines, EnvOk;
    EvidenceRowForFits(env, w, e);
    var row := EvidenceRowFor(env, w, e);
    ScansToIsQuiet(env, w.file, s);
    ScanEvidenceGap(env, s, row);
    AppendSticks(env, w.file, s, EvidenceLines(env, row));
  }

  lemma EvidenceLandsConsistently(env: Env, w: Writer, h: Health, e: Evidence, after: Writer)
    requires EnvOk(env) && Consistent(env, w, h) && TypedEvidence(e) && Safe(e.event, REASON_TEXT, false)
    requires w.evidenceSeq < U64 - 1
    requires after == w.(evidenceSeq := w.evidenceSeq + 1,
                         file := w.file + Unlines(EvidenceLines(env, EvidenceRowFor(env, w, e))))
    ensures Consistent(env, after, h.(spoiled := h.spoiled || h.evidenceLost))
  {
    hide Safe, EvidenceFits, EvidenceLines, EvidenceRowFor, EvidenceRowOk, EvidenceCrc, Shorts, Unlines, EnvOk, InStep,
         Stuck, Total;
    if h.spoiled {
      EvidenceRowForFits(env, w, e);
      StaysStuck(env, w.file, EvidenceLines(env, EvidenceRowFor(env, w, e)));
    } else {
      var s :| InStep(env, w, h, s);
      if h.evidenceLost {
        EvidenceSpoils(env, w, h, s, e);
      } else {
        EvidenceKeepsStep(env, w, h, s, e, after);
      }
    }
  }

  lemma RecordEvidenceKeeps(env: Env, w: Writer, h: Health, evidence: Evidence, d: Delivery)
    requires EnvOk(env) && Consistent(env, w, h) && TypedEvidence(evidence)
    ensures var (after, ok) := RecordEvidence(env, w, evidence, d);
            var e := EvidenceDefaults(evidence);
            && Consistent(env, after, NextHealth(env, w, h, Readiness(evidence, d)))
            && (ok <==> AdmitsEvidence(w, evidence) && Lands(env, d) && d.disk.Synced?)
            && (!AdmitsEvidence(w, evidence) ==> after == w)
            && (AdmitsEvidence(w, evidence) ==>
                  && after.evidenceSeq == w.evidenceSeq + 1 && after.lastSeq == w.lastSeq && after.counts == w.counts
                  && after.runtime == w.runtime
                  && after.file == w.file + if Lands(env, d) then Unlines(EvidenceLines(env, EvidenceRowFor(env, w, e)))
                                            else "")
  {
    hide Safe, EvidenceLines, EvidenceRowFor, Unlines, EnvOk, RecordEvidence, Lands, Stuck, InStep, Total;
    RecordEvidenceSteps(env, w, evidence, d);
    var e := EvidenceDefaults(evidence);
    TypedEvidenceDefaults(evidence);
    hide EvidenceDefaults;
    var after := RecordEvidence(env, w, evidence, d).0;
    if AdmitsEvidence(w, evidence) {
      if Lands(env, d) {
        EvidenceLandsConsistently(env, w, h, e, after);
      } else {
        assert w.file + "" == w.file;
        LossIsConsistent(env, w, h, after, h.(evidenceLost := true));
      }
    }
  }

  // -- restarts

  /** A restart takes the file's counters, or is refused exactly when the file is spoiled. */
  lemma RestartKeeps(env: Env, w: Writer, h: Health, rt: Runtime)
    requires Consistent(env, w, h) && TypedRuntime(rt)
    ensures Open(env, w.file, rt).Some? <==> !h.spoiled
    ensures !h.spoiled ==>
              var after := Open(env, w.file, rt).value;
              && Consistent(env, after, Sound()) && after.file == w.file && after.runtime == rt
              && after.lastSeq <= w.lastSeq && (after.lastSeq == w.lastSeq <==> !h.auditLost)
              && (after.counts == w.counts <==> !h.auditLost)
              && after.evidenceSeq <= w.evidenceSeq && (after.evidenceSeq == w.evidenceSeq <==> !h.evidenceLost)
  {
    hide ScanFile, ScansTo, Header, StartsWith, Stuck;
    HeaderNotEmpty();
    if h.spoiled {
      StuckIsRefused(env, w.file);
      EmptyIsNotStuck(env);
    } else {
      var s :| InStep(env, w, h, s);
      ScansToIsScanFile(env, w.file, s);
      ScansToIsQuiet(env, w.file, s);
      EmptyHasNoHeader();
      assert InStep(env, Open(env, w.file, rt).value, Sound(), s);
    }
  }

  lemma EmptyIsNotStuck(env: Env)
    ensures !Stuck(env, "")
  {
    hide ScansTo;
    EmptyScans(env);
    ScansToIsNotStuck(env, "", Start());
  }

  lemma ScansToIsNotStuck(env: Env, file: string, s: Scan)
    requires ScansTo(env, file, s)
    ensures !Stuck(env, file)
  {
    hide ScanLines, CutLines, Shorts;
  }

  lemma EmptyHasNoHeader()
    ensures !StartsWith("", Header())
  {
    HeaderNotEmpty();
    hide Header;
  }

  lemma HeaderNotEmpty()
    ensures Header() != ""
  {
    hide Tables;
  }

  lemma HeaderScans(env: Env)
    ensures ScansTo(env, Header(), Start())
  {
    hide HeaderLines, ScanLines, CutLines, Shorts, AreNotes, Unlines;
    HeaderIsPlain();
    ScanHeader(env);
    EmptyScans(env);
    AppendScans(env, "", Start(), HeaderLines(), Start());
    assert "" + Unlines(HeaderLines()) == Header();
  }

  lemma EmptyScans(env: Env)
    ensures ScansTo(env, "", Start())
  {
    assert CutLines("") == Cut([], "");
  }

  lemma OpenNew(env: Env, rt: Runtime)
    requires TypedRuntime(rt)
    ensures Open(env, "", rt) == Some(Writer(Header(), 0, 0, Zeros(), rt))
    ensures Consistent(env, Open(env, "", rt).value, Sound())
  {
    hide ScanFile, Header, ScansTo;
    HeaderScans(env);
    ScansToIsScanFile(env, Header(), Start());
    assert InStep(env, Open(env, "", rt).value, Sound(), Start());
  }

  // -- every run

  lemma ApplyKeeps(env: Env, w: Writer, h: Health, op: Op)
    requires EnvOk(env) && Consistent(env, w, h) && TypedOp(op)
    ensures |w.counts| == KINDS
    ensures Apply(env, w, op).Some? <==> !(op.Restart? && h.spoiled)
    ensures Apply(env, w, op).Some? ==> Consistent(env, Apply(env, w, op).value, NextHealth(env, w, h, op))
  {
    hide Consistent, Open, Record, RecordEvidence, EnvOk, Admits, AdmitsEvidence, Lands;
    ConsistentIsCountable(env, w, h);
    match op
    case Audit(e, d) => RecordKeeps(env, w, h, e, d);
    case Readiness(e, d) => RecordEvidenceKeeps(env, w, h, e, d);
    case Restart(r) => RestartKeeps(env, w, h, r);
  }

  lemma {:induction false} RunIsConsistent(env: Env, rt: Runtime, ops: seq<Op>)
    requires EnvOk(env) && TypedRuntime(rt) && TypedOps(ops) && Run(env, rt, ops).Some?
    ensures Consistent(env, Run(env, rt, ops).value, HealthOf(env, rt, ops))
  {
    hide Consistent, Open, Apply, NextHealth, EnvOk;
    if ops == [] {
      OpenNew(env, rt);
    } else {
      var n := |ops| - 1;
      RunIsConsistent(env, rt, ops[..n]);
      assert TypedOp(ops[n]);
      ApplyKeeps(env, Run(env, rt, ops[..n]).value, HealthOf(env, rt, ops[..n]), ops[n]);
    }
  }

  /**
   Restart recovery, for any run of records, evidence and restarts with any losses.  The scanner
   refuses the file exactly when a record landed behind a lost one.  Otherwise it returns counters
   that add up, equal to the writer's exactly where nothing was lost since the last restart
   and behind them where something was, and one more restart resumes with them.
   */
  lemma RestartRecovers(env: Env, rt: Runtime, ops: seq<Op>, again: Runtime)
    requires EnvOk(env) && TypedRuntime(rt) && TypedOps(ops) && TypedRuntime(again) && Run(env, rt, ops).Some?
    ensures var w, h := Run(env, rt, ops).value, HealthOf(env, rt, ops);
            && Total(w.counts) == w.lastSeq
            && (ScanFile(env, w.file).Some? <==> !h.spoiled)
            && (Open(env, w.file, again).Some? <==> !h.spoiled)
            && (!h.spoiled ==>
                  var c := ScanFile(env, w.file).value;
                  && Open(env, w.file, again) == Some(Writer(w.file, c.lastSeq, c.evidenceSeq, c.counts, again))
                  && Total(c.counts) == c.lastSeq
                  && c.lastSeq <= w.lastSeq && (c.lastSeq == w.lastSeq <==> !h.auditLost)
                  && (c.counts == w.counts <==> !h.auditLost)
                  && c.evidenceSeq <= w.evidenceSeq && (c.evidenceSeq == w.evidenceSeq <==> !h.evidenceLost))
  {
    hide ScanFile, ScansTo, Run, HealthOf, Header, StartsWith, Stuck;
    RunIsConsistent(env, rt, ops);
    var w, h := Run(env, rt, ops).value, HealthOf(env, rt, ops);
    RestartKeeps(env, w, h, again);
    if h.spoiled {
      StuckIsRefused(env, w.file);
    } else {
      var s :| InStep(env, w, h, s);
      ScansToIsScanFile(env, w.file, s);
      ScansToIsQuiet(env, w.file, s);
      EmptyHasNoHeader();
    }
  }

  // -- what spoils a file, said of the operations themselves

  /** Operation `i` gave out a number, for an audit record or for evidence. */
  predicate NumberedAt(env: Env, rt: Runtime, ops: seq<Op>, i: nat, audit: bool)
    requires TypedOps(ops) && i < |ops|
  {
    var w := Run(env, rt, ops[..i]);
    && w.Some?
    && match ops[i]
       case Audit(e, _) => audit && Admits(w.value, e)
       case Readiness(e, _) => !audit && AdmitsEvidence(w.value, e)
       case Restart(_) => false
  }

  predicate LostAt(env: Env, rt: Runtime, ops: seq<Op>, i: nat, audit: bool)
    requires TypedOps(ops) && i < |ops|
  {
    NumberedAt(env, rt, ops, i, audit) && !Lands(env, ops[i].delivery)
  }

  predicate LandedAt(env: Env, rt: Runtime, ops: seq<Op>, i: nat, audit: bool)
    requires TypedOps(ops) && i < |ops|
  {
    NumberedAt(env, rt, ops, i, audit) && Lands(env, ops[i].delivery)
  }

  predicate NoRestart(ops: seq<Op>, i: nat, j: nat)
    requires j <= |ops|
  {
    forall k :: i < k < j ==> !ops[k].Restart?
  }

  /** A record of the kind was lost at `i`, and no restart came after it. */
  predicate OpenLoss(env: Env, rt: Runtime, ops: seq<Op>, audit: bool, i: nat)
    requires TypedOps(ops)
  {
    i < |ops| && LostAt(env, rt, ops, i, audit) && NoRestart(ops, i, |ops|)
  }

  /** A record lost at `i` and one of its kind that landed at `j`, without a restart between them. */
  predicate Gap(env: Env, rt: Runtime, ops: seq<Op>, audit: bool, i: nat, j: nat)
    requires TypedOps(ops)
  {
    i < j < |ops| && LostAt(env, rt, ops, i, audit) && LandedAt(env, rt, ops, j, audit) && NoRestart(ops, i, j)
  }

  ghost predicate HasOpenLoss(env: Env, rt: Runtime, ops: seq<Op>, audit: bool)
    requires TypedOps(ops)
  {
    exists i :: OpenLoss(env, rt, ops, audit, i)
  }

  ghost predicate HasGap(env: Env, rt: Runtime, ops: seq<Op>, audit: bool)
    requires TypedOps(ops)
  {
    exists i, j :: Gap(env, rt, ops, audit, i, j)
  }

  lemma SameBefore(env: Env, rt: Runtime, ops: seq<Op>, i: nat, audit: bool)
    requires TypedOps(ops) && i < |ops| - 1
    ensures var before := ops[..|ops| - 1];
            && (LostAt(env, rt, before, i, audit) <==> LostAt(env, rt, ops, i, audit))
            && (LandedAt(env, rt, before, i, audit) <==> LandedAt(env, rt, ops, i, audit))
  {
    hide Run, Admits, AdmitsEvidence, Lands;
    assert ops[..|ops| - 1][..i] == ops[..i];
  }

  lemma OpenLossStep(env: Env, rt: Runtime, ops: seq<Op>, audit: bool)
    requires TypedOps(ops) && ops != []
    ensures var n := |ops| - 1;
            HasOpenLoss(env, rt, ops, audit)
            <==> LostAt(env, rt, ops, n, audit) || (!ops[n].Restart? && HasOpenLoss(env, rt, ops[..n], audit))
  {
    hide LostAt, LandedAt;
    var n := |ops| - 1;
    var before := ops[..n];
    forall i: nat | i < n ensures OpenLoss(env, rt, ops, audit, i)
                              <==> !ops[n].Restart? && OpenLoss(env, rt, before, audit, i) {
      SameBefore(env, rt, ops, i, audit);
      assert forall k :: i < k < n ==> before[k] == ops[k];
    }
    assert LostAt(env, rt, ops, n, audit) ==> OpenLoss(env, rt, ops, audit, n);
  }

  lemma GapStep(env: Env, rt: Runtime, ops: seq<Op>, audit: bool)
    requires TypedOps(ops) && ops != []
    ensures var n := |ops| - 1;
            HasGap(env, rt, ops, audit)
            <==> || HasGap(env, rt, ops[..n], audit)
                 || (LandedAt(env, rt, ops, n, audit) && HasOpenLoss(env, rt, ops[..n], audit))
  {
    hide LostAt, LandedAt;
    var n := |ops| - 1;
    var before := ops[..n];
    forall i: nat, j: nat | i < j < n ensures Gap(env, rt, ops, audit, i, j) <==> Gap(env, rt, before, audit, i, j) {
      SameBefore(env, rt, ops, i, audit);
      SameBefore(env, rt, ops, j, audit);
      assert forall k :: i < k < j ==> before[k] == ops[k];
    }
    forall i: nat | i < n ensures Gap(env, rt, ops, audit, i, n)
                              <==> LandedAt(env, rt, ops, n, audit) && OpenLoss(env, rt, before, audit, i) {
      SameBefore(env, rt, ops, i, audit);
      assert forall k :: i < k < n ==> before[k] == ops[k];
    }
  }

  lemma RunBefore(env: Env, rt: Runtime, ops: seq<Op>)
    requires TypedOps(ops) && ops != [] && Run(env, rt, ops).Some?
    ensures Run(env, rt, ops[..|ops| - 1]).Some?
  {
    hide Apply;
  }

  lemma HealthStep(env: Env, rt: Runtime, ops: seq<Op>)
    requires TypedOps(ops) && ops != [] && Run(env, rt, ops).Some?
    ensures Run(env, rt, ops[..|ops| - 1]).Some?
    ensures var n := |ops| - 1;
            var h, after := HealthOf(env, rt, ops[..n]), HealthOf(env, rt, ops);
            && (after.auditLost <==> LostAt(env, rt, ops, n, true) || (!ops[n].Restart? && h.auditLost))
            && (after.evidenceLost <==> LostAt(env, rt, ops, n, false) || (!ops[n].Restart? && h.evidenceLost))
            && (after.spoiled <==> || h.spoiled
                                   || (LandedAt(env, rt, ops, n, true) && h.auditLost)
                                   || (LandedAt(env, rt, ops, n, false) && h.evidenceLost))
  {
    hide Run, Admits, AdmitsEvidence, Lands;
    RunBefore(env, rt, ops);
  }

  /** The health of a run, said without the tracker. */
  lemma {:induction false} SpoiledIffGap(env: Env, rt: Runtime, ops: seq<Op>)
    requires TypedOps(ops) && Run(env, rt, ops).Some?
    ensures var h := HealthOf(env, rt, ops);
            && (h.spoiled <==> HasGap(env, rt, ops, true) || HasGap(env, rt, ops, false))
            && (h.auditLost <==> HasOpenLoss(env, rt, ops, true))
            && (h.evidenceLost <==> HasOpenLoss(env, rt, ops, false))
  {
    hide Run, LostAt, LandedAt;
    if ops != [] {
      hide HealthOf, HasGap, HasOpenLoss;
      HealthStep(env, rt, ops);
      SpoiledIffGap(env, rt, ops[..|ops| - 1]);
      OpenLossStep(env, rt, ops, true);
      OpenLossStep(env, rt, ops, false);
      GapStep(env, rt, ops, true);
      GapStep(env, rt, ops, false);
    }
  }

  predicate AllLand(env: Env, ops: seq<Op>) {
    forall i :: 0 <= i < |ops| ==> ops[i].Restart? || Lands(env, ops[i].delivery)
  }

  lemma {:induction false} NothingLost(env: Env, rt: Runtime, ops: seq<Op>)
    requires EnvOk(env) && TypedRuntime(rt) && TypedOps(ops) && AllLand(env, ops)
    ensures Run(env, rt, ops).Some? && HealthOf(env, rt, ops) == Sound()
  {
    hide Consistent, Open, Apply, EnvOk, Lands, Admits, AdmitsEvidence;
    if ops == [] {
      OpenNew(env, rt);
    } else {
      var n := |ops| - 1;
      NothingLost(env, rt, ops[..n]);
      RunIsConsistent(env, rt, ops[..n]);
      assert TypedOp(ops[n]);
      ApplyKeeps(env, Run(env, rt, ops[..n]).value, HealthOf(env, rt, ops[..n]), ops[n]);
    }
  }

  /** Without a loss every restart succeeds and the scanner returns exactly the writer's counters. */
  lemma LosslessRunRecovers(env: Env, rt: Runtime, ops: seq<Op>, again: Runtime)
    requires EnvOk(env) && TypedRuntime(rt) && TypedOps(ops) && TypedRuntime(again) && AllLand(env, ops)
    ensures Run(env, rt, ops).Some?
    ensures var w := Run(env, rt, ops).value;
            && ScanFile(env, w.file) == Some(Counters(w.lastSeq, w.evidenceSeq, w.counts))
            && Open(env, w.file, again) == Some(w.(runtime := again))
            && Total(w.counts) == w.lastSeq
  {
    NothingLost(env, rt, ops);
    RestartRecovers(env, rt, ops, again);
    hide ScanFile, Open, Run, HealthOf;
  }
}
