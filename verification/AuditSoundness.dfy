/** What the scanner's acceptance means, for any file whatever. */
module AuditSoundness {
  import opened Bytes
  import opened Digits
  import opened Tokens
  import opened AuditLog
  import opened AuditScan

  // -- the rows of a file, read without any scanner state

  datatype Rows = Rows(audits: seq<AuditRow>, endpoints: seq<ParsedEndpoint>, macs: seq<ParsedMac>,
                       evidence: seq<EvidenceRow>, evidenceMacs: seq<ParsedMac>)

  /** A line is a row of its kind, or one of those that carry nothing. */
  predicate LineReads(raw: string) {
    match Classify(CString(raw))
    case AuditLine(body) => ParseAuditRow(body).Some?
    case EndpointLine(body) => ParseEndpointRow(body).Some?
    case MacLine(body) => ParseMacRow(body).Some?
    case EvidenceLine(body) => ParseEvidenceRow(body).Some?
    case EvidenceMacLine(body) => ParseMacRow(body).Some?
    case Ignorable => true
    case Unknown => false
  }

  function AddLine(h: Rows, raw: string): Rows {
    match Classify(CString(raw))
    case AuditLine(body) =>
      var r := ParseAuditRow(body);
      if r.Some? then h.(audits := h.audits + [r.value]) else h
    case EndpointLine(body) =>
      var r := ParseEndpointRow(body);
      if r.Some? then h.(endpoints := h.endpoints + [r.value]) else h
    case MacLine(body) =>
      var r := ParseMacRow(body);
      if r.Some? then h.(macs := h.macs + [r.value]) else h
    case EvidenceLine(body) =>
      var r := ParseEvidenceRow(body);
      if r.Some? then h.(evidence := h.evidence + [r.value]) else h
    case EvidenceMacLine(body) =>
      var r := ParseMacRow(body);
      if r.Some? then h.(evidenceMacs := h.evidenceMacs + [r.value]) else h
    case _ => h
  }

  function RowsOf(ls: seq<string>): Rows {
    if ls == [] then Rows([], [], [], [], []) else AddLine(RowsOf(ls[..|ls| - 1]), ls[|ls| - 1])
  }

  /** Every line of a file, the unfinished last one included. */
  function LinesOf(text: string): seq<string> {
    var c := CutLines(text);
    if c.rest == "" then c.lines else c.lines + [c.rest]
  }

  // -- what is claimed of them

  function CountKind(rows: seq<AuditRow>, k: Kind): nat {
    if rows == [] then 0
    else CountKind(rows[..|rows| - 1], k) + (if rows[|rows| - 1].kind == k then 1 else 0)
  }

  /** The i-th row is numbered i + 1, and counts the rows of its kind. */
  predicate Numbered(rows: seq<AuditRow>, i: nat)
    requires i < |rows|
  {
    rows[i].seqNo == i + 1 && rows[i].totalEvents == i + 1 && rows[i].eventNo == CountKind(rows[..i + 1], rows[i].kind)
  }

  predicate DistinctRoles(g: seq<ParsedEndpoint>) {
    forall i, j :: 0 <= i < j < |g| ==> g[i].role != g[j].role
  }

  function GroupMap(g: seq<ParsedEndpoint>): map<Role, Endpoint> {
    if g == [] then map[] else GroupMap(g[..|g| - 1])[g[|g| - 1].role := g[|g| - 1].endpoint]
  }

  predicate BelongTo(g: seq<ParsedEndpoint>, n: nat) {
    forall i :: 0 <= i < |g| ==> g[i].seqNo == n
  }

  /** Four endpoint rows, one for each role, that the record's checksum covers. */
  predicate Grouped(env: Env, row: AuditRow, g: seq<ParsedEndpoint>) {
    && |g| == 4 && DistinctRoles(g) && BelongTo(g, row.seqNo) && AllRoles(GroupMap(g))
    && AuditCrc(env, row, PeersOf(GroupMap(g))) == row.crc
  }

  predicate Tagged(key: Key, row: AuditRow, g: seq<ParsedEndpoint>, m: ParsedMac)
    requires AllRoles(GroupMap(g))
  {
    m.seqNo == row.seqNo && m.fingerprint == key.fingerprint
    && m.tag == LowerAll(key.tag(AuditMessage(row, PeersOf(GroupMap(g)))))
  }

  /** The endpoint rows of the i-th record. */
  function GroupAt(h: Rows, i: nat): seq<ParsedEndpoint>
    requires 4 * i + 4 <= |h.endpoints|
  {
    h.endpoints[4 * i..4 * i + 4]
  }

  predicate GroupedAt(env: Env, h: Rows, i: nat) {
    i < |h.audits| && 4 * i + 4 <= |h.endpoints| && Grouped(env, h.audits[i], GroupAt(h, i))
  }

  predicate TaggedAt(key: Key, h: Rows, i: nat) {
    && i < |h.audits| && i < |h.macs| && 4 * i + 4 <= |h.endpoints|
    && AllRoles(GroupMap(GroupAt(h, i))) && Tagged(key, h.audits[i], GroupAt(h, i), h.macs[i])
  }

  /** Rows added at the end leave the records before them alone. */
  predicate Extends(h: Rows, more: Rows) {
    && |h.audits| <= |more.audits| && more.audits[..|h.audits|] == h.audits
    && |h.endpoints| <= |more.endpoints| && more.endpoints[..|h.endpoints|] == h.endpoints
    && |h.macs| <= |more.macs| && more.macs[..|h.macs|] == h.macs
  }

  lemma RecordStays(env: Env, h: Rows, more: Rows, i: nat)
    requires Extends(h, more)
    ensures GroupedAt(env, h, i) ==> GroupedAt(env, more, i)
    ensures env.key.Some? && TaggedAt(env.key.value, h, i) ==> TaggedAt(env.key.value, more, i)
  {
    hide Grouped, Tagged, AllRoles, GroupMap;
    if i < |h.audits| {
      assert more.audits[i] == more.audits[..|h.audits|][i];
    }
    if i < |h.macs| {
      assert more.macs[i] == more.macs[..|h.macs|][i];
    }
    if 4 * i + 4 <= |h.endpoints| {
      assert GroupAt(more, i) == more.endpoints[..|h.endpoints|][4 * i..4 * i + 4];
    }
  }

  // -- what the scanner keeps

  ghost predicate RowsInv(s: Scan, h: Rows) {
    var n := |h.audits|;
    && |s.counts| == KINDS && s.lastSeq <= n == s.lastSeq + (if s.audit.Some? then 1 else 0)
    && (s.audit.Some? ==> h.audits[n - 1] == s.audit.value.row)
    && (forall i :: 0 <= i < n ==> Numbered(h.audits, i))
    && (forall k :: s.counts[KindIndex(k)] == CountKind(h.audits[..s.lastSeq], k))
  }

  ghost predicate GroupInv(env: Env, s: Scan, h: Rows) {
    var m := s.lastSeq;
    && m <= |h.audits| && 4 * m <= |h.endpoints|
    && (forall i: nat :: i < m ==> GroupedAt(env, h, i))
    && (s.audit.None? ==> |h.endpoints| == 4 * m)
    && (s.audit.Some? ==>
          var g := h.endpoints[4 * m..];
          DistinctRoles(g) && BelongTo(g, s.audit.value.row.seqNo) && GroupMap(g) == s.audit.value.endpoints)
  }

  ghost predicate MacInv(env: Env, s: Scan, h: Rows) {
    var m := s.lastSeq;
    && (env.key.None? ==> h.macs == [])
    && (env.key.Some? ==>
          var pending := s.audit.Some? && s.audit.value.mac.Some?;
          && |h.macs| == m + (if pending then 1 else 0)
          && (pending ==> h.macs[m] == s.audit.value.mac.value && h.macs[m].seqNo == s.audit.value.row.seqNo)
          && forall i: nat :: i < m ==> TaggedAt(env.key.value, h, i))
  }

  ghost predicate EvidenceInv(env: Env, s: Scan, h: Rows) {
    && s.evidenceSeq == |h.evidence| % U64
    && forall i :: 0 <= i < |h.evidence| ==>
         h.evidence[i].seqNo == (i + 1) % U64
         && h.evidence[i].crc == EvidenceCrc(env, h.evidence[i].seqNo, h.evidence[i].evidence)
  }

  predicate EvidenceTagged(key: Key, row: EvidenceRow, m: ParsedMac) {
    m.seqNo == row.seqNo && m.fingerprint == key.fingerprint && m.tag == LowerAll(key.tag(EvidenceMessage(row)))
  }

  predicate EvidenceTaggedAt(key: Key, h: Rows, i: nat) {
    i < |h.evidence| && i < |h.evidenceMacs| && EvidenceTagged(key, h.evidence[i], h.evidenceMacs[i])
  }

  /** Every evidence row but an open one has its tag. */
  ghost predicate EvidenceTagInv(env: Env, s: Scan, h: Rows) {
    var n := |h.evidence|;
    && (env.key.None? ==> h.evidenceMacs == [])
    && (s.evidence.Some? ==> n > 0 && h.evidence[n - 1] == s.evidence.value.row)
    && (env.key.Some? ==>
          && |h.evidenceMacs| == (if s.evidence.Some? && !s.evidence.value.macSeen then n - 1 else n)
          && forall i: nat :: i < |h.evidenceMacs| ==> EvidenceTaggedAt(env.key.value, h, i))
  }

  // -- finalising

  lemma FinalizeKeepsRows(env: Env, s: Scan, h: Rows)
    requires RowsInv(s, h) && FinalizeAudit(env, s).Some?
    ensures RowsInv(FinalizeAudit(env, s).value, h)
  {
    hide Sealed;
    if s.audit.Some? {
      var n := |h.audits|;
      var after := FinalizeAudit(env, s).value;
      assert Numbered(h.audits, n - 1);
      assert h.audits[..n][..n - 1] == h.audits[..n - 1];
      forall k ensures after.counts[KindIndex(k)] == CountKind(h.audits[..n], k) {
        IndexIsInjective(k, h.audits[n - 1].kind);
      }
    }
  }

  lemma IndexIsInjective(j: Kind, k: Kind)
    ensures KindIndex(j) == KindIndex(k) ==> j == k
  {
  }

  lemma {:induction false} GroupKeys(g: seq<ParsedEndpoint>)
    requires DistinctRoles(g)
    ensures |GroupMap(g)| == |g| && forall r :: r in GroupMap(g) <==> exists i :: 0 <= i < |g| && g[i].role == r
  {
    if g != [] {
      var n := |g| - 1;
      GroupKeys(g[..n]);
      assert forall i :: 0 <= i < n ==> g[..n][i] == g[i];
      assert g[n].role !in GroupMap(g[..n]);
    }
  }

  lemma FullMap(m: map<Role, Endpoint>)
    requires AllRoles(m)
    ensures |m| == 4
  {
    var roles := {Client, Listen, Target, Backend};
    forall r: Role ensures r in roles {
      match r
      case Client =>
      case Listen =>
      case Target =>
      case Backend =>
    }
    assert m.Keys == roles;
    assert |roles| == 4;
    assert |m| == |m.Keys|;
  }

  /** A sealed record's endpoint rows are exactly four. */
  lemma SealedGroup(env: Env, p: Pending, g: seq<ParsedEndpoint>)
    requires Sealed(env, p) && DistinctRoles(g) && BelongTo(g, p.row.seqNo) && GroupMap(g) == p.endpoints
    ensures Grouped(env, p.row, g)
    ensures env.key.Some? ==>
              p.mac.Some? && (p.mac.value.seqNo == p.row.seqNo ==> Tagged(env.key.value, p.row, g, p.mac.value))
  {
    hide AuditCrc, AuditMessage;
    GroupKeys(g);
    FullMap(GroupMap(g));
  }

  lemma FinalizeKeepsGroups(env: Env, s: Scan, h: Rows)
    requires RowsInv(s, h) && GroupInv(env, s, h) && FinalizeAudit(env, s).Some?
    ensures GroupInv(env, FinalizeAudit(env, s).value, h)
    ensures s.audit.Some? ==> GroupedAt(env, h, s.lastSeq) && GroupAt(h, s.lastSeq) == h.endpoints[4 * s.lastSeq..]
  {
    hide Sealed, Grouped, GroupMap, BelongTo, DistinctRoles;
    if s.audit.Some? {
      var m := s.lastSeq;
      assert Numbered(h.audits, m);
      var g := h.endpoints[4 * m..];
      SealedGroup(env, s.audit.value, g);
      GroupedIsFour(env, s.audit.value.row, g);
      assert GroupAt(h, m) == g;
      assert GroupedAt(env, h, m);
      hide GroupedAt;
    }
  }

  lemma GroupedIsFour(env: Env, row: AuditRow, g: seq<ParsedEndpoint>)
    requires Grouped(env, row, g)
    ensures |g| == 4 && AllRoles(GroupMap(g))
  {
  }

  lemma FinalizeKeepsMacs(env: Env, s: Scan, h: Rows)
    requires RowsInv(s, h) && GroupInv(env, s, h) && MacInv(env, s, h) && FinalizeAudit(env, s).Some?
    ensures MacInv(env, FinalizeAudit(env, s).value, h)
  {
    hide Sealed, Grouped, GroupMap, BelongTo, DistinctRoles, Tagged, AllRoles;
    if s.audit.Some? && env.key.Some? {
      var m := s.lastSeq;
      assert Numbered(h.audits, m);
      FinalizeKeepsGroups(env, s, h);
      SealedGroup(env, s.audit.value, h.endpoints[4 * m..]);
      GroupedIsFour(env, h.audits[m], GroupAt(h, m));
      assert TaggedAt(env.key.value, h, m);
      hide TaggedAt, GroupedAt;
    }
  }

  // -- lines

  lemma AuditKeepsRows(s: Scan, h: Rows, row: AuditRow)
    requires RowsInv(s, h) && s.audit.None? && Continues(s, row)
    ensures RowsInv(s.(audit := Some(Pending(row, map[], None))), h.(audits := h.audits + [row]))
  {
    var more := h.audits + [row];
    var n := |h.audits|;
    assert more[..n] == h.audits && h.audits[..n] == h.audits;
    assert more[..n + 1] == more;
    forall i | 0 <= i < |more| ensures Numbered(more, i) {
      if i < n {
        assert Numbered(h.audits, i);
        assert more[..i + 1] == h.audits[..i + 1];
      }
    }
  }

  lemma AuditLineKeeps(env: Env, s: Scan, h: Rows, row: AuditRow)
    requires RowsInv(s, h) && GroupInv(env, s, h) && MacInv(env, s, h) && s.audit.None? && Continues(s, row)
    ensures var after, more := s.(audit := Some(Pending(row, map[], None))), h.(audits := h.audits + [row]);
            RowsInv(after, more) && GroupInv(env, after, more) && MacInv(env, after, more)
  {
    AuditKeepsRows(s, h, row);
    hide RowsInv, Continues, GroupedAt, TaggedAt;
    var more := h.(audits := h.audits + [row]);
    forall i: nat {
      RecordStays(env, h, more, i);
    }
    assert h.endpoints[4 * s.lastSeq..] == [];
  }

  lemma GroupGrows(g: seq<ParsedEndpoint>, e: ParsedEndpoint)
    requires DistinctRoles(g) && e.role !in GroupMap(g)
    ensures DistinctRoles(g + [e]) && GroupMap(g + [e]) == GroupMap(g)[e.role := e.endpoint]
  {
    GroupKeys(g);
    assert (g + [e])[..|g|] == g;
  }

  lemma EndpointKeepsGroups(env: Env, s: Scan, h: Rows, e: ParsedEndpoint)
    requires GroupInv(env, s, h) && s.audit.Some?
    requires e.seqNo == s.audit.value.row.seqNo && e.role !in s.audit.value.endpoints
    ensures var p := s.audit.value;
            GroupInv(env, s.(audit := Some(p.(endpoints := p.endpoints[e.role := e.endpoint]))),
                     h.(endpoints := h.endpoints + [e]))
  {
    hide GroupedAt, GroupMap, DistinctRoles;
    var m, more := s.lastSeq, h.(endpoints := h.endpoints + [e]);
    forall i: nat {
      RecordStays(env, h, more, i);
    }
    assert more.endpoints[4 * m..] == h.endpoints[4 * m..] + [e];
    GroupGrows(h.endpoints[4 * m..], e);
  }

  lemma EndpointKeepsMacs(env: Env, s: Scan, h: Rows, e: ParsedEndpoint)
    requires MacInv(env, s, h) && s.audit.Some?
    ensures var p := s.audit.value;
            MacInv(env, s.(audit := Some(p.(endpoints := p.endpoints[e.role := e.endpoint]))),
                   h.(endpoints := h.endpoints + [e]))
  {
    hide TaggedAt;
    var more := h.(endpoints := h.endpoints + [e]);
    forall i: nat {
      RecordStays(env, h, more, i);
    }
  }

  lemma EndpointLineKeeps(env: Env, s: Scan, h: Rows, e: ParsedEndpoint)
    requires RowsInv(s, h) && GroupInv(env, s, h) && MacInv(env, s, h) && s.audit.Some?
    requires e.seqNo == s.audit.value.row.seqNo && e.role !in s.audit.value.endpoints
    ensures var p := s.audit.value;
            var after := s.(audit := Some(p.(endpoints := p.endpoints[e.role := e.endpoint])));
            var more := h.(endpoints := h.endpoints + [e]);
            RowsInv(after, more) && GroupInv(env, after, more) && MacInv(env, after, more)
  {
    hide GroupInv, MacInv, Numbered, CountKind;
    EndpointKeepsGroups(env, s, h, e);
    EndpointKeepsMacs(env, s, h, e);
  }

  lemma MacLineKeeps(env: Env, s: Scan, h: Rows, mac: ParsedMac)
    requires RowsInv(s, h) && GroupInv(env, s, h) && MacInv(env, s, h) && s.audit.Some?
    requires env.key.Some? && mac.seqNo == s.audit.value.row.seqNo && s.audit.value.mac.None?
    ensures var after := s.(audit := Some(s.audit.value.(mac := Some(mac))));
            var more := h.(macs := h.macs + [mac]);
            RowsInv(after, more) && GroupInv(env, after, more) && MacInv(env, after, more)
  {
    hide GroupedAt, TaggedAt, Numbered, CountKind, GroupMap, BelongTo, DistinctRoles;
    var more := h.(macs := h.macs + [mac]);
    assert more.macs[|h.macs|] == mac;
    forall i: nat {
      RecordStays(env, h, more, i);
    }
  }

  ghost predicate Inv(env: Env, s: Scan, h: Rows) {
    RowsInv(s, h) && GroupInv(env, s, h) && MacInv(env, s, h) && EvidenceInv(env, s, h) && EvidenceTagInv(env, s, h)
  }

  lemma FinalizeKeeps(env: Env, s: Scan, h: Rows)
    requires Inv(env, s, h) && FinalizeAudit(env, s).Some?
    ensures Inv(env, FinalizeAudit(env, s).value, h)
  {
    FinalizeKeepsRows(env, s, h);
    FinalizeKeepsGroups(env, s, h);
    FinalizeKeepsMacs(env, s, h);
    TagsUntouched(env, s, h, FinalizeAudit(env, s).value, h);
    hide RowsInv, GroupInv, MacInv, EvidenceTagInv, Sealed;
  }

  lemma TagsUntouched(env: Env, s: Scan, h: Rows, after: Scan, more: Rows)
    requires EvidenceTagInv(env, s, h) && after.evidence == s.evidence
    requires more.evidence == h.evidence && more.evidenceMacs == h.evidenceMacs
    ensures EvidenceTagInv(env, after, more)
  {
    hide EvidenceTagged;
    forall i: nat {
      TagStays(env, h, more, i);
    }
  }

  lemma TagStays(env: Env, h: Rows, more: Rows, i: nat)
    requires |h.evidence| <= |more.evidence| && more.evidence[..|h.evidence|] == h.evidence
    requires |h.evidenceMacs| <= |more.evidenceMacs| && more.evidenceMacs[..|h.evidenceMacs|] == h.evidenceMacs
    ensures env.key.Some? && EvidenceTaggedAt(env.key.value, h, i) ==> EvidenceTaggedAt(env.key.value, more, i)
  {
    hide EvidenceTagged;
    if i < |h.evidence| && i < |h.evidenceMacs| {
      assert more.evidence[i] == more.evidence[..|h.evidence|][i];
      assert more.evidenceMacs[i] == more.evidenceMacs[..|h.evidenceMacs|][i];
    }
  }

  /** Closing an evidence record: under a key it has been tagged. */
  lemma FinalizeKeepsTags(env: Env, s: Scan, h: Rows)
    requires EvidenceTagInv(env, s, h) && FinalizeEvidence(env, s).Some?
    ensures EvidenceTagInv(env, FinalizeEvidence(env, s).value, h)
    ensures env.key.Some? ==> |h.evidenceMacs| == |h.evidence|
  {
    hide EvidenceTaggedAt;
  }

  lemma EvidenceOpens(env: Env, s: Scan, h: Rows, row: EvidenceRow)
    requires EvidenceTagInv(env, s, h) && s.evidence.None?
    ensures EvidenceTagInv(env, s.(evidence := Some(PendingEvidence(row, false)), evidenceSeq := row.seqNo),
                           h.(evidence := h.evidence + [row]))
  {
    var more := h.(evidence := h.evidence + [row]);
    hide EvidenceTaggedAt;
    forall i: nat {
      TagStays(env, h, more, i);
    }
  }

  lemma EvidenceIsTagged(env: Env, s: Scan, h: Rows, m: ParsedMac)
    requires EvidenceTagInv(env, s, h) && s.evidence.Some? && !s.evidence.value.macSeen && env.key.Some?
    requires EvidenceTagged(env.key.value, s.evidence.value.row, m)
    ensures EvidenceTagInv(env, s.(evidence := Some(s.evidence.value.(macSeen := true))),
                           h.(evidenceMacs := h.evidenceMacs + [m]))
  {
    hide EvidenceTagged;
    var more := h.(evidenceMacs := h.evidenceMacs + [m]);
    assert EvidenceTaggedAt(env.key.value, more, |h.evidenceMacs|);
    hide EvidenceTaggedAt;
    forall i: nat {
      TagStays(env, h, more, i);
    }
  }

  /** Only the evidence rows tell the parts of the invariant apart from each other. */
  lemma RecordsUntouched(env: Env, s: Scan, h: Rows, after: Scan, more: Rows)
    requires RowsInv(s, h) && GroupInv(env, s, h) && MacInv(env, s, h)
    requires after.audit == s.audit && after.lastSeq == s.lastSeq && after.counts == s.counts
    requires more == h.(evidence := more.evidence, evidenceMacs := more.evidenceMacs)
    ensures RowsInv(after, more) && GroupInv(env, after, more) && MacInv(env, after, more)
  {
    hide GroupedAt, TaggedAt, Numbered, CountKind, GroupMap, BelongTo, DistinctRoles;
    forall i: nat {
      RecordStays(env, h, more, i);
    }
  }

  lemma EvidenceLineKeeps(env: Env, s: Scan, h: Rows, row: EvidenceRow)
    requires EvidenceInv(env, s, h)
    requires row.seqNo == (s.evidenceSeq + 1) % U64 && row.crc == EvidenceCrc(env, row.seqNo, row.evidence)
    ensures EvidenceInv(env, s.(evidence := Some(PendingEvidence(row, false)), evidenceSeq := row.seqNo),
                        h.(evidence := h.evidence + [row]))
  {
    hide EvidenceCrc;
    var n := |h.evidence|;
    assert (n % U64 + 1) % U64 == (n + 1) % U64;
  }

  lemma LineKeeps(env: Env, s: Scan, h: Rows, raw: string)
    requires Inv(env, s, h) && |s.counts| == KINDS && ProcessLine(env, s, raw).Some?
    ensures Inv(env, ProcessLine(env, s, raw).value, AddLine(h, raw))
    ensures LineReads(raw)
  {
    hide RowsInv, GroupInv, MacInv, EvidenceInv, EvidenceTagInv, Continues, Sealed, ParseAuditRow, ParseEndpointRow,
         ParseMacRow, ParseEvidenceRow, Classify, CString, FinalizeAudit, EvidenceCrc, EvidenceMessage;
    var after, more := ProcessLine(env, s, raw).value, AddLine(h, raw);
    match Classify(CString(raw)) {
      case AuditLine(body) =>
        FinalizeKeeps(env, s, h);
        FinalizedIsQuiet(env, s);
        AuditLineKeeps(env, FinalizeAudit(env, s).value, h, ParseAuditRow(body).value);
        EvidenceUntouched(env, FinalizeAudit(env, s).value, h, after, more);
        TagsUntouched(env, FinalizeAudit(env, s).value, h, after, more);
      case EndpointLine(body) =>
        EndpointLineKeeps(env, s, h, ParseEndpointRow(body).value);
        EvidenceUntouched(env, s, h, after, more);
        TagsUntouched(env, s, h, after, more);
      case MacLine(body) =>
        MacLineKeeps(env, s, h, ParseMacRow(body).value);
        EvidenceUntouched(env, s, h, after, more);
        TagsUntouched(env, s, h, after, more);
      case EvidenceLine(body) =>
        EvidenceLineKeeps(env, s, h, ParseEvidenceRow(body).value);
        RecordsUntouched(env, s, h, after, more);
        FinalizeKeepsTags(env, s, h);
        EvidenceOpens(env, FinalizeEvidence(env, s).value, h, ParseEvidenceRow(body).value);
      case EvidenceMacLine(body) =>
        EvidenceUntouched(env, s, h, after, more);
        RecordsUntouched(env, s, h, after, more);
        EvidenceIsTagged(env, s, h, ParseMacRow(body).value);
      case Ignorable =>
      case Unknown =>
    }
  }

  lemma FinalizedIsQuiet(env: Env, s: Scan)
    requires |s.counts| == KINDS && FinalizeAudit(env, s).Some?
    ensures FinalizeAudit(env, s).value.audit.None?
  {
  }

  lemma EvidenceUntouched(env: Env, s: Scan, h: Rows, after: Scan, more: Rows)
    requires EvidenceInv(env, s, h) && after.evidenceSeq == s.evidenceSeq && more.evidence == h.evidence
    ensures EvidenceInv(env, after, more)
  {
    hide EvidenceCrc;
  }

  lemma CompleteKeeps(env: Env, s: Scan, h: Rows, raw: string)
    requires Inv(env, s, h) && |s.counts| == KINDS && CompleteLine(env, s, raw).Some?
    ensures Inv(env, CompleteLine(env, s, raw).value, AddLine(h, raw)) && LineReads(raw)
  {
    hide RowsInv, GroupInv, MacInv, EvidenceInv, EvidenceTagInv, ProcessLine, FinalizeAudit, AddLine, LineReads;
    LineKeeps(env, s, h, raw);
    if CString(raw) == "" {
      var mid, more := ProcessLine(env, s, raw).value, AddLine(h, raw);
      FinalizeKeeps(env, mid, more);
      var quiet, after := FinalizeAudit(env, mid).value, CompleteLine(env, s, raw).value;
      RecordsUntouched(env, quiet, more, after, more);
      EvidenceUntouched(env, quiet, more, after, more);
      FinalizeKeepsTags(env, quiet, more);
    }
  }

  predicate AllRead(ls: seq<string>) {
    forall i :: 0 <= i < |ls| ==> LineReads(ls[i])
  }

  lemma NothingReadYet(env: Env)
    ensures Inv(env, Start(), Rows([], [], [], [], []))
  {
    hide GroupedAt, TaggedAt, Numbered, GroupMap, BelongTo, DistinctRoles, EvidenceTaggedAt, EvidenceCrc;
    assert forall k: Kind :: Zeros()[KindIndex(k)] == 0;
  }

  lemma {:induction false} LinesKeep(env: Env, ls: seq<string>)
    requires ScanLines(env, Start(), ls).Some?
    ensures Inv(env, ScanLines(env, Start(), ls).value, RowsOf(ls)) && AllRead(ls)
  {
    hide Inv, CompleteLine, AddLine, LineReads;
    if ls == [] {
      NothingReadYet(env);
    } else {
      var n := |ls| - 1;
      LinesKeep(env, ls[..n]);
      CompleteKeeps(env, ScanLines(env, Start(), ls[..n]).value, RowsOf(ls[..n]), ls[n]);
    }
  }

  // -- the theorem

  ghost predicate SoundRows(env: Env, h: Rows, c: Counters) {
    && |h.audits| == c.lastSeq && (forall i :: 0 <= i < |h.audits| ==> Numbered(h.audits, i))
    && |c.counts| == KINDS && (forall k :: c.counts[KindIndex(k)] == CountKind(h.audits, k))
    && |h.endpoints| == 4 * |h.audits|
    && (forall i: nat :: i < |h.audits| ==> GroupedAt(env, h, i))
    && (env.key.None? ==> h.macs == [])
    && (env.key.Some? ==>
          |h.macs| == |h.audits| && forall i: nat :: i < |h.audits| ==> TaggedAt(env.key.value, h, i))
    && c.evidenceSeq == |h.evidence| % U64
    && (forall i :: 0 <= i < |h.evidence| ==>
          h.evidence[i].seqNo == (i + 1) % U64
          && h.evidence[i].crc == EvidenceCrc(env, h.evidence[i].seqNo, h.evidence[i].evidence))
    && (env.key.None? ==> h.evidenceMacs == [])
    && (env.key.Some? ==>
          |h.evidenceMacs| == |h.evidence|
          && forall i: nat :: i < |h.evidence| ==> EvidenceTaggedAt(env.key.value, h, i))
  }

  lemma QuietInvIsSound(env: Env, s: Scan, h: Rows)
    requires Inv(env, s, h) && s.audit.None? && (env.key.Some? ==> |h.evidenceMacs| == |h.evidence|)
    ensures SoundRows(env, h, Counters(s.lastSeq, s.evidenceSeq, s.counts))
  {
    hide GroupedAt, TaggedAt, Numbered, CountKind, GroupMap, BelongTo, DistinctRoles, EvidenceCrc, EvidenceTaggedAt;
    assert h.audits[..s.lastSeq] == h.audits;
  }

  lemma {:induction false} KindsAddUp(rows: seq<AuditRow>)
    ensures CountKind(rows, Accept) + CountKind(rows, Drop) + CountKind(rows, BackendConnect)
            + CountKind(rows, BackendFail) + CountKind(rows, Close) == |rows|
  {
    if rows != [] {
      KindsAddUp(rows[..|rows| - 1]);
    }
  }

  /**
   Any file the scanner accepts holds audit records 1..n without a gap, each with its
   running total and its running count by kind, each with exactly one endpoint row for
   each role and a checksum over them and, under a key, exactly one tag over the lot; evidence
   rows likewise; every line is a row of its kind or carries nothing; and the counters
   returned are the counts of those rows, and add up.
   */
  lemma AcceptedFileIsSound(env: Env, text: string)
    requires ScanFile(env, text).Some?
    ensures var c := ScanFile(env, text).value;
            && SoundRows(env, RowsOf(LinesOf(text)), c) && AllRead(LinesOf(text))
            && c.counts[0] + c.counts[1] + c.counts[2] + c.counts[3] + c.counts[4] == c.lastSeq
  {
    hide Inv, ProcessLine, FinalizeAudit, SoundRows, ScanLines, LinesFit, CutLines, LineReads;
    var cut := CutLines(text);
    var done := ScanLines(env, Start(), cut.lines).value;
    LinesKeep(env, cut.lines);
    var last := if cut.rest == "" then done else ProcessLine(env, done, cut.rest).value;
    var h := RowsOf(LinesOf(text));
    if cut.rest != "" {
      LineKeeps(env, done, RowsOf(cut.lines), cut.rest);
      assert (cut.lines + [cut.rest])[..|cut.lines|] == cut.lines;
    }
    assert Inv(env, last, h);
    FinalizeKeeps(env, last, h);
    FinalizedIsQuiet(env, last);
    InvHasTags(env, FinalizeAudit(env, last).value, h);
    FinalizeKeepsTags(env, FinalizeAudit(env, last).value, h);
    QuietInvIsSound(env, FinalizeAudit(env, last).value, h);
    SoundCountsAddUp(env, h, ScanFile(env, text).value);
  }

  lemma InvHasTags(env: Env, s: Scan, h: Rows)
    requires Inv(env, s, h)
    ensures EvidenceTagInv(env, s, h)
  {
    hide RowsInv, GroupInv, MacInv, EvidenceInv, EvidenceTagInv;
  }

  lemma SoundCountsAddUp(env: Env, h: Rows, c: Counters)
    requires SoundRows(env, h, c)
    ensures |c.counts| == KINDS && c.counts[0] + c.counts[1] + c.counts[2] + c.counts[3] + c.counts[4] == c.lastSeq
  {
    hide GroupedAt, TaggedAt, Numbered, CountKind, EvidenceCrc;
    KindsAddUp(h.audits);
    assert c.counts[KindIndex(Accept)] == c.counts[0] && c.counts[KindIndex(Drop)] == c.counts[1];
    assert c.counts[KindIndex(BackendConnect)] == c.counts[2] && c.counts[KindIndex(BackendFail)] == c.counts[3];
    assert c.counts[KindIndex(Close)] == c.counts[4];
  }
}
