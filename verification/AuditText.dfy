/** Facts about the printed text of records: every field is a clean token and fits its buffer. */
module AuditText {
  import opened Digits
  import opened Tokens
  import opened AuditLog

  predicate RowOk(row: AuditRow) {
    && row.seqNo < U64 && row.requestNo < U64 && row.eventNo < U64 && row.totalEvents < U64 && row.timeNs < U64
    && row.session < U32 && row.durationNs < U64 && row.crc < U32 && Safe(row.reason, REASON_TEXT, false)
  }

  predicate PeerOk(r: Role, e: Endpoint) {
    Safe(e.host, HostCap(r), true) && e.port < U16
  }

  predicate PeersOk(p: Peers) {
    PeerOk(Client, p.client) && PeerOk(Listen, p.listen) && PeerOk(Target, p.target) && PeerOk(Backend, p.backend)
  }

  predicate EvidenceRowOk(row: EvidenceRow) {
    row.seqNo < U64 && row.crc < U32 && TypedEvidence(row.evidence) && Safe(row.evidence.event, REASON_TEXT, false)
  }

  ghost predicate KeyOk(key: Key) {
    key.fingerprint < U32 && forall m :: IsTag(key.tag(m))
  }

  // -- tokens

  /** A clean token of at most `w` characters. */
  predicate Narrow(t: string, w: nat) {
    Clean(t) && |t| <= w
  }

  lemma DecimalNarrow(n: nat)
    ensures n < U64 ==> Narrow(Decimal(n), 20)
    ensures n < U32 ==> Narrow(Decimal(n), 10)
    ensures n < U16 ==> Narrow(Decimal(n), 5)
    ensures Clean(Decimal(n))
  {
    DecimalWidths(n);
  }

  lemma HexIsClean(s: string)
    requires AllHex(s) && s != ""
    ensures Clean(s)
  {
    forall i | 0 <= i < |s| ensures '!' <= s[i] <= '~' {
      assert IsHex(s[i]);
    }
  }

  lemma Hex32Narrow(n: nat)
    ensures Narrow(Hex32(n), 10)
  {
    var s := Hex32(n);
    HexIsClean(HexDigits(n, 8));
    forall i | 0 <= i < |s| ensures '!' <= s[i] <= '~' {
      if i >= 2 {
        assert s[i] == HexDigits(n, 8)[i - 2];
      }
    }
  }

  lemma SafeNarrow(s: string, cap: nat, host: bool)
    requires Safe(s, cap, host)
    ensures Narrow(s, cap - 1)
  {
    forall i | 0 <= i < |s| ensures '!' <= s[i] <= '~' {
      assert IsSafeChar(s[i], host);
    }
  }

  lemma KindNarrow(k: Kind)
    ensures Narrow(KindText(k), 15)
  {
  }

  lemma RoleNarrow(r: Role)
    ensures Narrow(RoleText(r), 7)
  {
  }

  predicate Narrows(ts: seq<string>, w: nat) {
    forall i :: 0 <= i < |ts| ==> Narrow(ts[i], w)
  }

  lemma Widen(t: string, v: nat, w: nat)
    requires Narrow(t, v) && v <= w
    ensures Narrow(t, w)
  {
  }

  lemma DecimalWide(n: nat)
    requires n < U64
    ensures Narrow(Decimal(n), 31)
  {
    DecimalNarrow(n);
    hide Decimal;
  }

  lemma Hex32Wide(n: nat)
    ensures Narrow(Hex32(n), 31)
  {
    Hex32Narrow(n);
    hide Hex32;
  }

  lemma AuditFieldsNarrow(row: AuditRow)
    requires RowOk(row)
    ensures Narrows(AuditFields(row), 31)
  {
    DecimalWide(row.seqNo);
    DecimalWide(row.requestNo);
    KindNarrow(row.kind);
    Widen(KindText(row.kind), 15, 31);
    DecimalWide(row.eventNo);
    DecimalWide(row.totalEvents);
    DecimalWide(row.timeNs);
    DecimalWide(row.session);
    SafeNarrow(row.reason, REASON_TEXT, false);
    DecimalWide(row.durationNs);
    Hex32Wide(row.crc);
    hide Narrow, Decimal, Hex32, KindText;
  }

  lemma {:induction false} DecimalsNarrow(ns: seq<nat>)
    requires forall i :: 0 <= i < |ns| ==> ns[i] < U64
    ensures Narrows(Decimals(ns), 31)
  {
    if ns != [] {
      DecimalWide(ns[0]);
      DecimalsNarrow(ns[1..]);
    }
  }

  lemma {:induction false} HexesNarrow(ns: seq<nat>)
    ensures Narrows(Hexes(ns), 31)
  {
    if ns != [] {
      Hex32Wide(ns[0]);
      HexesNarrow(ns[1..]);
    }
  }

  lemma NarrowsConcat(a: seq<string>, b: seq<string>, w: nat)
    requires Narrows(a, w) && Narrows(b, w)
    ensures Narrows(a + b, w)
  {
  }

  lemma EvidenceFieldsNarrow(row: EvidenceRow)
    requires EvidenceRowOk(row)
    ensures Narrows(EvidenceFields(row), 31) && Narrows(EvidenceValues(row), 31)
  {
    var e := row.evidence;
    DecimalWide(row.seqNo);
    SafeNarrow(e.event, REASON_TEXT, false);
    DecimalWide(e.timeNs);
    Hex32Wide(e.status);
    Hex32Wide(e.failureMask);
    DecimalsNarrow(e.patrols);
    DecimalsNarrow(e.settings);
    HexesNarrow(e.settings);
    Hex32Wide(row.crc);
    hide Narrow, Decimal, Hex32, Decimals, Hexes, EvidenceRowOk;
    var head := [Decimal(row.seqNo), e.event, Decimal(e.timeNs), Hex32(e.status), Hex32(e.failureMask)];
    assert Narrows(head, 31) && Narrows([Hex32(row.crc)], 31);
    hide Narrows;
    NarrowsConcat(head, Decimals(e.patrols), 31);
    NarrowsConcat(head + Decimals(e.patrols), Hexes(e.settings), 31);
    NarrowsConcat(head + Decimals(e.patrols), Decimals(e.settings), 31);
    NarrowsConcat(head + Decimals(e.patrols) + Hexes(e.settings), [Hex32(row.crc)], 31);
    NarrowsConcat(head + Decimals(e.patrols) + Decimals(e.settings), [Hex32(row.crc)], 31);
  }

  // -- joined fields

  lemma {:induction false} JoinLength(ts: seq<string>, w: nat, sep: char)
    requires Narrows(ts, w)
    ensures |Join(ts, sep)| <= |ts| * (w + 1)
  {
    if ts != [] {
      assert Narrow(ts[0], w);
      JoinLength(ts[1..], w, sep);
      assert |ts| * (w + 1) == |ts[1..]| * (w + 1) + (w + 1);
    }
  }

  lemma {:induction false} JoinConcatLength(a: seq<string>, b: seq<string>, sep: char)
    ensures |Join(a + b, sep)| <= |Join(a, sep)| + 1 + |Join(b, sep)|
  {
    if a == [] {
      assert a + b == b;
    } else if b == [] {
      assert a + b == a;
    } else {
      assert (a + b)[1..] == a[1..] + b;
      JoinConcatLength(a[1..], b, sep);
      if |a| == 1 {
        assert a[1..] + b == b;
      }
    }
  }

  lemma Join3(a: string, b: string, c: string, sep: char)
    ensures Join([a, b, c], sep) == a + [sep] + b + [sep] + c
  {
    assert [a, b, c][1..] == [b, c] && [b, c][1..] == [c];
    assert Join([b, c], sep) == b + [sep] + c;
  }

  lemma Join4(a: string, b: string, c: string, d: string, sep: char)
    ensures Join([a, b, c, d], sep) == a + [sep] + b + [sep] + c + [sep] + d
  {
    assert [a, b, c, d][1..] == [b, c, d];
    Join3(b, c, d, sep);
  }

  predicate Cleans(ts: seq<string>) {
    forall i :: 0 <= i < |ts| ==> Clean(ts[i])
  }

  lemma {:induction false} JoinPrintable(ts: seq<string>)
    requires Cleans(ts)
    ensures Printable(Join(ts, ' '))
  {
    if |ts| >= 1 {
      assert Clean(ts[0]);
      if |ts| > 1 {
        JoinPrintable(ts[1..]);
      }
    }
  }

  lemma NarrowsAreClean(ts: seq<string>, w: nat)
    requires Narrows(ts, w)
    ensures Cleans(ts)
  {
    forall i | 0 <= i < |ts| ensures Clean(ts[i]) {
      assert Narrow(ts[i], w);
    }
  }

  // -- lines

  /** A printable line of at most `w` characters. */
  predicate Short(l: string, w: nat) {
    Printable(l) && |l| <= w
  }

  predicate Shorts(ls: seq<string>, w: nat) {
    forall i :: 0 <= i < |ls| ==> Short(ls[i], w)
  }

  lemma RowShort(head: string, ts: seq<string>)
    requires Printable(head) && Cleans(ts)
    ensures Short(Row(head, ts), |head| + 1 + |Join(ts, ' ')|)
  {
    JoinPrintable(ts);
    hide Join, Cleans;
  }

  lemma NotesShort(names: seq<string>, values: seq<string>, v: nat, w: nat)
    requires |names| == |values| && Narrows(names, v) && Narrows(values, w)
    ensures Shorts(Notes(names, values), 6 + v + w)
  {
    var ls := Notes(names, values);
    forall i | 0 <= i < |ls| ensures Short(ls[i], 6 + v + w) {
      assert Narrow(names[i], v) && Narrow(values[i], w);
    }
  }

  lemma AuditNamesNarrow()
    ensures Narrows(AuditNames(), 40)
  {
    var ns := AuditNames();
    assert Narrow(ns[0], 40) && Narrow(ns[1], 40) && Narrow(ns[2], 40) && Narrow(ns[3], 40) && Narrow(ns[4], 40);
    assert Narrow(ns[5], 40) && Narrow(ns[6], 40) && Narrow(ns[7], 40) && Narrow(ns[8], 40) && Narrow(ns[9], 40);
    hide Narrow;
  }

  lemma HeadNamesNarrow()
    ensures Narrows(EvidenceHeadNames(), 40)
  {
    var ns := EvidenceHeadNames();
    assert Narrow(ns[0], 40) && Narrow(ns[1], 40) && Narrow(ns[2], 40) && Narrow(ns[3], 40) && Narrow(ns[4], 40);
    hide Narrow;
  }

  lemma SyntheticNarrow(what: string)
    requires Narrow(what, 12)
    ensures Narrow(Synthetic(what), 40) && Narrow(Failures(Synthetic(what)), 40)
  {
  }

  lemma PatrolNamesNarrow()
    ensures Narrows(PatrolNames(), 40)
  {
    SyntheticNarrow("ecc_topology");
    SyntheticNarrow("fault");
    SyntheticNarrow("numa");
    hide Synthetic, Failures;
    var ns := PatrolNames();
    assert Narrow("monitor_passes", 40) && Narrow("software_" + "evidence_patrol", 40);
    hide Narrow;
  }

  lemma SettingNamesNarrow()
    ensures Narrows(SettingNames(), 40)
  {
    var ns := SettingNames();
    assert Narrow(ns[0], 40) && Narrow(ns[1], 40) && Narrow(ns[2], 40);
    assert Narrow(ns[3], 40) && Narrow(ns[4], 40) && Narrow(ns[5], 40);
    hide Narrow;
  }

  lemma EvidenceNamesNarrow()
    ensures Narrows(EvidenceNames(), 40)
  {
    HeadNamesNarrow();
    PatrolNamesNarrow();
    SettingNamesNarrow();
    hide Narrows, EvidenceHeadNames, PatrolNames, SettingNames;
    NarrowsConcat(EvidenceHeadNames(), PatrolNames(), 40);
    NarrowsConcat(EvidenceHeadNames() + PatrolNames(), SettingNames(), 40);
  }

  lemma TitlesShort()
    ensures Short(AuditTitle(), 77) && Short(EvidenceTitle(), 77)
  {
    assert Short(AuditTitle(), 77) by {
      hide EvidenceTitle;
    }
  }

  lemma ShortsConcat(a: seq<string>, b: seq<string>, w: nat)
    requires Shorts(a, w) && Shorts(b, w)
    ensures Shorts(a + b, w)
  {
    hide Short;
  }

  lemma {:induction false} UnlinesLength(ls: seq<string>, w: nat)
    requires Shorts(ls, w)
    ensures |Unlines(ls)| <= |ls| * (w + 1)
  {
    if ls != [] {
      var n := |ls| - 1;
      assert Short(ls[n], w);
      UnlinesLength(ls[..n], w);
      assert |ls| * (w + 1) == n * (w + 1) + (w + 1);
    }
  }

  lemma {:induction false} UnlinesConcat(a: seq<string>, b: seq<string>)
    ensures Unlines(a + b) == Unlines(a) + Unlines(b)
  {
    if b == [] {
      assert a + b == a;
    } else {
      var n := |b| - 1;
      assert (a + b)[..|a + b| - 1] == a + b[..n];
      UnlinesConcat(a, b[..n]);
    }
  }

  // -- an audit record

  lemma AuditNotesShort(row: AuditRow)
    requires RowOk(row)
    ensures Shorts(AuditNotes(row), 77)
  {
    AuditFieldsNarrow(row);
    AuditNamesNarrow();
    TitlesShort();
    hide Short, AuditFields, AuditNames, RowOk, AuditTitle;
    NotesShort(AuditNames(), AuditFields(row), 40, 31);
    ShortsConcat([AuditTitle()], Notes(AuditNames(), AuditFields(row)), 77);
  }

  lemma EvidenceNotesShort(row: EvidenceRow)
    requires EvidenceRowOk(row)
    ensures Shorts(EvidenceNotes(row), 77)
  {
    EvidenceFieldsNarrow(row);
    EvidenceNamesNarrow();
    TitlesShort();
    hide Short, EvidenceValues, EvidenceFields, EvidenceNames, EvidenceTitle;
    NotesShort(EvidenceNames(), EvidenceValues(row), 40, 31);
    ShortsConcat([EvidenceTitle()], Notes(EvidenceNames(), EvidenceValues(row)), 77);
  }

  lemma PeerNoteShort(r: Role, e: Endpoint)
    requires PeerOk(r, e)
    ensures Short(PeerNote(r, e), HostCap(r) + 20)
  {
    RoleNarrow(r);
    SafeNarrow(e.host, HostCap(r), true);
    DecimalNarrow(e.port);
    hide Decimal, RoleText, Safe;
  }

  lemma EndpointFieldsClean(n: nat, r: Role, e: Endpoint)
    requires n < U64 && PeerOk(r, e)
    ensures var f := EndpointFields(n, r, e);
            && AllClean(f, [64, 16, HOST_TEXT, 64]) && Cleans(f)
            && |Join(f, ' ')| <= HostCap(r) + 36
  {
    DecimalNarrow(n);
    RoleNarrow(r);
    SafeNarrow(e.host, HostCap(r), true);
    DecimalNarrow(e.port);
    hide Decimal, RoleText, Safe;
    var f := EndpointFields(n, r, e);
    Join4(f[0], f[1], f[2], f[3], ' ');
  }

  lemma EndpointRowShort(n: nat, r: Role, e: Endpoint)
    requires n < U64 && PeerOk(r, e)
    ensures Short(EndpointRow(n, r, e), HostCap(r) + 52)
  {
    EndpointFieldsClean(n, r, e);
    hide EndpointFields, Join, PeerOk, HostCap;
    RowShort("+audit_endpoint", EndpointFields(n, r, e));
  }

  lemma MacFieldsClean(n: nat, key: Key, message: string)
    requires n < U64 && KeyOk(key)
    ensures var f := MacFields(n, key.fingerprint, key.tag(message));
            AllClean(f, [64, 64, 65]) && Cleans(f) && |Join(f, ' ')| <= 96
  {
    DecimalNarrow(n);
    Hex32Narrow(key.fingerprint);
    assert IsTag(key.tag(message));
    HexIsClean(key.tag(message));
    hide Decimal, Hex32;
    var f := MacFields(n, key.fingerprint, key.tag(message));
    Join3(f[0], f[1], f[2], ' ');
  }

  lemma MacRowShort(head: string, n: nat, key: Key, message: string)
    requires n < U64 && KeyOk(key) && Printable(head) && |head| <= 13
    ensures Short(MacRow(head, n, key, message), 110)
  {
    MacFieldsClean(n, key, message);
    hide MacFields, Join;
    RowShort(head, MacFields(n, key.fingerprint, key.tag(message)));
  }

  lemma MacNotesShort(prefix: string, key: Key, message: string)
    requires KeyOk(key) && Printable(prefix) && |prefix| <= 9
    ensures Short(MacNotes(prefix, key, message)[0], 44) && Short(MacNotes(prefix, key, message)[1], 90)
    ensures |Unlines(MacNotes(prefix, key, message))| <= 136
  {
    Hex32Narrow(key.fingerprint);
    var tag := key.tag(message);
    assert IsTag(tag);
    HexIsClean(tag);
    hide Hex32;
    var ls := MacNotes(prefix, key, message);
    assert ls[..1] == [ls[0]] && [ls[0]][..0] == [];
    assert Unlines(ls) == Unlines([ls[0]]) + ls[1] + "\n";
    assert Unlines([ls[0]]) == Unlines([]) + ls[0] + "\n";
  }

  lemma PeerNotesShort(p: Peers)
    requires PeersOk(p)
    ensures Shorts(PeerNotes(p), 276)
  {
    PeerNoteShort(Client, p.client);
    PeerNoteShort(Listen, p.listen);
    PeerNoteShort(Target, p.target);
    PeerNoteShort(Backend, p.backend);
    hide PeerNote, PeerOk;
    var ls := PeerNotes(p);
    assert Short(ls[0], 276) && Short(ls[1], 276) && Short(ls[2], 276) && Short(ls[3], 276) && Short(ls[4], 276);
    hide Short;
  }

  lemma EndpointRowsShort(n: nat, p: Peers)
    requires n < U64 && PeersOk(p)
    ensures Shorts(EndpointRows(n, p), 308)
  {
    EndpointRowShort(n, Client, p.client);
    EndpointRowShort(n, Listen, p.listen);
    EndpointRowShort(n, Target, p.target);
    EndpointRowShort(n, Backend, p.backend);
    hide EndpointRow, PeerOk;
  }

  lemma AuditRowShort(row: AuditRow)
    requires RowOk(row)
    ensures Short(Row("+audit", AuditFields(row)), 327)
  {
    AuditFieldsNarrow(row);
    hide AuditFields, RowOk;
    NarrowsAreClean(AuditFields(row), 31);
    JoinLength(AuditFields(row), 31, ' ');
    hide Join, Narrows, Cleans;
    RowShort("+audit", AuditFields(row));
  }

  lemma PeerFieldsLength(r: Role, e: Endpoint)
    requires PeerOk(r, e)
    ensures |Join(PeerFields(e), '|')| <= HostCap(r) + 5
  {
    SafeNarrow(e.host, HostCap(r), true);
    DecimalNarrow(e.port);
    hide Decimal;
    assert PeerFields(e)[1..] == [Decimal(e.port)];
  }

  lemma JoinFiveLength(a: seq<string>, b: seq<string>, c: seq<string>, d: seq<string>, e: seq<string>, sep: char)
    ensures |Join(a + b + c + d + e, sep)|
         <= |Join(a, sep)| + |Join(b, sep)| + |Join(c, sep)| + |Join(d, sep)| + |Join(e, sep)| + 4
  {
    hide Join;
    JoinConcatLength(a, b, sep);
    JoinConcatLength(a + b, c, sep);
    JoinConcatLength(a + b + c, d, sep);
    JoinConcatLength(a + b + c + d, e, sep);
  }

  lemma MessageHeadLength(row: AuditRow)
    requires RowOk(row)
    ensures |Join(["audit/v1"] + AuditFields(row), '|')| <= 352
  {
    AuditFieldsNarrow(row);
    assert Narrows(["audit/v1"], 31);
    hide AuditFields, RowOk, Narrows;
    NarrowsConcat(["audit/v1"], AuditFields(row), 31);
    JoinLength(["audit/v1"] + AuditFields(row), 31, '|');
  }

  /** The message that is authenticated always fits its buffer. */
  lemma AuditMessageFits(row: AuditRow, p: Peers)
    requires RowOk(row) && PeersOk(p)
    ensures |AuditMessage(row, p)| < MAC_MESSAGE_BYTES
  {
    PeerFieldsLength(Client, p.client);
    PeerFieldsLength(Listen, p.listen);
    PeerFieldsLength(Target, p.target);
    PeerFieldsLength(Backend, p.backend);
    MessageHeadLength(row);
    hide AuditFields, PeerFields, RowOk, PeerOk, Join, PeersOk;
    JoinFiveLength(["audit/v1"] + AuditFields(row), PeerFields(p.client), PeerFields(p.listen), PeerFields(p.target),
                   PeerFields(p.backend), '|');
  }

  lemma ShortsWiden(ls: seq<string>, v: nat, w: nat)
    requires Shorts(ls, v) && v <= w
    ensures Shorts(ls, w)
  {
    forall i | 0 <= i < |ls| ensures Short(ls[i], w) {
      assert Short(ls[i], v);
    }
  }

  ghost predicate Keyed(env: Env) {
    env.key.Some? ==> KeyOk(env.key.value)
  }

  lemma AuditMacShort(env: Env, row: AuditRow, p: Peers)
    requires RowOk(row) && Keyed(env)
    ensures Shorts(AuditMac(env, row, p), 110)
  {
    if env.key.Some? {
      MacRowShort("+audit_mac", row.seqNo, env.key.value, AuditMessage(row, p));
    }
    hide MacRow, AuditMessage;
  }

  lemma MacNotesOf(prefix: string, env: Env, message: string)
    requires Keyed(env) && Printable(prefix) && |prefix| <= 9
    ensures var ls := if env.key.None? then [] else MacNotes(prefix, env.key.value, message);
            Shorts(ls, 90) && |Unlines(ls)| <= 136
  {
    if env.key.Some? {
      MacNotesShort(prefix, env.key.value, message);
    }
    hide MacNotes;
  }

  /** Nothing a record prints can overflow a buffer, and every line is plain text. */
  lemma AuditLinesFit(env: Env, row: AuditRow, p: Peers)
    requires RowOk(row) && PeersOk(p) && Keyed(env)
    ensures AuditFits(env, row, p) && Shorts(AuditLines(env, row, p), 327)
  {
    AuditMessageFits(row, p);
    AuditNotesShort(row);
    assert Printable("");
    MacNotesOf("", env, AuditMessage(row, p));
    PeerNotesShort(p);
    AuditRowShort(row);
    EndpointRowsShort(row.seqNo, p);
    AuditMacShort(env, row, p);
    hide RowOk, PeersOk, KeyOk, AuditNotes, MacNotes, AuditMessage, PeerNotes, AuditFields, EndpointRows, AuditMac, Row;
    var a := AuditNotes(row);
    var b := if env.key.None? then [] else MacNotes("", env.key.value, AuditMessage(row, p));
    var c, d := PeerNotes(p), [Row("+audit", AuditFields(row))];
    var e, f, g := EndpointRows(row.seqNo, p), AuditMac(env, row, p), [""];
    assert Shorts(d, 327) && Shorts(g, 327);
    assert |a| == 11 && |c| == 5 && |e| == 4 && |f| <= 1 by {
      AuditShape(env, row, p);
    }
    SegmentsFit(a, b, c, d, e, f, g);
  }

  lemma AuditShape(env: Env, row: AuditRow, p: Peers)
    ensures |AuditNotes(row)| == 11 && |PeerNotes(p)| == 5 && |EndpointRows(row.seqNo, p)| == 4
    ensures |AuditMac(env, row, p)| <= 1
  {
  }

  lemma SegmentsFit(a: seq<string>, b: seq<string>, c: seq<string>, d: seq<string>, e: seq<string>, f: seq<string>,
                    g: seq<string>)
    requires |a| == 11 && |c| == 5 && |d| == 1 && |e| == 4 && |f| <= 1 && |g| == 1 && g[0] == ""
    requires Shorts(a, 77) && Shorts(b, 90) && |Unlines(b)| <= 136 && Shorts(c, 276) && Shorts(d, 327)
    requires Shorts(e, 308) && Shorts(f, 110) && Shorts(g, 327)
    ensures Shorts(a + b + c + d + e + f + g, 327) && |Unlines(a + b + c + d + e + f + g)| < LINE_BYTES
    ensures |Unlines(f)| <= 111
  {
    UnlinesLength(a, 77);
    UnlinesLength(c, 276);
    UnlinesLength(d, 327);
    UnlinesLength(e, 308);
    UnlinesLength(f, 110);
    assert |Unlines(g)| == 1 by {
      assert g[..0] == [];
    }
    UnlinesConcat(a, b);
    UnlinesConcat(a + b, c);
    UnlinesConcat(a + b + c, d);
    UnlinesConcat(a + b + c + d, e);
    UnlinesConcat(a + b + c + d + e, f);
    UnlinesConcat(a + b + c + d + e + f, g);
    ShortsWiden(a, 77, 327);
    ShortsWiden(b, 90, 327);
    ShortsWiden(c, 276, 327);
    ShortsWiden(e, 308, 327);
    ShortsWiden(f, 110, 327);
    hide Shorts, Unlines;
    ShortsConcat(a, b, 327);
    ShortsConcat(a + b, c, 327);
    ShortsConcat(a + b + c, d, 327);
    ShortsConcat(a + b + c + d, e, 327);
    ShortsConcat(a + b + c + d + e, f, 327);
    ShortsConcat(a + b + c + d + e + f, g, 327);
  }

  // -- an evidence record

  lemma EvidenceRowShort(row: EvidenceRow)
    requires EvidenceRowOk(row)
    ensures Short(Row("+evidence", EvidenceFields(row)), 618)
  {
    EvidenceFieldsNarrow(row);
    hide EvidenceFields, EvidenceValues;
    NarrowsAreClean(EvidenceFields(row), 31);
    JoinLength(EvidenceFields(row), 31, ' ');
    hide Join, Narrows, Cleans;
    RowShort("+evidence", EvidenceFields(row));
  }

  lemma EvidenceMessageFits(row: EvidenceRow)
    requires EvidenceRowOk(row)
    ensures |EvidenceMessage(row)| < MAC_MESSAGE_BYTES
  {
    assert Narrows(["evidence/v1"], 31);
    hide EvidenceFields, EvidenceValues, Narrows, Join;
    EvidenceFieldsNarrow(row);
    NarrowsConcat(["evidence/v1"], EvidenceFields(row), 31);
    JoinLength(["evidence/v1"] + EvidenceFields(row), 31, '|');
  }

  lemma EvidenceMacShort(env: Env, row: EvidenceRow)
    requires EvidenceRowOk(row) && Keyed(env)
    ensures Shorts(EvidenceMac(env, row), 110) && |EvidenceMac(env, row)| <= 1
  {
    if env.key.Some? {
      MacRowShort("+evidence_mac", row.seqNo, env.key.value, EvidenceMessage(row));
    }
    hide MacRow, EvidenceMessage;
  }

  lemma EvidenceLinesFit(env: Env, row: EvidenceRow)
    requires EvidenceRowOk(row) && Keyed(env)
    ensures EvidenceFits(env, row) && Shorts(EvidenceLines(env, row), 618)
  {
    EvidenceMessageFits(row);
    EvidenceNotesShort(row);
    assert Printable("evidence_");
    MacNotesOf("evidence_", env, EvidenceMessage(row));
    EvidenceRowShort(row);
    EvidenceMacShort(env, row);
    assert |EvidenceNotes(row)| == 20;
    hide KeyOk, EvidenceNotes, MacNotes, EvidenceMessage, EvidenceFields, EvidenceMac, Row;
    var a := EvidenceNotes(row);
    var b := if env.key.None? then [] else MacNotes("evidence_", env.key.value, EvidenceMessage(row));
    var c, d, e := [Row("+evidence", EvidenceFields(row))], EvidenceMac(env, row), [""];
    assert Shorts(c, 618) && Shorts(e, 618);
    EvidenceSegmentsFit(a, b, c, d, e);
  }

  lemma EvidenceSegmentsFit(a: seq<string>, b: seq<string>, c: seq<string>, d: seq<string>, e: seq<string>)
    requires |a| == 20 && |c| == 1 && |d| <= 1 && |e| == 1 && e[0] == ""
    requires Shorts(a, 77) && Shorts(b, 90) && |Unlines(b)| <= 136 && Shorts(c, 618) && Shorts(d, 110) && Shorts(e, 618)
    ensures Shorts(a + b + c + d + e, 618) && |Unlines(a + b + c + d + e)| < LINE_BYTES
    ensures |Unlines(d)| <= 111
  {
    UnlinesLength(a, 77);
    UnlinesLength(c, 618);
    UnlinesLength(d, 110);
    assert |Unlines(e)| == 1 by {
      assert e[..0] == [];
    }
    UnlinesConcat(a, b);
    UnlinesConcat(a + b, c);
    UnlinesConcat(a + b + c, d);
    UnlinesConcat(a + b + c + d, e);
    ShortsWiden(a, 77, 618);
    ShortsWiden(b, 90, 618);
    ShortsWiden(d, 110, 618);
    hide Shorts, Unlines;
    ShortsConcat(a, b, 618);
    ShortsConcat(a + b, c, 618);
    ShortsConcat(a + b + c, d, 618);
    ShortsConcat(a + b + c + d, e, 618);
  }
}
