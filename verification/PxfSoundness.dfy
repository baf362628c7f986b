/** What the offline verifier's acceptance means, for any text whatever. */
module PxfSoundness {
  import opened Bytes
  import opened Digits
  import opened Tokens
  import opened AuditLog
  import opened PxfVerifier
  import AuditRecovery
  import AuditAgreement

  // -- the rows of a text, read without any parser state

  /** The fields of every row, by the row's keyword, in the order of the lines. */
  datatype Table = Table(audits: seq<seq<string>>, endpoints: seq<seq<string>>, macs: seq<seq<string>>,
                         evidence: seq<seq<string>>, evidenceMacs: seq<seq<string>>)

  function AddRow(t: Table, head: string, f: seq<string>): Table {
    if head == "+audit" then t.(audits := t.audits + [f])
    else if head == "+audit_endpoint" then t.(endpoints := t.endpoints + [f])
    else if head == "+audit_mac" then t.(macs := t.macs + [f])
    else if head == "+evidence" then t.(evidence := t.evidence + [f])
    else if head == "+evidence_mac" then t.(evidenceMacs := t.evidenceMacs + [f])
    else t
  }

  /** Blank lines, comments and declarations hold no row. */
  function AddLine(t: Table, line: string): Table {
    if line == "" || line[0] == '#' || line[0] == '@' then t
    else
      var tokens := Split(line);
      if tokens == [] then t else AddRow(t, tokens[0], tokens[1..])
  }

  function TableOf(ls: seq<string>): Table {
    if ls == [] then Table([], [], [], [], []) else AddLine(TableOf(ls[..|ls| - 1]), ls[|ls| - 1])
  }

  // -- where the parser files them

  ghost predicate SameRows(d: Doc, t: Table) {
    && |d.records| == |t.audits| && (forall i :: 0 <= i < |d.records| ==> d.records[i].fields == t.audits[i])
    && |d.evidence| == |t.evidence| && (forall i :: 0 <= i < |d.evidence| ==> d.evidence[i].fields == t.evidence[i])
  }

  /** No two records have the same sequence text. */
  ghost predicate Distinct(d: Doc) {
    && (forall i :: 0 <= i < |d.records| ==> |d.records[i].fields| == 10)
    && (forall i, j :: 0 <= i < j < |d.records| ==> d.records[i].fields[0] != d.records[j].fields[0])
  }

  ghost predicate FiledAt(d: Doc, e: seq<string>, i: nat) {
    && i < |d.records| && |e| == 4 && |d.records[i].fields| == 10 && d.records[i].fields[0] == e[0]
    && e[1] in d.records[i].endpoints && d.records[i].endpoints[e[1]] == e
  }

  /** Under a role a record has a row of the table, with its own sequence text and that role. */
  ghost predicate HasRow(d: Doc, t: Table, i: nat, role: string)
    requires i < |d.records| && role in d.records[i].endpoints
  {
    var e := d.records[i].endpoints[role];
    e in t.endpoints && |e| == 4 && |d.records[i].fields| == 10 && e[0] == d.records[i].fields[0] && e[1] == role
  }

  predicate SamePlace(e: seq<string>, f: seq<string>) {
    |e| == 4 && |f| == 4 && e[0] == f[0] && e[1] == f[1]
  }

  ghost predicate EndpointsFiled(d: Doc, t: Table) {
    && (forall e :: e in t.endpoints ==> exists i: nat :: FiledAt(d, e, i))
    && (forall i: nat, role :: i < |d.records| && role in d.records[i].endpoints ==> HasRow(d, t, i, role))
    && (forall j, k :: 0 <= j < k < |t.endpoints| ==> !SamePlace(t.endpoints[j], t.endpoints[k]))
  }

  ghost predicate TagFiledAt(d: Doc, m: seq<string>, i: nat) {
    && i < |d.records| && |m| == 3 && |d.records[i].fields| == 10 && d.records[i].fields[0] == m[0]
    && d.records[i].mac == Some(m)
  }

  ghost predicate HasTag(d: Doc, t: Table, i: nat)
    requires i < |d.records| && d.records[i].mac.Some?
  {
    var m := d.records[i].mac.value;
    m in t.macs && |m| == 3 && |d.records[i].fields| == 10 && m[0] == d.records[i].fields[0]
  }

  predicate SameNumber(m: seq<string>, n: seq<string>) {
    |m| == 3 && |n| == 3 && m[0] == n[0]
  }

  predicate NoTwoTags(ms: seq<seq<string>>) {
    forall j, k :: 0 <= j < k < |ms| ==> !SameNumber(ms[j], ms[k])
  }

  ghost predicate TagsFiled(d: Doc, t: Table) {
    && (forall m :: m in t.macs ==> exists i: nat :: TagFiledAt(d, m, i))
    && (forall i: nat :: i < |d.records| && d.records[i].mac.Some? ==> HasTag(d, t, i))
    && NoTwoTags(t.macs) && CountMacs(d.records) == |t.macs|
  }

  predicate EvidenceNumberIs(f: seq<string>, n: nat) {
    |f| == 19 && IsUint(f[0]) && Value(f[0]) == n
  }

  ghost predicate EvidenceTagFiledAt(d: Doc, m: seq<string>, i: nat) {
    && i < |d.evidence| && |m| == 3 && |d.evidence[i].fields| == 19 && d.evidence[i].fields[0] == m[0]
    && d.evidence[i].mac == Some(m)
  }

  ghost predicate HasEvidenceTag(d: Doc, t: Table, i: nat)
    requires i < |d.evidence| && d.evidence[i].mac.Some?
  {
    var m := d.evidence[i].mac.value;
    m in t.evidenceMacs && |m| == 3 && |d.evidence[i].fields| == 19 && m[0] == d.evidence[i].fields[0]
  }

  ghost predicate EvidenceFiled(d: Doc, t: Table) {
    && (forall i: nat :: i < |d.evidence| ==> EvidenceNumberIs(d.evidence[i].fields, i + 1))
    && (forall m :: m in t.evidenceMacs ==> exists i: nat :: EvidenceTagFiledAt(d, m, i))
    && (forall i: nat :: i < |d.evidence| && d.evidence[i].mac.Some? ==> HasEvidenceTag(d, t, i))
    && NoTwoTags(t.evidenceMacs) && CountEvidenceMacs(d.evidence) == |t.evidenceMacs|
  }

  /** Every endpoint row was checked before it was filed. */
  predicate RowsChecked(t: Table) {
    forall e :: e in t.endpoints ==> EndpointRowOk(e)
  }

  ghost predicate Filed(d: Doc, t: Table) {
    Shaped(d) && RowsChecked(t) && SameRows(d, t) && EndpointsFiled(d, t) && TagsFiled(d, t) && EvidenceFiled(d, t)
  }

  // -- lines that file nothing

  lemma {:induction false} FoundMatches(records: seq<Entry>, n: string, forMac: bool)
    requires forall i :: 0 <= i < |records| ==> |records[i].fields| == 10
    ensures var k := FindRecord(records, n, forMac);
            k.Some? ==> records[k.value].fields[0] == n && (forMac ==> records[k.value].mac.None?)
  {
    if records != [] {
      FoundMatches(records[..|records| - 1], n, forMac);
    }
  }

  lemma {:induction false} FoundEvidenceMatches(records: seq<EvidenceEntry>, n: string)
    requires forall i :: 0 <= i < |records| ==> |records[i].fields| == 19
    ensures var k := FindEvidence(records, n);
            k.Some? ==> records[k.value].fields[0] == n && records[k.value].mac.None?
  {
    if records != [] {
      FoundEvidenceMatches(records[..|records| - 1], n);
    }
  }

  lemma {:induction false} CountMacsUpdate(records: seq<Entry>, k: nat, e: Entry)
    requires k < |records| && records[k].mac.None?
    ensures CountMacs(records[k := e]) == CountMacs(records) + (if e.mac.Some? then 1 else 0)
  {
    var n := |records| - 1;
    if k == n {
      assert records[k := e][..n] == records[..n];
    } else {
      assert records[k := e][..n] == records[..n][k := e];
      CountMacsUpdate(records[..n], k, e);
    }
  }

  lemma {:induction false} CountMacsSame(records: seq<Entry>, k: nat, e: Entry)
    requires k < |records| && e.mac == records[k].mac
    ensures CountMacs(records[k := e]) == CountMacs(records)
  {
    var n := |records| - 1;
    if k == n {
      assert records[k := e][..n] == records[..n];
    } else {
      assert records[k := e][..n] == records[..n][k := e];
      CountMacsSame(records[..n], k, e);
    }
  }

  lemma {:induction false} CountEvidenceMacsUpdate(records: seq<EvidenceEntry>, k: nat, e: EvidenceEntry)
    requires k < |records| && records[k].mac.None?
    ensures CountEvidenceMacs(records[k := e]) == CountEvidenceMacs(records) + (if e.mac.Some? then 1 else 0)
  {
    var n := |records| - 1;
    if k == n {
      assert records[k := e][..n] == records[..n];
    } else {
      assert records[k := e][..n] == records[..n][k := e];
      CountEvidenceMacsUpdate(records[..n], k, e);
    }
  }

  // -- one row of each kind

  /** A new record comes after all others and has nothing filed under it yet. */
  lemma AuditRowFiled(d: Doc, t: Table, f: seq<string>)
    requires Filed(d, t) && |f| == 10
    ensures Filed(d.(records := d.records + [Entry(f, map[], None)]), t.(audits := t.audits + [f]))
  {
    var after, more := d.(records := d.records + [Entry(f, map[], None)]), t.(audits := t.audits + [f]);
    assert after.records[..|d.records|] == d.records;
    hide EvidenceNumberIs, NoTwoTags, SamePlace;
    forall e | e in t.endpoints ensures exists i: nat :: FiledAt(after, e, i) {
      var i: nat :| FiledAt(d, e, i);
      assert FiledAt(after, e, i);
    }
    forall i: nat, role | i < |after.records| && role in after.records[i].endpoints
      ensures HasRow(after, more, i, role)
    {
      assert HasRow(d, t, i, role);
    }
    forall m | m in t.macs ensures exists i: nat :: TagFiledAt(after, m, i) {
      var i: nat :| TagFiledAt(d, m, i);
      assert TagFiledAt(after, m, i);
    }
    forall i: nat | i < |after.records| && after.records[i].mac.Some? ensures HasTag(after, more, i) {
      assert HasTag(d, t, i);
    }
    EvidenceUntouched(d, t, after, more);
  }

  lemma EvidenceUntouched(d: Doc, t: Table, after: Doc, more: Table)
    requires EvidenceFiled(d, t) && after.evidence == d.evidence && more.evidenceMacs == t.evidenceMacs
    ensures EvidenceFiled(after, more)
  {
    hide EvidenceNumberIs, NoTwoTags, CountEvidenceMacs;
    forall m | m in t.evidenceMacs ensures exists i: nat :: EvidenceTagFiledAt(after, m, i) {
      var i: nat :| EvidenceTagFiledAt(d, m, i);
      assert EvidenceTagFiledAt(after, m, i);
    }
    forall i: nat | i < |after.evidence| && after.evidence[i].mac.Some? ensures HasEvidenceTag(after, more, i) {
      assert HasEvidenceTag(d, t, i);
    }
  }

  /** The tags stay where they are when only endpoints of a record change. */
  lemma TagsUntouched(d: Doc, t: Table, k: nat, e: Entry, more: Table)
    requires TagsFiled(d, t) && k < |d.records| && more.macs == t.macs
    requires e.fields == d.records[k].fields && e.mac == d.records[k].mac
    ensures TagsFiled(d.(records := d.records[k := e]), more)
  {
    hide NoTwoTags, CountMacs;
    var after := d.(records := d.records[k := e]);
    CountMacsSame(d.records, k, e);
    forall m | m in t.macs ensures exists i: nat :: TagFiledAt(after, m, i) {
      var i: nat :| TagFiledAt(d, m, i);
      assert TagFiledAt(after, m, i);
    }
    forall i: nat | i < |after.records| && after.records[i].mac.Some? ensures HasTag(after, more, i) {
      assert HasTag(d, t, i);
    }
  }

  /** Endpoint rows stay where they are when no record's fields or endpoints change. */
  lemma EndpointsSame(d: Doc, t: Table, after: Doc, more: Table)
    requires EndpointsFiled(d, t) && |after.records| == |d.records| && more.endpoints == t.endpoints
    requires forall i: nat :: i < |d.records| ==> SameEntry(d.records[i], after.records[i])
    ensures EndpointsFiled(after, more)
  {
    hide SamePlace;
    forall f | f in t.endpoints ensures exists i: nat :: FiledAt(after, f, i) {
      var i: nat :| FiledAt(d, f, i);
      assert SameEntry(d.records[i], after.records[i]);
      assert FiledAt(after, f, i);
    }
    forall i: nat, role | i < |after.records| && role in after.records[i].endpoints
      ensures HasRow(after, more, i, role)
    {
      assert SameEntry(d.records[i], after.records[i]);
      assert HasRow(d, t, i, role);
    }
  }

  predicate SameEntry(e: Entry, f: Entry) {
    e.fields == f.fields && e.endpoints == f.endpoints
  }

  lemma EndpointsUntouched(d: Doc, t: Table, k: nat, e: Entry, more: Table)
    requires EndpointsFiled(d, t) && k < |d.records| && more.endpoints == t.endpoints
    requires SameEntry(d.records[k], e)
    ensures EndpointsFiled(d.(records := d.records[k := e]), more)
  {
    hide EndpointsFiled;
    EndpointsSame(d, t, d.(records := d.records[k := e]), more);
  }

  lemma FiledElsewhere(d: Doc, e: seq<string>, i: nat, k: nat, f: seq<string>)
    requires FiledAt(d, e, i) && Distinct(d) && k < |d.records| && |f| == 4
    requires d.records[k].fields[0] == f[0] && f[1] !in d.records[k].endpoints
    ensures !SamePlace(e, f)
  {
  }

  /** No row stands yet where the parser has found room for one. */
  lemma PlaceIsFree(d: Doc, t: Table, k: nat, f: seq<string>)
    requires EndpointsFiled(d, t) && Distinct(d) && k < |d.records| && |f| == 4
    requires d.records[k].fields[0] == f[0] && f[1] !in d.records[k].endpoints
    ensures forall j :: 0 <= j < |t.endpoints| ==> !SamePlace(t.endpoints[j], f)
  {
    hide FiledAt, SamePlace, HasRow;
    forall j | 0 <= j < |t.endpoints| ensures !SamePlace(t.endpoints[j], f) {
      var e := t.endpoints[j];
      assert e in t.endpoints;
      var i: nat :| FiledAt(d, e, i);
      FiledElsewhere(d, e, i, k, f);
    }
  }

  /** The record of the new row has it under its role, and otherwise what it had. */
  ghost predicate Gains(d: Doc, after: Doc, k: nat, f: seq<string>)
    requires |f| == 4
  {
    && k < |d.records| && |after.records| == |d.records| && after.records[k].fields == d.records[k].fields
    && after.records[k].endpoints == d.records[k].endpoints[f[1] := f]
    && forall i: nat :: i < |d.records| && i != k ==> SameEntry(d.records[i], after.records[i])
  }

  lemma StillFiled(d: Doc, after: Doc, k: nat, f: seq<string>, g: seq<string>, i: nat)
    requires |f| == 4 && Gains(d, after, k, f) && FiledAt(d, g, i) && f[1] !in d.records[k].endpoints
    ensures FiledAt(after, g, i)
  {
    if i != k {
      assert SameEntry(d.records[i], after.records[i]);
    }
  }

  lemma StillHasRow(d: Doc, t: Table, after: Doc, more: Table, k: nat, f: seq<string>, i: nat, role: string)
    requires |f| == 4 && EndpointsFiled(d, t) && Gains(d, after, k, f) && more.endpoints == t.endpoints + [f]
    requires |d.records[k].fields| == 10 && d.records[k].fields[0] == f[0]
    requires i < |after.records| && role in after.records[i].endpoints
    ensures HasRow(after, more, i, role)
  {
    if i != k {
      assert SameEntry(d.records[i], after.records[i]);
    }
    if i != k || role != f[1] {
      assert HasRow(d, t, i, role);
    }
  }

  lemma EndpointsGain(d: Doc, t: Table, after: Doc, more: Table, k: nat, f: seq<string>)
    requires EndpointsFiled(d, t) && Distinct(d) && |f| == 4 && Gains(d, after, k, f)
    requires d.records[k].fields[0] == f[0] && f[1] !in d.records[k].endpoints
    requires more.endpoints == t.endpoints + [f]
    ensures EndpointsFiled(after, more)
  {
    PlaceIsFree(d, t, k, f);
    assert FiledAt(after, f, k);
    hide SamePlace, Gains, HasRow, FiledAt;
    forall g | g in more.endpoints ensures exists i: nat :: FiledAt(after, g, i) {
      if g in t.endpoints {
        var i: nat :| FiledAt(d, g, i);
        StillFiled(d, after, k, f, g, i);
      } else {
        assert g == f;
      }
    }
    forall i: nat, role | i < |after.records| && role in after.records[i].endpoints
      ensures HasRow(after, more, i, role)
    {
      StillHasRow(d, t, after, more, k, f, i, role);
    }
  }

  lemma EndpointRowFiled(d: Doc, t: Table, k: nat, f: seq<string>)
    requires Filed(d, t) && Distinct(d) && k < |d.records| && EndpointRowOk(f)
    requires d.records[k].fields[0] == f[0] && f[1] !in d.records[k].endpoints
    ensures var e := d.records[k];
            Filed(d.(records := d.records[k := e.(endpoints := e.endpoints[f[1] := f])]),
                  t.(endpoints := t.endpoints + [f]))
  {
    assert |f| == 4;
    hide EndpointsFiled, TagsFiled, EvidenceFiled, Distinct, EndpointRowOk;
    var e := d.records[k].(endpoints := d.records[k].endpoints[f[1] := f]);
    var after, more := d.(records := d.records[k := e]), t.(endpoints := t.endpoints + [f]);
    EndpointsGain(d, t, after, more, k, f);
    TagsUntouched(d, t, k, e, more);
    EvidenceUntouched(d, t, after, more);
  }

  lemma NumberIsFree(d: Doc, t: Table, k: nat, m: seq<string>)
    requires TagsFiled(d, t) && Distinct(d) && k < |d.records| && |m| == 3
    requires d.records[k].fields[0] == m[0] && d.records[k].mac.None?
    ensures NoTwoTags(t.macs + [m])
  {
    forall j | 0 <= j < |t.macs| ensures !SameNumber(t.macs[j], m) {
      assert t.macs[j] in t.macs;
      var i: nat :| TagFiledAt(d, t.macs[j], i);
    }
  }

  lemma TagRowFiled(d: Doc, t: Table, k: nat, m: seq<string>)
    requires Filed(d, t) && Distinct(d) && k < |d.records| && |m| == 3
    requires d.records[k].fields[0] == m[0] && d.records[k].mac.None?
    ensures Filed(d.(records := d.records[k := d.records[k].(mac := Some(m))]), t.(macs := t.macs + [m]))
  {
    var e := d.records[k].(mac := Some(m));
    var after, more := d.(records := d.records[k := e]), t.(macs := t.macs + [m]);
    NumberIsFree(d, t, k, m);
    EndpointsUntouched(d, t, k, e, more);
    EvidenceUntouched(d, t, after, more);
    CountMacsUpdate(d.records, k, e);
    hide EndpointsFiled, EvidenceFiled, Distinct, NoTwoTags, CountMacs;
    forall n | n in more.macs ensures exists i: nat :: TagFiledAt(after, n, i) {
      if n in t.macs {
        var i: nat :| TagFiledAt(d, n, i);
        assert TagFiledAt(after, n, i);
      } else {
        assert TagFiledAt(after, n, k);
      }
    }
    forall i: nat | i < |after.records| && after.records[i].mac.Some? ensures HasTag(after, more, i) {
      if i != k {
        assert HasTag(d, t, i);
      }
    }
  }

  /** Records stay as they are when evidence comes. */
  lemma RecordsUntouched(d: Doc, t: Table, after: Doc, more: Table)
    requires EndpointsFiled(d, t) && TagsFiled(d, t) && after.records == d.records
    requires more.endpoints == t.endpoints && more.macs == t.macs
    ensures EndpointsFiled(after, more) && TagsFiled(after, more)
  {
    hide NoTwoTags, CountMacs, SamePlace;
    forall e | e in t.endpoints ensures exists i: nat :: FiledAt(after, e, i) {
      var i: nat :| FiledAt(d, e, i);
      assert FiledAt(after, e, i);
    }
    forall i: nat, role | i < |after.records| && role in after.records[i].endpoints
      ensures HasRow(after, more, i, role)
    {
      assert HasRow(d, t, i, role);
    }
    forall m | m in t.macs ensures exists i: nat :: TagFiledAt(after, m, i) {
      var i: nat :| TagFiledAt(d, m, i);
      assert TagFiledAt(after, m, i);
    }
    forall i: nat | i < |after.records| && after.records[i].mac.Some? ensures HasTag(after, more, i) {
      assert HasTag(d, t, i);
    }
  }

  lemma EvidenceRowFiled(d: Doc, t: Table, f: seq<string>)
    requires Filed(d, t) && EvidenceNumberIs(f, |d.evidence| + 1)
    ensures Filed(d.(evidence := d.evidence + [EvidenceEntry(f, None)]), t.(evidence := t.evidence + [f]))
  {
    var after, more := d.(evidence := d.evidence + [EvidenceEntry(f, None)]), t.(evidence := t.evidence + [f]);
    RecordsUntouched(d, t, after, more);
    assert after.evidence[..|d.evidence|] == d.evidence;
    hide EndpointsFiled, TagsFiled, NoTwoTags, IsUint, Value;
    forall m | m in t.evidenceMacs ensures exists i: nat :: EvidenceTagFiledAt(after, m, i) {
      var i: nat :| EvidenceTagFiledAt(d, m, i);
      assert EvidenceTagFiledAt(after, m, i);
    }
    forall i: nat | i < |after.evidence| && after.evidence[i].mac.Some? ensures HasEvidenceTag(after, more, i) {
      assert HasEvidenceTag(d, t, i);
    }
  }

  lemma EvidenceNumberIsFree(d: Doc, t: Table, k: nat, m: seq<string>)
    requires EvidenceFiled(d, t) && k < |d.evidence| && |m| == 3
    requires |d.evidence[k].fields| == 19 && d.evidence[k].fields[0] == m[0] && d.evidence[k].mac.None?
    ensures NoTwoTags(t.evidenceMacs + [m])
  {
    hide IsUint, Value, CountEvidenceMacs;
    forall j | 0 <= j < |t.evidenceMacs| ensures !SameNumber(t.evidenceMacs[j], m) {
      assert t.evidenceMacs[j] in t.evidenceMacs;
      var i: nat :| EvidenceTagFiledAt(d, t.evidenceMacs[j], i);
      assert EvidenceNumberIs(d.evidence[i].fields, i + 1) && EvidenceNumberIs(d.evidence[k].fields, k + 1);
    }
  }

  lemma EvidenceTagRowFiled(d: Doc, t: Table, k: nat, m: seq<string>)
    requires Filed(d, t) && k < |d.evidence| && |m| == 3
    requires |d.evidence[k].fields| == 19 && d.evidence[k].fields[0] == m[0] && d.evidence[k].mac.None?
    ensures Filed(d.(evidence := d.evidence[k := d.evidence[k].(mac := Some(m))]),
                  t.(evidenceMacs := t.evidenceMacs + [m]))
  {
    var e := d.evidence[k].(mac := Some(m));
    var after, more := d.(evidence := d.evidence[k := e]), t.(evidenceMacs := t.evidenceMacs + [m]);
    EvidenceNumberIsFree(d, t, k, m);
    RecordsUntouched(d, t, after, more);
    CountEvidenceMacsUpdate(d.evidence, k, e);
    hide EndpointsFiled, TagsFiled, NoTwoTags, CountEvidenceMacs, EvidenceNumberIs;
    forall n | n in more.evidenceMacs ensures exists i: nat :: EvidenceTagFiledAt(after, n, i) {
      if n in t.evidenceMacs {
        var i: nat :| EvidenceTagFiledAt(d, n, i);
        assert EvidenceTagFiledAt(after, n, i);
      } else {
        assert EvidenceTagFiledAt(after, n, k);
      }
    }
    forall i: nat | i < |after.evidence| && after.evidence[i].mac.Some? ensures HasEvidenceTag(after, more, i) {
      if i != k {
        assert HasEvidenceTag(d, t, i);
      }
    }
  }

  // -- every line

  lemma RowIsFiled(d: Doc, t: Table, head: string, f: seq<string>)
    requires Filed(d, t) && Shaped(d) && Distinct(d) && OnRow(d, head, f).Some?
    ensures Filed(OnRow(d, head, f).value, AddRow(t, head, f))
  {
    hide Filed, Distinct, FindRecord, FindEvidence, IsUint, IsHex32, IsHex256, Safe, Value, KindFromText;
    if head == "+audit" {
      AuditRowFiled(d, t, f);
    } else if head == "+audit_endpoint" {
      FoundMatches(d.records, f[0], false);
      EndpointRowFiled(d, t, FindRecord(d.records, f[0], false).value, f);
    } else if head == "+audit_mac" {
      FoundMatches(d.records, f[0], true);
      TagRowFiled(d, t, FindRecord(d.records, f[0], true).value, f);
    } else if head == "+evidence" {
      EvidenceRowFiled(d, t, f);
    } else {
      FoundEvidenceMatches(d.evidence, f[0]);
      EvidenceTagRowFiled(d, t, FindEvidence(d.evidence, f[0]).value, f);
    }
  }

  lemma LineIsFiled(d: Doc, t: Table, line: string)
    requires Filed(d, t) && Shaped(d) && Distinct(d) && OnLine(d, line).Some?
    ensures Filed(OnLine(d, line).value, AddLine(t, line))
  {
    hide Filed, Distinct, OnRow, AddRow, Split;
    if line == "" || line[0] == '#' {
    } else if line[0] == '@' {
      if StartsWith(line, "@table ") {
        TablesUntouched(d, t, OnLine(d, line).value);
      }
    } else {
      AuditRecovery.DiffersAt(line, "@table ", 0);
      hide StartsWith;
      var tokens := Split(line);
      if tokens != [] {
        RowIsFiled(d, t, tokens[0], tokens[1..]);
      }
    }
  }

  lemma TablesUntouched(d: Doc, t: Table, after: Doc)
    requires Filed(d, t) && after == d.(tables := after.tables)
    ensures Filed(after, t)
  {
    RecordsUntouched(d, t, after, t);
    EvidenceUntouched(d, t, after, t);
    hide EndpointsFiled, TagsFiled, EvidenceFiled;
  }

  lemma DistinctBefore(d: Doc, line: string)
    requires Shaped(d) && OnLine(d, line).Some? && Distinct(OnLine(d, line).value)
    ensures Distinct(d)
  {
    hide OnLine;
    AuditAgreement.RecordsPersist(d, line);
  }

  lemma NothingFiled()
    ensures Filed(Empty(), Table([], [], [], [], []))
  {
  }

  lemma {:induction false} LinesAreFiled(ls: seq<string>)
    requires OnLines(Empty(), ls).Some? && Distinct(OnLines(Empty(), ls).value)
    ensures Filed(OnLines(Empty(), ls).value, TableOf(ls))
  {
    hide Filed, Distinct, OnLine, AddLine;
    if ls == [] {
      NothingFiled();
    } else {
      var n := |ls| - 1;
      var before := OnLines(Empty(), ls[..n]).value;
      DistinctBefore(before, ls[n]);
      LinesAreFiled(ls[..n]);
      LineIsFiled(before, TableOf(ls[..n]), ls[n]);
    }
  }

  // -- what acceptance means

  lemma {:induction false} LowerKeepsHex(s: string)
    requires AllHex(s)
    ensures AllHex(LowerAll(s)) && HexValue(LowerAll(s)) == HexValue(s)
  {
    if s != "" {
      var n := |s| - 1;
      LowerKeepsHex(s[..n]);
      assert LowerAll(s)[..n] == LowerAll(s[..n]);
    }
  }

  lemma HexIsRead(s: string, n: nat)
    requires IsHex32(s) && n < U32 && LowerAll(s) == Hex32(n)
    ensures HexValue(s[2..]) == n
  {
    LowerKeepsHex(s[2..]);
    assert LowerAll(s)[2..] == LowerAll(s[2..]);
    Hex32RoundTrip(n);
    assert Hex32(n)[2..] == HexDigits(n, 8);
  }

  /** The texts of an audit row that stand for decimal numbers. */
  predicate Numerals(f: seq<string>)
    requires |f| == 10
  {
    IsUint(f[0]) && IsUint(f[1]) && IsUint(f[3]) && IsUint(f[4]) && IsUint(f[5]) && IsUint(f[6]) && IsUint(f[8])
  }

  predicate ReadableAudit(f: seq<string>) {
    |f| == 10 && Numerals(f) && IsHex32(f[9]) && KindFromText(f[2]).Some? && Safe(f[7], REASON_TEXT, false)
  }

  /** The values of an audit row. */
  function AuditOf(f: seq<string>): AuditRow
    requires ReadableAudit(f)
  {
    AuditRow(Value(f[0]), Value(f[1]), KindFromText(f[2]).value, Value(f[3]), Value(f[4]), Value(f[5]), Value(f[6]),
             f[7], Value(f[8]), HexValue(f[9][2..]))
  }

  /** The row of the table that gives this role's endpoint to this record. */
  predicate IsPeer(t: Table, n: string, role: string, e: seq<string>) {
    e in t.endpoints && |e| == 4 && e[0] == n && e[1] == role && IsUint(e[3]) && Safe(e[2], HOST_TEXT, true)
  }

  /** The four endpoint rows of one record. */
  datatype Group = Group(client: seq<string>, listen: seq<string>, target: seq<string>, backend: seq<string>)

  predicate IsGroup(t: Table, n: string, g: Group) {
    && IsPeer(t, n, "client", g.client) && IsPeer(t, n, "listen", g.listen)
    && IsPeer(t, n, "target", g.target) && IsPeer(t, n, "backend", g.backend)
  }

  function PeersOfGroup(t: Table, n: string, g: Group): Peers
    requires IsGroup(t, n, g)
  {
    Peers(Endpoint(g.client[2], Value(g.client[3])), Endpoint(g.listen[2], Value(g.listen[3])),
          Endpoint(g.target[2], Value(g.target[3])), Endpoint(g.backend[2], Value(g.backend[3])))
  }

  /** The texts that the tag is over: the row as it stands, its checksum in lower case, and the endpoints. */
  function SignedTexts(t: Table, f: seq<string>, g: Group): seq<string>
    requires ReadableAudit(f) && IsGroup(t, f[0], g)
  {
    ["audit/v1", f[0], f[1], f[2], f[3], f[4], f[5], f[6], f[7], f[8], LowerAll(f[9]),
     g.client[2], g.client[3], g.listen[2], g.listen[3], g.target[2], g.target[3], g.backend[2], g.backend[3]]
  }

  predicate TagIs(key: Key, m: seq<string>, n: string, message: string) {
    && |m| == 3 && m[0] == n && IsHex32(m[1]) && HexValue(m[1][2..]) == key.fingerprint
    && LowerAll(m[2]) == key.tag(message)
  }

  /** Record `i` is number `i + 1`, with four endpoints, their checksum and, under a key, its tag. */
  ghost predicate SoundRecord(env: Env, t: Table, i: nat) {
    i < |t.audits|
    && var f := t.audits[i];
       && ReadableAudit(f) && Value(f[0]) == Value(f[4]) == i + 1
       && exists g ::
            && IsGroup(t, f[0], g)
            && AuditOf(f).crc == AuditCrc(env, AuditOf(f), PeersOfGroup(t, f[0], g))
            && (env.key.Some? ==>
                  exists m :: m in t.macs && TagIs(env.key.value, m, f[0], Join(SignedTexts(t, f, g), '|')))
  }

  /** Every endpoint row belongs to a record and names one of its four roles; no two name the same. */
  ghost predicate SoundEndpoints(t: Table) {
    && (forall e :: e in t.endpoints ==>
          |e| == 4 && IsRole(e[1]) && exists i :: 0 <= i < |t.audits| && |t.audits[i]| == 10 && t.audits[i][0] == e[0])
    && (forall j, k :: 0 <= j < k < |t.endpoints| ==> !SamePlace(t.endpoints[j], t.endpoints[k]))
  }

  /** Every tag row belongs to a row of its kind; no two belong to the same. */
  ghost predicate SoundTags(rows: seq<seq<string>>, macs: seq<seq<string>>) {
    && (forall m :: m in macs ==> |m| == 3 && exists i :: 0 <= i < |rows| && rows[i] != [] && rows[i][0] == m[0])
    && NoTwoTags(macs)
  }

  ghost predicate ReadableEvidence(f: seq<string>) {
    && |f| == 19 && IsUint(f[0]) && IsUint(f[2]) && IsHex32(f[3]) && IsHex32(f[4])
    && (forall i :: 5 <= i < 13 ==> IsUint(f[i])) && (forall i :: 13 <= i < 19 ==> IsHex32(f[i]))
  }

  /** The values of an evidence row, one by one. */
  ghost function EvidenceValuesOf(f: seq<string>): Evidence
    requires ReadableEvidence(f)
  {
    Evidence(f[1], Value(f[2]), HexValue(f[3][2..]), HexValue(f[4][2..]),
             [Value(f[5]), Value(f[6]), Value(f[7]), Value(f[8]), Value(f[9]), Value(f[10]), Value(f[11]),
              Value(f[12])],
             [HexValue(f[13][2..]), HexValue(f[14][2..]), HexValue(f[15][2..]), HexValue(f[16][2..]),
              HexValue(f[17][2..])])
  }

  function SignedEvidence(f: seq<string>): (r: seq<string>)
    requires |f| == 19
    ensures |r| == 20 && r[0] == "evidence/v1"
  {
    ["evidence/v1", f[0], f[1], f[2], LowerAll(f[3]), LowerAll(f[4]), f[5], f[6], f[7], f[8], f[9], f[10], f[11], f[12],
     LowerAll(f[13]), LowerAll(f[14]), LowerAll(f[15]), LowerAll(f[16]), LowerAll(f[17]), LowerAll(f[18])]
  }

  ghost predicate SoundEvidence(env: Env, t: Table, i: nat) {
    i < |t.evidence|
    && var f := t.evidence[i];
       && ReadableEvidence(f) && Value(f[0]) == i + 1
       && HexValue(f[18][2..]) == EvidenceCrc(env, i + 1, EvidenceValuesOf(f))
       && (env.key.Some? ==>
             exists m :: m in t.evidenceMacs && TagIs(env.key.value, m, f[0], Join(SignedEvidence(f), '|')))
  }

  ghost predicate SoundText(env: Env, t: Table, r: Report) {
    && r == Report(|t.audits|, |t.macs|, |t.evidence|, |t.evidenceMacs|)
    && (forall i: nat :: i < |t.audits| ==> SoundRecord(env, t, i))
    && SoundEndpoints(t) && SoundTags(t.audits, t.macs)
    && (forall i: nat :: i < |t.evidence| ==> SoundEvidence(env, t, i)) && SoundTags(t.evidence, t.evidenceMacs)
  }

  lemma PeerIsInTable(d: Doc, t: Table, i: nat, role: string)
    requires Filed(d, t) && i < |d.records| && |d.records[i].fields| == 10 && role in d.records[i].endpoints
    ensures IsPeer(t, d.records[i].fields[0], role, d.records[i].endpoints[role])
    ensures EndpointRowOk(d.records[i].endpoints[role])
  {
    hide TagsFiled, EvidenceFiled;
    assert HasRow(d, t, i, role);
  }

  lemma CrcIsRead(env: Env, f: seq<string>, ps: Peers)
    requires EnvOk(env) && AuditRowOk(f) && LowerAll(f[9]) == Hex32(AuditCrc(env, RowOf(f), ps))
    ensures ReadableAudit(f) && AuditOf(f).crc == AuditCrc(env, AuditOf(f), ps)
  {
    hide LowerAll, Hex32, HexValue, Value, IsUint, Safe, LittleEndian, PeerBytes, CText, KindFromText;
    assert AuditCrc(env, RowOf(f), ps) < U32;
    HexIsRead(f[9], AuditCrc(env, RowOf(f), ps));
    AuditAgreement.CrcIgnoresItself(env, AuditOf(f), ps);
    assert AuditOf(f).(crc := 0) == RowOf(f);
  }

  lemma MessageIsSigned(t: Table, e: Entry, g: Group)
    requires AuditRowOk(e.fields) && FourRoles(e.endpoints) && ReadableAudit(e.fields)
    requires g == Group(e.endpoints["client"], e.endpoints["listen"], e.endpoints["target"], e.endpoints["backend"])
    requires IsGroup(t, e.fields[0], g)
    ensures Message(e) == Join(SignedTexts(t, e.fields, g), '|')
    ensures PeersFrom(e.endpoints) == PeersOfGroup(t, e.fields[0], g)
  {
    hide LowerAll, Join, Value, IsUint, IsHex32, Safe, KindFromText;
    var f, m := e.fields, e.endpoints;
    assert ["audit/v1"] + f[..9] + [LowerAll(f[9])]
           + [m["client"][2], m["client"][3], m["listen"][2], m["listen"][3],
              m["target"][2], m["target"][3], m["backend"][2], m["backend"][3]]
        == SignedTexts(t, f, g);
  }

  lemma TagIsRead(key: Key, m: seq<string>, n: string, message: string)
    requires 0 < key.fingerprint < U32 && MacVerifies(key, Some(m), message) && |m| == 3 && m[0] == n
    ensures TagIs(key, m, n, message)
  {
    hide LowerAll, Hex32, IsUint, IsHex256, HexValue;
    HexIsRead(m[1], key.fingerprint);
  }

  lemma RecordIsSound(env: Env, d: Doc, t: Table, i: nat)
    requires EnvOk(env) && Filed(d, t) && i < |d.records| && EntryVerifies(env, d.records[i], i + 1)
    ensures SoundRecord(env, t, i)
  {
    hide Filed, EnvOk, Message, AuditCrc, Hex32, LowerAll, Join, RowOf, PeersFrom, EndpointRowOk, MacVerifies, TagIs,
         IsPeer, Value, IsUint, IsHex32, Safe, AuditOf;
    var e := d.records[i];
    var m := e.endpoints;
    var g := Group(m["client"], m["listen"], m["target"], m["backend"]);
    FieldsAreFiled(d, t, i);
    PeerIsInTable(d, t, i, "client");
    PeerIsInTable(d, t, i, "listen");
    PeerIsInTable(d, t, i, "target");
    PeerIsInTable(d, t, i, "backend");
    CrcIsRead(env, e.fields, PeersFrom(m));
    MessageIsSigned(t, e, g);
    SameTotal(e.fields);
    if env.key.Some? {
      KeyIsPrinted(env);
      MacIsThere(env.key.value, e.mac, Message(e));
      TagIsInTable(d, t, i);
      TagIsRead(env.key.value, e.mac.value, e.fields[0], Message(e));
    }
    assert IsGroup(t, e.fields[0], g);
  }

  lemma SameTotal(f: seq<string>)
    requires AuditRowOk(f)
    ensures ReadableAudit(f) && Value(f[0]) == Value(f[4])
  {
    hide IsHex32, Safe, Value, KindFromText;
  }

  lemma KeyIsPrinted(env: Env)
    requires EnvOk(env) && env.key.Some?
    ensures 0 < env.key.value.fingerprint < U32
  {
  }

  lemma FieldsAreFiled(d: Doc, t: Table, i: nat)
    requires Filed(d, t) && i < |d.records|
    ensures |d.records| == |t.audits| && t.audits[i] == d.records[i].fields
  {
    hide EndpointsFiled, TagsFiled, EvidenceFiled, RowsChecked;
  }

  lemma TagIsInTable(d: Doc, t: Table, i: nat)
    requires Filed(d, t) && i < |d.records| && d.records[i].mac.Some?
    ensures var m := d.records[i].mac.value;
            m in t.macs && |m| == 3 && |d.records[i].fields| == 10 && m[0] == d.records[i].fields[0]
  {
    hide EndpointsFiled, EvidenceFiled, RowsChecked;
    assert HasTag(d, t, i);
  }

  lemma MacIsThere(key: Key, mac: Option<seq<string>>, message: string)
    requires MacVerifies(key, mac, message)
    ensures mac.Some?
  {
  }

  // -- evidence

  lemma {:induction false} ValuesOneByOne(ts: seq<string>, i: nat)
    requires (forall k :: 0 <= k < |ts| ==> IsUint(ts[k])) && i < |ts|
    ensures |Values(ts)| == |ts| && IsUint(ts[i]) && Values(ts)[i] == Value(ts[i])
  {
    hide IsUint, Value;
    if |ts| > 1 {
      ValuesOneByOne(ts[1..], if i > 0 then i - 1 else 0);
    }
  }

  lemma {:induction false} HexValuesOneByOne(ts: seq<string>, i: nat)
    requires (forall k :: 0 <= k < |ts| ==> IsHex32(ts[k])) && i < |ts|
    ensures |HexValues(ts)| == |ts| && IsHex32(ts[i]) && HexValues(ts)[i] == HexValue(ts[i][2..])
  {
    hide HexValue;
    if |ts| > 1 {
      HexValuesOneByOne(ts[1..], if i > 0 then i - 1 else 0);
    }
  }

  lemma EvidenceIsRead(f: seq<string>)
    requires EvidenceRowIsOk(f)
    ensures ReadableEvidence(f) && EvidenceOf(f) == EvidenceValuesOf(f)
  {
    hide IsUint, IsHex32, Value, HexValue, Values, HexValues, Safe;
    var v := EvidenceValuesOf(f);
    ValuesOneByOne(f[5..13], 0);
    HexValuesOneByOne(f[13..18], 0);
    forall i | 0 <= i < 8 ensures Values(f[5..13])[i] == v.patrols[i] {
      ValuesOneByOne(f[5..13], i);
      assert f[5..13][i] == f[5 + i];
    }
    forall i | 0 <= i < 5 ensures HexValues(f[13..18])[i] == v.settings[i] {
      HexValuesOneByOne(f[13..18], i);
      assert f[13..18][i] == f[13 + i];
    }
    assert Values(f[5..13]) == v.patrols && HexValues(f[13..18]) == v.settings;
  }

  lemma EvidenceTextIsSigned(f: seq<string>)
    requires EvidenceRowIsOk(f)
    ensures EvidenceText(f) == Join(SignedEvidence(f), '|')
  {
    hide LowerAll, Join, IsUint, IsHex32, Safe;
    assert ["evidence/v1", f[0], f[1], f[2], LowerAll(f[3]), LowerAll(f[4])] + f[5..13]
           + [LowerAll(f[13]), LowerAll(f[14]), LowerAll(f[15]), LowerAll(f[16]), LowerAll(f[17]), LowerAll(f[18])]
        == SignedEvidence(f);
  }

  lemma EvidenceCrcIsRead(env: Env, f: seq<string>)
    requires EnvOk(env) && EvidenceRowIsOk(f)
    requires LowerAll(f[18]) == Hex32(EvidenceCrc(env, Value(f[0]), EvidenceOf(f)))
    ensures IsHex32(f[18]) && HexValue(f[18][2..]) == EvidenceCrc(env, Value(f[0]), EvidenceOf(f))
  {
    hide LowerAll, Hex32, HexValue, Value, Safe, LittleEndian, Words, CText, Values, HexValues;
    assert IsHex32(f[18]);
    assert EvidenceCrc(env, Value(f[0]), EvidenceOf(f)) < U32;
    HexIsRead(f[18], EvidenceCrc(env, Value(f[0]), EvidenceOf(f)));
  }

  lemma EvidenceIsFiled(d: Doc, t: Table, i: nat)
    requires Filed(d, t) && i < |d.evidence|
    ensures |d.evidence| == |t.evidence| && t.evidence[i] == d.evidence[i].fields
    ensures EvidenceNumberIs(t.evidence[i], i + 1)
    ensures d.evidence[i].mac.Some? ==>
              var m := d.evidence[i].mac.value; m in t.evidenceMacs && |m| == 3 && m[0] == t.evidence[i][0]
  {
    hide EndpointsFiled, TagsFiled, RowsChecked, IsUint, Value;
    assert EvidenceNumberIs(d.evidence[i].fields, i + 1);
    if d.evidence[i].mac.Some? {
      assert HasEvidenceTag(d, t, i);
    }
  }

  lemma EvidenceIsSound(env: Env, d: Doc, t: Table, i: nat)
    requires EnvOk(env) && Filed(d, t) && i < |d.evidence| && EvidenceVerifies(env, d.evidence[i])
    ensures SoundEvidence(env, t, i)
  {
    hide Filed, EnvOk, EvidenceText, EvidenceCrc, Hex32, LowerAll, Join, EvidenceOf, MacVerifies, TagIs, Value, IsUint,
         Safe, EvidenceRowIsOk, EvidenceValuesOf, ReadableEvidence, HexValue;
    var e := d.evidence[i];
    EvidenceIsFiled(d, t, i);
    EvidenceIsRead(e.fields);
    EvidenceCrcIsRead(env, e.fields);
    EvidenceTextIsSigned(e.fields);
    if env.key.Some? {
      KeyIsPrinted(env);
      MacIsThere(env.key.value, e.mac, EvidenceText(e.fields));
      TagIsRead(env.key.value, e.mac.value, e.fields[0], EvidenceText(e.fields));
    }
  }

  // -- the theorem

  lemma VerifiedIsDistinct(env: Env, d: Doc)
    requires DocVerifies(env, d)
    ensures Distinct(d)
  {
    hide FourRoles, Message, AuditCrc, MacVerifies, IsUint, IsHex32, Safe, Value, EvidenceVerifies;
    forall i, j | 0 <= i < j < |d.records| ensures d.records[i].fields[0] != d.records[j].fields[0] {
      assert EntryVerifies(env, d.records[i], i + 1) && EntryVerifies(env, d.records[j], j + 1);
    }
  }

  lemma EndpointsAreSound(d: Doc, t: Table)
    requires SameRows(d, t) && EndpointsFiled(d, t) && RowsChecked(t)
    ensures SoundEndpoints(t)
  {
    hide SamePlace, IsUint, Value, Safe;
    forall e | e in t.endpoints
      ensures |e| == 4 && IsRole(e[1])
      ensures exists i :: 0 <= i < |t.audits| && |t.audits[i]| == 10 && t.audits[i][0] == e[0]
    {
      assert EndpointRowOk(e);
      var i: nat :| FiledAt(d, e, i);
      assert t.audits[i][0] == e[0];
    }
  }

  lemma TagsAreSound(d: Doc, t: Table)
    requires SameRows(d, t) && TagsFiled(d, t)
    ensures SoundTags(t.audits, t.macs) && |t.macs| == CountMacs(d.records)
  {
    hide CountMacs, NoTwoTags;
    forall m | m in t.macs
      ensures |m| == 3 && exists i :: 0 <= i < |t.audits| && t.audits[i] != [] && t.audits[i][0] == m[0]
    {
      var i: nat :| TagFiledAt(d, m, i);
      assert t.audits[i][0] == m[0];
    }
  }

  lemma EvidenceTagsAreSound(d: Doc, t: Table)
    requires SameRows(d, t) && EvidenceFiled(d, t)
    ensures SoundTags(t.evidence, t.evidenceMacs) && |t.evidenceMacs| == CountEvidenceMacs(d.evidence)
  {
    hide CountEvidenceMacs, NoTwoTags, EvidenceNumberIs;
    forall m | m in t.evidenceMacs
      ensures |m| == 3 && exists i :: 0 <= i < |t.evidence| && t.evidence[i] != [] && t.evidence[i][0] == m[0]
    {
      var i: nat :| EvidenceTagFiledAt(d, m, i);
      assert t.evidence[i][0] == m[0];
    }
  }

  lemma FiledIsSound(d: Doc, t: Table)
    requires Filed(d, t)
    ensures SoundEndpoints(t) && SoundTags(t.audits, t.macs) && SoundTags(t.evidence, t.evidenceMacs)
    ensures |t.audits| == |d.records| && |t.macs| == CountMacs(d.records)
    ensures |t.evidence| == |d.evidence| && |t.evidenceMacs| == CountEvidenceMacs(d.evidence)
  {
    hide EndpointsFiled, TagsFiled, EvidenceFiled, RowsChecked, SoundEndpoints, SoundTags, CountMacs, CountEvidenceMacs;
    EndpointsAreSound(d, t);
    TagsAreSound(d, t);
    EvidenceTagsAreSound(d, t);
  }

  /**
   Any text that the verifier accepts holds records 1 to n in order, each with exactly one
   endpoint row for each role and the checksum of its own values, and under a key exactly one
   tag row with the key's fingerprint and the tag of the row's texts; evidence likewise; and
   the numbers reported are the numbers of those rows.
   */
  lemma AcceptedTextIsSound(env: Env, text: string)
    requires EnvOk(env) && Verify(env, text).Some?
    ensures SplitLines(text) != [] && SplitLines(text)[0] == "pxf/1"
    ensures SoundText(env, TableOf(SplitLines(text)[1..]), Verify(env, text).value)
  {
    hide OnLines, SplitLines, EntryVerifies, EvidenceVerifies, EnvOk, Filed, Distinct, SoundRecord, SoundEvidence,
         SoundEndpoints, SoundTags, TableOf;
    var ls := SplitLines(text)[1..];
    var d, t := OnLines(Empty(), ls).value, TableOf(ls);
    VerifiedIsDistinct(env, d);
    LinesAreFiled(ls);
    FiledIsSound(d, t);
    forall i: nat | i < |t.audits| ensures SoundRecord(env, t, i) {
      RecordIsSound(env, d, t, i);
    }
    forall i: nat | i < |t.evidence| ensures SoundEvidence(env, t, i) {
      EvidenceIsSound(env, d, t, i);
    }
  }

  // -- when the signed texts are the writer's message

  predicate NoBar(s: string) {
    forall i :: 0 <= i < |s| ==> s[i] != '|'
  }

  predicate NoBars(ts: seq<string>) {
    forall i :: 0 <= i < |ts| ==> NoBar(ts[i])
  }

  lemma {:induction false} BarSplits(a: string, x: string, b: string, y: string)
    requires NoBar(a) && NoBar(b) && a + "|" + x == b + "|" + y
    ensures a == b && x == y
  {
    var s := a + "|" + x;
    assert s[|a|] == '|' && s[|b|] == '|';
    assert forall i :: 0 <= i < |a| ==> s[i] == a[i];
    assert forall i :: 0 <= i < |b| ==> s[i] == b[i];
    assert a == s[..|a|] && b == s[..|b|] && x == s[|a| + 1..] && y == s[|b| + 1..];
  }

  /** Texts without a bar can be told apart after joining them with bars. */
  lemma {:induction false} JoinIsInjective(a: seq<string>, b: seq<string>)
    requires |a| == |b| && NoBars(a) && NoBars(b) && Join(a, '|') == Join(b, '|')
    ensures a == b
  {
    if |a| >= 2 {
      assert a[0] + ['|'] + Join(a[1..], '|') == a[0] + "|" + Join(a[1..], '|');
      assert b[0] + ['|'] + Join(b[1..], '|') == b[0] + "|" + Join(b[1..], '|');
      assert NoBar(a[0]) && NoBar(b[0]);
      BarSplits(a[0], Join(a[1..], '|'), b[0], Join(b[1..], '|'));
      JoinIsInjective(a[1..], b[1..]);
      assert a == [a[0]] + a[1..] && b == [b[0]] + b[1..];
    }
  }

  lemma Nibble(v: nat, c: char)
    requires IsHex(c)
    ensures (v * 16 + HexOf(c)) / 16 == v && HexChar((v * 16 + HexOf(c)) % 16) == Lower(c)
  {
  }

  lemma {:induction false} HexReadsBack(s: string)
    requires AllHex(s)
    ensures HexDigits(HexValue(s), |s|) == LowerAll(s)
  {
    if s != "" {
      var n := |s| - 1;
      HexReadsBack(s[..n]);
      assert LowerAll(s) == LowerAll(s[..n]) + [Lower(s[n])];
      Nibble(HexValue(s[..n]), s[n]);
    }
  }

  lemma Hex32ReadsBack(s: string)
    requires IsHex32(s)
    ensures Hex32(HexValue(s[2..])) == LowerAll(s) && NoBar(LowerAll(s))
  {
    HexReadsBack(s[2..]);
    assert s == "0x" + s[2..];
    assert LowerAll(s) == LowerAll("0x") + LowerAll(s[2..]);
    assert LowerAll("0x") == "0x";
    assert forall i :: 0 <= i < |s| ==> (i >= 2 ==> s[i] == s[2..][i - 2]);
  }

  /** A numeral as the writer prints it. */
  predicate Canonical(s: string)
    requires IsUint(s)
  {
    Decimal(Value(s)) == s
  }

  lemma NumeralHasNoBar(s: string)
    requires IsUint(s)
    ensures NoBar(s) && NoBar(Decimal(Value(s)))
  {
  }

  lemma SafeHasNoBar(s: string, cap: nat, host: bool)
    requires Safe(s, cap, host)
    ensures NoBar(s)
  {
  }

  /** What the writer signs for the row's values. */
  function WrittenTexts(t: Table, f: seq<string>, g: Group): seq<string>
    requires ReadableAudit(f) && IsGroup(t, f[0], g)
  {
    ["audit/v1", Decimal(Value(f[0])), Decimal(Value(f[1])), f[2], Decimal(Value(f[3])), Decimal(Value(f[4])),
     Decimal(Value(f[5])), Decimal(Value(f[6])), f[7], Decimal(Value(f[8])), LowerAll(f[9]),
     g.client[2], Decimal(Value(g.client[3])), g.listen[2], Decimal(Value(g.listen[3])),
     g.target[2], Decimal(Value(g.target[3])), g.backend[2], Decimal(Value(g.backend[3]))]
  }

  lemma WrittenIsMessage(t: Table, f: seq<string>, g: Group)
    requires ReadableAudit(f) && IsGroup(t, f[0], g)
    ensures Join(WrittenTexts(t, f, g), '|') == AuditMessage(AuditOf(f), PeersOfGroup(t, f[0], g))
  {
    Hex32ReadsBack(f[9]);
    hide Decimal, Value, LowerAll, Hex32, HexValue, IsUint, IsHex32, Safe, Join;
    var row, ps := AuditOf(f), PeersOfGroup(t, f[0], g);
    assert KindText(row.kind) == f[2];
    hide KindText, KindFromText;
    assert WrittenTexts(t, f, g) == ["audit/v1"] + AuditFields(row) + PeerFields(ps.client) + PeerFields(ps.listen)
                                    + PeerFields(ps.target) + PeerFields(ps.backend);
  }

  lemma TextsHaveNoBars(t: Table, f: seq<string>, g: Group)
    requires ReadableAudit(f) && IsGroup(t, f[0], g)
    ensures NoBars(SignedTexts(t, f, g)) && NoBars(WrittenTexts(t, f, g))
  {
    hide NoBar, Decimal, Value, LowerAll, Hex32, HexValue, IsUint, IsHex32, Safe, KindText, KindFromText, IsPeer;
    NameHasNoBar();
    KindsHaveNoBar(KindFromText(f[2]).value);
    NumeralHasNoBar(f[0]);
    NumeralHasNoBar(f[1]);
    NumeralHasNoBar(f[3]);
    NumeralHasNoBar(f[4]);
    NumeralHasNoBar(f[5]);
    NumeralHasNoBar(f[6]);
    NumeralHasNoBar(f[8]);
    Hex32ReadsBack(f[9]);
    SafeHasNoBar(f[7], REASON_TEXT, false);
    PeerHasNoBar(t, f[0], "client", g.client);
    PeerHasNoBar(t, f[0], "listen", g.listen);
    PeerHasNoBar(t, f[0], "target", g.target);
    PeerHasNoBar(t, f[0], "backend", g.backend);
  }

  lemma KindsHaveNoBar(k: Kind)
    ensures NoBar(KindText(k))
  {
  }

  lemma PeerHasNoBar(t: Table, n: string, role: string, e: seq<string>)
    requires IsPeer(t, n, role, e)
    ensures NoBar(e[2]) && NoBar(e[3]) && NoBar(Decimal(Value(e[3])))
  {
    SafeHasNoBar(e[2], HOST_TEXT, true);
    NumeralHasNoBar(e[3]);
    hide Safe, IsUint, NoBar;
  }

  /** Every numeral of a record, ports included, is as the writer prints it. */
  predicate AllCanonical(t: Table, f: seq<string>, g: Group)
    requires ReadableAudit(f) && IsGroup(t, f[0], g)
  {
    && Canonical(f[0]) && Canonical(f[1]) && Canonical(f[3]) && Canonical(f[4]) && Canonical(f[5]) && Canonical(f[6])
    && Canonical(f[8]) && Canonical(g.client[3]) && Canonical(g.listen[3]) && Canonical(g.target[3])
    && Canonical(g.backend[3])
  }

  /**
   The tag is over the texts as they stand, so it is over the writer's message for the row's
   values if and only if every numeral is printed as the writer prints it.
   */
  lemma SignedIffCanonical(t: Table, f: seq<string>, g: Group)
    requires ReadableAudit(f) && IsGroup(t, f[0], g)
    ensures Join(SignedTexts(t, f, g), '|') == AuditMessage(AuditOf(f), PeersOfGroup(t, f[0], g))
       <==> AllCanonical(t, f, g)
  {
    hide NoBars, AuditMessage, Join, LowerAll, Decimal, Value, IsUint, IsHex32, Safe, KindFromText, AuditOf,
         PeersOfGroup, IsPeer;
    WrittenIsMessage(t, f, g);
    TextsHaveNoBars(t, f, g);
    var signed, written := SignedTexts(t, f, g), WrittenTexts(t, f, g);
    if Join(signed, '|') == Join(written, '|') {
      JoinIsInjective(signed, written);
      SameTexts(t, f, g);
    }
    if AllCanonical(t, f, g) {
      assert signed == written;
    }
  }

  lemma SameTexts(t: Table, f: seq<string>, g: Group)
    requires ReadableAudit(f) && IsGroup(t, f[0], g) && SignedTexts(t, f, g) == WrittenTexts(t, f, g)
    ensures AllCanonical(t, f, g)
  {
    hide LowerAll, Decimal, Value, IsUint, IsHex32, Safe, KindFromText, IsPeer;
    var a, b := SignedTexts(t, f, g), WrittenTexts(t, f, g);
    assert a[1] == b[1] && a[2] == b[2] && a[4] == b[4] && a[5] == b[5] && a[6] == b[6] && a[7] == b[7] && a[9] == b[9];
    assert a[12] == b[12] && a[14] == b[14] && a[16] == b[16] && a[18] == b[18];
  }

  lemma {:induction false} DecimalsAt(ns: seq<nat>, i: nat)
    requires i < |ns|
    ensures Decimals(ns)[i] == Decimal(ns[i])
  {
    if i > 0 {
      DecimalsAt(ns[1..], i - 1);
    }
  }

  lemma {:induction false} HexesAt(ns: seq<nat>, i: nat)
    requires i < |ns|
    ensures Hexes(ns)[i] == Hex32(ns[i])
  {
    if i > 0 {
      HexesAt(ns[1..], i - 1);
    }
  }

  /** The places of an evidence row's decimal numerals. */
  predicate IsNumeral(i: nat) {
    i == 0 || i == 2 || 5 <= i < 13
  }

  /** Text `i` of an evidence row as the writer signs it for the row's values. */
  ghost function WrittenText(f: seq<string>, i: nat): string
    requires ReadableEvidence(f) && i < 19
  {
    if IsNumeral(i) then Decimal(Value(f[i])) else if i == 1 then f[1] else LowerAll(f[i])
  }

  function SignedText(f: seq<string>, i: nat): string
    requires |f| == 19 && i < 19
  {
    if IsNumeral(i) || i == 1 then f[i] else LowerAll(f[i])
  }

  ghost function RowValues(f: seq<string>): EvidenceRow
    requires ReadableEvidence(f)
  {
    EvidenceRow(Value(f[0]), EvidenceValuesOf(f), HexValue(f[18][2..]))
  }

  lemma PatrolIsWritten(f: seq<string>, i: nat)
    requires ReadableEvidence(f) && 5 <= i < 13
    ensures var row := RowValues(f);
            |EvidenceFields(row)| == 19 && EvidenceFields(row)[i] == Decimal(Value(f[i]))
  {
    hide Decimal, Value, Hex32, HexValue, LowerAll, IsHex32, Decimals, Hexes;
    assert IsUint(f[i]);
    var row := RowValues(f);
    DecimalsAt(row.evidence.patrols, i - 5);
    assert row.evidence.patrols[i - 5] == Value(f[i]);
    assert EvidenceFields(row)[i] == Decimals(row.evidence.patrols)[i - 5];
  }

  lemma SettingIsWritten(f: seq<string>, i: nat)
    requires ReadableEvidence(f) && 13 <= i < 18
    ensures var row := RowValues(f);
            |EvidenceFields(row)| == 19 && EvidenceFields(row)[i] == LowerAll(f[i])
  {
    hide Decimal, Value, Hex32, HexValue, LowerAll, IsUint, Decimals, Hexes;
    assert IsHex32(f[i]);
    Hex32ReadsBack(f[i]);
    var row := RowValues(f);
    HexesAt(row.evidence.settings, i - 13);
    assert row.evidence.settings[i - 13] == HexValue(f[i][2..]);
    assert EvidenceFields(row)[i] == Hexes(row.evidence.settings)[i - 13];
  }

  lemma EndsAreWritten(f: seq<string>, i: nat)
    requires ReadableEvidence(f) && (i < 5 || i == 18)
    ensures |EvidenceFields(RowValues(f))| == 19 && EvidenceFields(RowValues(f))[i] == WrittenText(f, i)
  {
    hide Decimal, Value, Hex32, HexValue, LowerAll, IsUint, IsHex32, Decimals, Hexes;
    Hex32ReadsBack(f[3]);
    Hex32ReadsBack(f[4]);
    Hex32ReadsBack(f[18]);
  }

  lemma EvidenceIsWritten(f: seq<string>, i: nat)
    requires ReadableEvidence(f) && i < 19
    ensures |EvidenceFields(RowValues(f))| == 19 && EvidenceFields(RowValues(f))[i] == WrittenText(f, i)
  {
    hide Decimal, Value, Hex32, HexValue, LowerAll, IsUint, IsHex32, EvidenceFields, RowValues;
    if 5 <= i < 13 {
      PatrolIsWritten(f, i);
    } else if 13 <= i < 18 {
      SettingIsWritten(f, i);
    } else {
      EndsAreWritten(f, i);
    }
  }

  ghost predicate EvidenceCanonical(f: seq<string>)
    requires ReadableEvidence(f)
  {
    forall i: nat :: i < 19 && IsNumeral(i) ==> WrittenText(f, i) == f[i]
  }

  lemma SignedAt(f: seq<string>, i: nat)
    requires |f| == 19 && i < 19
    ensures SignedEvidence(f)[i + 1] == SignedText(f, i)
  {
    hide LowerAll;
  }

  lemma EvidenceHasNoBars(f: seq<string>)
    requires ReadableEvidence(f) && Safe(f[1], REASON_TEXT, false)
    ensures NoBars(SignedEvidence(f)) && NoBars(["evidence/v1"] + EvidenceFields(RowValues(f)))
  {
    hide SignedEvidence, SignedText, WrittenText, EvidenceFields, NoBar, RowValues, Safe;
    var signed, written := SignedEvidence(f), ["evidence/v1"] + EvidenceFields(RowValues(f));
    EvidenceIsWritten(f, 0);
    NameHasNoBar();
    forall k | 0 <= k < 20 ensures NoBar(signed[k]) && NoBar(written[k]) {
      if k > 0 {
        SignedAt(f, k - 1);
        EvidenceIsWritten(f, k - 1);
        TextHasNoBar(f, k - 1);
      }
    }
  }

  lemma NameHasNoBar()
    ensures NoBar("audit/v1") && NoBar("evidence/v1")
  {
  }

  lemma TextHasNoBar(f: seq<string>, i: nat)
    requires ReadableEvidence(f) && Safe(f[1], REASON_TEXT, false) && i < 19
    ensures NoBar(SignedText(f, i)) && NoBar(WrittenText(f, i))
  {
    if IsNumeral(i) {
      NumeralHasNoBar(f[i]);
    } else if i == 1 {
      SafeHasNoBar(f[1], REASON_TEXT, false);
    } else {
      Hex32ReadsBack(f[i]);
    }
    hide Decimal, Value, Hex32, HexValue, LowerAll, IsUint, IsHex32, Safe, NoBar;
  }

  lemma TextsAgree(f: seq<string>, i: nat)
    requires ReadableEvidence(f) && i < 19
    ensures var written := ["evidence/v1"] + EvidenceFields(RowValues(f));
            && |written| == 20
            && (SignedEvidence(f)[i + 1] == written[i + 1] <==> (IsNumeral(i) ==> WrittenText(f, i) == f[i]))
  {
    hide SignedEvidence, SignedText, WrittenText, EvidenceFields, RowValues, IsNumeral;
    SignedAt(f, i);
    EvidenceIsWritten(f, i);
    SignedOrSame(f, i);
  }

  lemma SameIffCanonical(f: seq<string>)
    requires ReadableEvidence(f)
    ensures SignedEvidence(f) == ["evidence/v1"] + EvidenceFields(RowValues(f)) <==> EvidenceCanonical(f)
  {
    hide SignedEvidence, WrittenText, EvidenceFields, RowValues, IsNumeral;
    var signed, written := SignedEvidence(f), ["evidence/v1"] + EvidenceFields(RowValues(f));
    TextsAgree(f, 0);
    if EvidenceCanonical(f) {
      forall k | 0 <= k < 20 ensures signed[k] == written[k] {
        if k > 0 {
          TextsAgree(f, k - 1);
        }
      }
    }
    if signed == written {
      forall i: nat | i < 19 && IsNumeral(i) ensures WrittenText(f, i) == f[i] {
        TextsAgree(f, i);
      }
    }
  }

  /** The same for evidence. */
  lemma EvidenceSignedIffCanonical(f: seq<string>)
    requires ReadableEvidence(f) && Safe(f[1], REASON_TEXT, false)
    ensures Join(SignedEvidence(f), '|') == EvidenceMessage(RowValues(f)) <==> EvidenceCanonical(f)
  {
    hide SignedEvidence, EvidenceFields, NoBars, RowValues, Safe, Join, EvidenceCanonical;
    var signed, written := SignedEvidence(f), ["evidence/v1"] + EvidenceFields(RowValues(f));
    EvidenceIsWritten(f, 0);
    EvidenceHasNoBars(f);
    SameIffCanonical(f);
    if Join(signed, '|') == Join(written, '|') {
      JoinIsInjective(signed, written);
    }
  }

  lemma SignedOrSame(f: seq<string>, i: nat)
    requires ReadableEvidence(f) && i < 19
    ensures SignedText(f, i) == if IsNumeral(i) then f[i] else WrittenText(f, i)
  {
    hide LowerAll, Decimal, Value;
  }

  /** A leading zero is such a numeral: the verifier takes `01`, the writer never prints it. */
  lemma LeadingZeroIsNotCanonical()
    ensures IsUint("01") && Value("01") == 1 && !Canonical("01")
  {
    assert "01"[..1] == "0" && "0"[..0] == "";
    assert Value("0") == 0;
  }
}
