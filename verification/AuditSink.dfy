/** The process-wide audit sink, updated in place, against the writer of `AuditLog`. */
module AuditSink {
  import opened Bytes
  import opened Digits
  import opened Tokens
  import opened AuditLog
  import opened AuditScan
  import opened AuditRuns

  lemma StartsWithItself(s: string)
    ensures StartsWith(s, s)
  {
  }

  class Sink {
    const env: Env
    const counts: array<nat>
    var enabled: bool
    var file: string
    var lastSeq: nat
    var evidenceSeq: nat
    var runtime: Runtime

    ghost predicate Valid()
      reads this
    {
      counts.Length == KINDS
    }

    ghost function View(): (w: Writer)
      requires Valid()
      reads this, counts
      ensures |w.counts| == KINDS
    {
      Writer(file, lastSeq, evidenceSeq, counts[..], runtime)
    }

    constructor (env: Env, file: string, rt: Runtime)
      ensures Valid() && this.env == env && !enabled && View() == Writer(file, 0, 0, Zeros(), rt)
    {
      this.env := env;
      this.file := file;
      counts := new nat[KINDS](i => 0);
      enabled, lastSeq, evidenceSeq, runtime := false, 0, 0, rt;
      new;
      assert counts[..] == Zeros();
    }

    method ResetCounts()
      requires Valid()
      modifies counts
      ensures counts[..] == Zeros()
    {
      for i := 0 to KINDS
        invariant forall k :: 0 <= k < i ==> counts[k] == 0
      {
        counts[i] := 0;
      }
      assert counts[..] == Zeros();
    }

    /**
     Opens the log: the counters become what the file says.  With auditing off, with an unreadable
     key, a file that does not scan or hosts that do not fit, the sink stays shut.
     */
    method Init(on: bool, rt: Runtime, keyReads: bool) returns (ok: bool)
      requires Valid()
      modifies this, counts
      ensures Valid() && (ok <==> !on || enabled)
      ensures enabled <==> on && (env.key.None? || keyReads) && Open(env, old(file), rt).Some?
      ensures enabled ==> View() == Open(env, old(file), rt).value
      ensures !enabled ==> lastSeq == 0 && evidenceSeq == 0 && counts[..] == Zeros()
      ensures file == if on && old(file) == "" then Header() else old(file)
    {
      hide Header, ScanFile, StartsWith, Zeros, HostsFit;
      enabled, lastSeq, evidenceSeq := false, 0, 0;
      ResetCounts();
      if !on {
        return true;
      }
      if file == "" {
        file := Header();
      } else if !StartsWith(file, Header()) {
        return false;
      }
      StartsWithItself(Header());
      if env.key.Some? && !keyReads {
        return false;
      }
      var found := ReadFile(env, file);
      if found.None? || !HostsFit(rt) {
        return false;
      }
      for i := 0 to KINDS
        modifies counts
        invariant forall k :: 0 <= k < i ==> counts[k] == found.value.counts[k]
      {
        counts[i] := found.value.counts[i];
      }
      enabled, lastSeq, evidenceSeq, runtime := true, found.value.lastSeq, found.value.evidenceSeq, rt;
      assert counts[..] == found.value.counts;
      return true;
    }

    /** The guarded sequence counter. */
    method NextSeq() returns (n: Option<nat>)
      modifies this`lastSeq
      ensures old(lastSeq) == U64 - 1 ==> n == None && lastSeq == old(lastSeq)
      ensures old(lastSeq) != U64 - 1 ==> n == Some(old(lastSeq) + 1) && lastSeq == old(lastSeq) + 1
    {
      if lastSeq == U64 - 1 {
        return None;
      }
      lastSeq := lastSeq + 1;
      return Some(lastSeq);
    }

    method NextEventNo(kind: Kind) returns (n: Option<nat>)
      requires Valid()
      modifies counts
      ensures var k := KindIndex(kind);
              if old(counts[k]) == U64 - 1 then n == None && counts[..] == old(counts[..])
              else n == Some(old(counts[k]) + 1) && counts[..] == old(counts[..])[k := old(counts[k]) + 1]
    {
      var k := KindIndex(kind);
      if counts[k] == U64 - 1 {
        return None;
      }
      counts[k] := counts[k] + 1;
      return Some(counts[k]);
    }

    /** Records one event; a sink that is shut says yes and does nothing. */
    method Append(event: Event, d: Delivery) returns (ok: bool)
      requires Valid()
      modifies this`lastSeq, this`file, counts
      ensures !enabled ==> ok && View() == old(View())
      ensures enabled ==> (View(), ok) == Record(env, old(View()), event, d)
    {
      hide Defaults, SafeEvent, AuditFits, AuditLines, EventRow, Unlines;
      if !enabled {
        return true;
      }
      var e := Defaults(runtime, event);
      if !SafeEvent(e) {
        return false;
      }
      var n := NextSeq();
      if n.None? {
        return false;
      }
      var eventNo := NextEventNo(e.kind);
      if eventNo.None? {
        return false;
      }
      var row := EventRow(env, e, n.value, eventNo.value);
      if env.key.Some? && !d.keyReads {
        return false;
      }
      if !AuditFits(env, row, e.peers) || d.disk.Refused? {
        return false;
      }
      file := file + Unlines(AuditLines(env, row, e.peers));
      return d.disk.Synced?;
    }

    method AppendEvidence(evidence: Evidence, d: Delivery) returns (ok: bool)
      requires Valid() && EvidenceShape(evidence)
      modifies this`evidenceSeq, this`file
      ensures !enabled ==> ok && View() == old(View())
      ensures enabled ==> (View(), ok) == RecordEvidence(env, old(View()), evidence, d)
    {
      hide EvidenceCrc, Safe, EvidenceFits, EvidenceLines, Unlines;
      if !enabled {
        return true;
      }
      var e := EvidenceDefaults(evidence);
      if !Safe(e.event, REASON_TEXT, false) || evidenceSeq == U64 - 1 {
        return false;
      }
      evidenceSeq := evidenceSeq + 1;
      var row := EvidenceRow(evidenceSeq, e, EvidenceCrc(env, evidenceSeq, e));
      if env.key.Some? && !d.keyReads {
        return false;
      }
      if !EvidenceFits(env, row) || d.disk.Refused? {
        return false;
      }
      file := file + Unlines(EvidenceLines(env, row));
      return d.disk.Synced?;
    }
  }
}
