/** Lines and tokens of a PXF document, as the C scanner cuts them. */
module Tokens {
  import opened Bytes

  const LINE_BYTES: nat := 4096

  // -- text that both readers cut in the same way

  predicate Printable(s: string) {
    forall i :: 0 <= i < |s| ==> ' ' <= s[i] <= '~'
  }

  /** A field that survives being put between blanks. */
  predicate Clean(t: string) {
    t != "" && forall i :: 0 <= i < |t| ==> '!' <= t[i] <= '~'
  }

  function Join(ts: seq<string>, sep: char): string {
    if |ts| == 0 then "" else if |ts| == 1 then ts[0] else ts[0] + [sep] + Join(ts[1..], sep)
  }

  function Unlines(ls: seq<string>): string {
    if ls == [] then "" else Unlines(ls[..|ls| - 1]) + ls[|ls| - 1] + "\n"
  }

  // -- lines

  /** The finished lines of a text and what stands after the last of them. */
  datatype Cut = Cut(lines: seq<string>, rest: string)

  function CutLines(text: string): Cut {
    if text == "" then Cut([], "")
    else
      var c, before := text[|text| - 1], CutLines(text[..|text| - 1]);
      if c == '\n' then Cut(before.lines + [before.rest], "") else Cut(before.lines, before.rest + [c])
  }

  predicate NoBreak(s: string) {
    forall i :: 0 <= i < |s| ==> s[i] != '\n'
  }

  lemma AppendChar(text: string, c: char)
    requires c != '\n'
    ensures CutLines(text + [c]) == Cut(CutLines(text).lines, CutLines(text).rest + [c])
  {
    assert (text + [c])[..|text|] == text;
  }

  lemma {:induction false} CutRest(text: string, s: string)
    requires NoBreak(s)
    ensures CutLines(text + s) == Cut(CutLines(text).lines, CutLines(text).rest + s)
  {
    if s == "" {
      assert text + s == text;
      assert CutLines(text).rest + s == CutLines(text).rest;
    } else {
      var n := |s| - 1;
      CutRest(text, s[..n]);
      AppendChar(text + s[..n], s[n]);
      assert text + s == text + s[..n] + [s[n]];
      hide CutLines;
      assert CutLines(text).rest + s == (CutLines(text).rest + s[..n]) + [s[n]];
    }
  }

  lemma CutLine(text: string, l: string)
    requires CutLines(text).rest == "" && NoBreak(l)
    ensures CutLines(text + l + "\n") == Cut(CutLines(text).lines + [l], "")
  {
    CutRest(text, l);
    var whole := text + l + "\n";
    assert whole[..|whole| - 1] == text + l;
    assert "" + l == l;
  }

  /** Appending whole lines to a text that ends a line appends exactly those lines. */
  lemma {:induction false} CutUnlines(text: string, ls: seq<string>)
    requires CutLines(text).rest == "" && forall i :: 0 <= i < |ls| ==> NoBreak(ls[i])
    ensures CutLines(text + Unlines(ls)) == Cut(CutLines(text).lines + ls, "")
  {
    hide CutLines, NoBreak;
    if ls == [] {
      assert text + Unlines(ls) == text;
      assert CutLines(text).lines + ls == CutLines(text).lines;
    } else {
      var n := |ls| - 1;
      CutUnlines(text, ls[..n]);
      CutLine(text + Unlines(ls[..n]), ls[n]);
      assert text + Unlines(ls) == text + Unlines(ls[..n]) + ls[n] + "\n";
      assert CutLines(text).lines + ls == (CutLines(text).lines + ls[..n]) + [ls[n]];
    }
  }

  /** A C string ends at its first NUL. */
  function CString(s: string): string {
    if s == "" || s[0] == '\0' then "" else [s[0]] + CString(s[1..])
  }

  lemma {:induction false} CStringOfPrintable(s: string)
    requires Printable(s)
    ensures CString(s) == s
  {
    if s != "" {
      CStringOfPrintable(s[1..]);
      assert s == [s[0]] + s[1..];
    }
  }

  predicate StartsWith(s: string, prefix: string) {
    |prefix| <= |s| && s[..|prefix|] == prefix
  }

  // -- tokens

  predicate IsBlank(c: char) {
    c == ' ' || c == '\t'
  }

  predicate IsStop(c: char) {
    c == '\0' || IsBlank(c) || c == '\r' || c == '\n'
  }

  function SkipBlanks(s: string): (r: string)
    ensures |r| <= |s|
  {
    if s != "" && IsBlank(s[0]) then SkipBlanks(s[1..]) else s
  }

  /** How many characters stand before the next stop. */
  function TokenLength(s: string): (n: nat)
    ensures n <= |s|
  {
    if s == "" || IsStop(s[0]) then 0 else 1 + TokenLength(s[1..])
  }

  /** The next token and the text after it; a token must be shorter than its buffer. */
  function NextToken(s: string, cap: nat): Option<(string, string)> {
    var t := SkipBlanks(s);
    if 0 < TokenLength(t) < cap then Some((t[..TokenLength(t)], t[TokenLength(t)..])) else None
  }

  predicate NoExtra(s: string) {
    forall i :: 0 <= i < |s| ==> IsBlank(s[i]) || s[i] == '\r' || s[i] == '\n'
  }

  /** Exactly as many tokens as there are buffers, and nothing after them. */
  function Fields(s: string, caps: seq<nat>): (r: Option<seq<string>>)
    ensures r.Some? ==> |r.value| == |caps|
    decreases |caps|
  {
    if caps == [] then (if NoExtra(s) then Some([]) else None)
    else
      var next :- NextToken(s, caps[0]);
      var rest :- Fields(next.1, caps[1..]);
      Some([next.0] + rest)
  }

  lemma {:induction false} RunOfClean(t: string, rest: string)
    requires (forall i :: 0 <= i < |t| ==> '!' <= t[i] <= '~') && (rest == "" || IsStop(rest[0]))
    ensures TokenLength(t + rest) == |t|
  {
    if t != "" {
      assert (t + rest)[1..] == t[1..] + rest;
      RunOfClean(t[1..], rest);
    } else {
      assert t + rest == rest;
    }
  }

  lemma NextOfClean(t: string, rest: string, cap: nat)
    requires Clean(t) && |t| < cap && (rest == "" || IsStop(rest[0]))
    ensures NextToken(t + rest, cap) == Some((t, rest))
    ensures NextToken(" " + t + rest, cap) == Some((t, rest))
  {
    RunOfClean(t, rest);
    assert SkipBlanks(t + rest) == t + rest;
    assert (t + rest)[..|t|] == t && (t + rest)[|t|..] == rest;
    assert (" " + t + rest)[1..] == t + rest;
  }

  predicate AllClean(ts: seq<string>, caps: seq<nat>) {
    |ts| == |caps| && forall i :: 0 <= i < |ts| ==> Clean(ts[i]) && |ts[i]| < caps[i]
  }

  /** A blank and a token for each field. */
  function Spaced(ts: seq<string>): string {
    if ts == [] then "" else " " + ts[0] + Spaced(ts[1..])
  }

  lemma {:induction false} FieldsOfSpaced(ts: seq<string>, caps: seq<nat>)
    requires AllClean(ts, caps)
    ensures Fields(Spaced(ts), caps) == Some(ts)
  {
    if ts != [] {
      NextOfClean(ts[0], Spaced(ts[1..]), caps[0]);
      FieldsOfSpaced(ts[1..], caps[1..]);
      assert ts == [ts[0]] + ts[1..];
    }
  }

  lemma {:induction false} JoinIsSpaced(ts: seq<string>)
    requires ts != []
    ensures Join(ts, ' ') == ts[0] + Spaced(ts[1..])
  {
    if |ts| == 1 {
      assert Spaced(ts[1..]) == "";
    } else {
      JoinIsSpaced(ts[1..]);
      assert Spaced(ts[1..]) == " " + ts[1..][0] + Spaced(ts[1..][1..]);
    }
  }

  /** What a row prints as fields is what the scanner reads back as fields. */
  lemma FieldsOfJoin(ts: seq<string>, caps: seq<nat>)
    requires ts != [] && AllClean(ts, caps)
    ensures Fields(Join(ts, ' '), caps) == Some(ts)
  {
    JoinIsSpaced(ts);
    NextOfClean(ts[0], Spaced(ts[1..]), caps[0]);
    FieldsOfSpaced(ts[1..], caps[1..]);
    assert ts == [ts[0]] + ts[1..];
  }

  lemma ScanEnds(s: string, p: nat)
    requires p <= |s|
    ensures p == |s| || !IsBlank(s[p]) ==> SkipBlanks(s[p..]) == s[p..]
    ensures p == |s| || IsStop(s[p]) ==> TokenLength(s[p..]) == 0
  {
  }

  lemma BlankAt(s: string, p: nat)
    requires p < |s|
    ensures SkipBlanks(s[p..]) == if IsBlank(s[p]) then SkipBlanks(s[p + 1..]) else s[p..]
    ensures TokenLength(s[p..]) == if IsStop(s[p]) then 0 else 1 + TokenLength(s[p + 1..])
  {
    assert s[p..][1..] == s[p + 1..];
  }

  lemma TokenMissing(s: string, cursor: nat, start: nat, cap: nat)
    requires cursor <= start <= |s| && SkipBlanks(s[cursor..]) == s[start..]
    requires TokenLength(s[start..]) == 0 || TokenLength(s[start..]) >= cap
    ensures NextToken(s[cursor..], cap) == None
  {
    hide TokenLength, SkipBlanks;
  }

  lemma TokenFound(s: string, cursor: nat, start: nat, p: nat, cap: nat)
    requires cursor <= start < p <= |s| && SkipBlanks(s[cursor..]) == s[start..]
    requires TokenLength(s[start..]) == p - start < cap
    ensures NextToken(s[cursor..], cap) == Some((s[start..p], s[p..]))
  {
    hide TokenLength, SkipBlanks;
    assert s[start..][..p - start] == s[start..p] && s[start..][p - start..] == s[p..];
  }

  /** The cursor loop of the scanner. */
  method ReadToken(s: string, cursor: nat, cap: nat) returns (token: Option<string>, next: nat)
    requires cursor <= |s|
    ensures cursor <= next <= |s|
    ensures match NextToken(s[cursor..], cap)
            case None => token == None && next == cursor
            case Some(found) => token == Some(found.0) && s[next..] == found.1
  {
    hide NextToken, TokenLength, SkipBlanks, IsBlank, IsStop;
    var start := cursor;
    while start < |s| && IsBlank(s[start])
      invariant cursor <= start <= |s|
      invariant SkipBlanks(s[start..]) == SkipBlanks(s[cursor..])
    {
      BlankAt(s, start);
      start := start + 1;
    }
    ScanEnds(s, start);
    var p := start;
    while p < |s| && !IsStop(s[p])
      invariant start <= p <= |s|
      invariant TokenLength(s[start..]) == p - start + TokenLength(s[p..])
      invariant p == start || p - start < cap
    {
      BlankAt(s, p);
      if p - start + 1 >= cap {
        TokenMissing(s, cursor, start, cap);
        return None, cursor;
      }
      p := p + 1;
    }
    ScanEnds(s, p);
    if p == start {
      TokenMissing(s, cursor, start, cap);
      return None, cursor;
    }
    TokenFound(s, cursor, start, p, cap);
    return Some(s[start..p]), p;
  }
}
