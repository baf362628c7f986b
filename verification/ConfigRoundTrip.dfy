/** A configuration file means what it says: files printed from values load as those values. */
module ConfigRoundTrip {
  import opened Bytes
  import opened Digits
  import opened Tokens
  import opened ConfigNumbers
  import opened ConfigModel
  import opened ConfigFile
  import opened ConfigNames
  import opened ConfigLines

  // -- printed lines

  datatype Quote = Bare | Single | Double

  function Mark(q: Quote): string {
    match q
    case Bare => ""
    case Single => "'"
    case Double => "\""
  }

  /** How one line is laid out: blanks at four places, quotes, and perhaps a comment. */
  datatype Layout = Layout(indent: string, afterKey: string, beforeValue: string, quote: Quote, afterValue: string,
                           comment: Option<string>)

  predicate Blanks(s: string) {
    forall i :: 0 <= i < |s| ==> IsBlank(s[i])
  }

  function Quoted(text: string, q: Quote): string {
    Mark(q) + text + Mark(q)
  }

  function Remark(c: Option<string>): string {
    if c.None? then "" else "#" + c.value
  }

  /** `name: value`, as laid out. */
  function PrintLine(name: string, text: string, l: Layout): string {
    l.indent + name + l.afterKey + ":" + l.beforeValue + Quoted(text, l.quote) + l.afterValue + Remark(l.comment)
  }

  predicate Lacks(s: string, c: char) {
    forall i :: 0 <= i < |s| ==> s[i] != c
  }

  /** The text can stand in a line under these quotes; without any it has no mark and no blank at its ends. */
  predicate Showable(text: string, q: Quote) {
    && |Quoted(text, q)| <= MAX_VALUE_LEN && Lacks(text, ':') && Lacks(text, '\\')
    && match q
       case Bare =>
         && text != "" && !IsBlank(text[0]) && !IsBlank(text[|text| - 1])
         && Lacks(text, '#') && Lacks(text, '\'') && Lacks(text, '"')
       case Single => Lacks(text, '\'')
       case Double => Lacks(text, '"')
  }

  predicate WellLaid(l: Layout) {
    Blanks(l.indent) && Blanks(l.afterKey) && Blanks(l.beforeValue) && Blanks(l.afterValue)
  }

  // -- the comment

  /** Neither quotes nor a number sign. */
  predicate NoMarks(s: string) {
    Lacks(s, '#') && Lacks(s, '\'') && Lacks(s, '"')
  }

  lemma {:induction false} SkipsPlain(a: string, b: string)
    requires NoMarks(a)
    ensures CommentStart(a + b, false, false) == |a| + CommentStart(b, false, false)
  {
    if a == "" {
      assert a + b == b;
    } else {
      assert (a + b)[1..] == a[1..] + b;
      SkipsPlain(a[1..], b);
    }
  }

  lemma {:induction false} SkipsSingle(a: string, b: string)
    requires Lacks(a, '\'')
    ensures CommentStart(a + "'" + b, true, false) == |a| + 1 + CommentStart(b, false, false)
  {
    if a == "" {
      assert (a + "'" + b)[1..] == b;
    } else {
      assert (a + "'" + b)[1..] == a[1..] + "'" + b;
      SkipsSingle(a[1..], b);
    }
  }

  lemma {:induction false} SkipsDouble(a: string, b: string)
    requires Lacks(a, '"')
    ensures CommentStart(a + "\"" + b, false, true) == |a| + 1 + CommentStart(b, false, false)
  {
    if a == "" {
      assert (a + "\"" + b)[1..] == b;
    } else {
      assert (a + "\"" + b)[1..] == a[1..] + "\"" + b;
      SkipsDouble(a[1..], b);
    }
  }

  lemma SkipsQuoted(text: string, q: Quote, b: string)
    requires Showable(text, q)
    ensures CommentStart(Quoted(text, q) + b, false, false) == |Quoted(text, q)| + CommentStart(b, false, false)
  {
    var s := Quoted(text, q) + b;
    match q
    case Bare =>
      assert Quoted(text, q) == text;
      SkipsPlain(text, b);
    case Single =>
      assert s[1..] == text + "'" + b;
      SkipsSingle(text, b);
    case Double =>
      assert s[1..] == text + "\"" + b;
      SkipsDouble(text, b);
  }

  lemma RemarkStarts(c: Option<string>)
    ensures CommentStart(Remark(c), false, false) == 0
  {
  }

  lemma BlanksHaveNoMarks(s: string)
    requires Blanks(s)
    ensures NoMarks(s) && Lacks(s, ':')
  {
  }

  // -- trimming

  lemma {:induction false} SkipsBlanks(a: string, b: string)
    requires Blanks(a) && (b == "" || !IsBlank(b[0]))
    ensures SkipBlanks(a + b) == b
  {
    if a == "" {
      assert a + b == b;
    } else {
      assert (a + b)[1..] == a[1..] + b;
      SkipsBlanks(a[1..], b);
    }
  }

  lemma {:induction false} DropsBlanks(a: string, b: string)
    requires Blanks(b) && (a == "" || !IsBlank(a[|a| - 1]))
    ensures TrimRight(a + b) == a
  {
    if b == "" {
      assert a + b == a;
    } else {
      assert (a + b)[..|a + b| - 1] == a + b[..|b| - 1];
      DropsBlanks(a, b[..|b| - 1]);
    }
  }

  predicate Solid(s: string) {
    s != "" && !IsBlank(s[0]) && !IsBlank(s[|s| - 1])
  }

  lemma TrimsTo(a: string, m: string, b: string)
    requires Blanks(a) && Solid(m) && Blanks(b)
    ensures Trim(a + m + b) == m
  {
    assert a + m + b == a + (m + b);
    SkipsBlanks(a, m + b);
    DropsBlanks(m, b);
  }

  // -- the colon

  lemma {:induction false} ColonsAdd(a: string, b: string)
    ensures Colons(a + b) == Colons(a) + Colons(b)
  {
    if a == "" {
      assert a + b == b;
    } else {
      assert (a + b)[1..] == a[1..] + b;
      ColonsAdd(a[1..], b);
    }
  }

  lemma {:induction false} NoColons(a: string)
    requires Lacks(a, ':')
    ensures Colons(a) == 0
  {
    if a != "" {
      NoColons(a[1..]);
    }
  }

  lemma {:induction false} ColonIsAfter(a: string, b: string)
    requires Lacks(a, ':')
    ensures Colons(a + ":" + b) > 0 && ColonAt(a + ":" + b) == |a|
  {
    if a != "" {
      assert (a + ":" + b)[1..] == a[1..] + ":" + b;
      ColonIsAfter(a[1..], b);
    }
  }

  lemma OneColon(a: string, b: string)
    requires Lacks(a, ':') && Lacks(b, ':')
    ensures Colons(a + ":" + b) == 1
  {
    ColonsAdd(a + ":", b);
    ColonsAdd(a, ":");
    NoColons(a);
    NoColons(b);
    assert Colons(":") == 1 by {
      assert ":"[1..] == "";
    }
  }

  // -- a printed line is read back

  lemma NameIsPlain(name: string)
    requires IsName(name)
    ensures Solid(name) && NoMarks(name) && Lacks(name, ':')
    ensures name[0] != '-' && name[0] != '[' && name[0] != '{'
  {
  }

  lemma QuotedIsSolid(text: string, q: Quote)
    requires Showable(text, q)
    ensures Solid(Quoted(text, q)) && Lacks(Quoted(text, q), ':')
    ensures Unquote(Quoted(text, q)) == Ok(text)
  {
    var s := Quoted(text, q);
    match q
    case Bare =>
      assert s == text;
    case Single =>
      assert s[1..|s| - 1] == text;
    case Double =>
      assert s[1..|s| - 1] == text;
  }

  /** The line without its comment and the blanks around it. */
  function Core(name: string, text: string, l: Layout): string {
    name + l.afterKey + ":" + (l.beforeValue + Quoted(text, l.quote))
  }

  lemma CommentIsCut(name: string, text: string, l: Layout)
    requires IsName(name) && Showable(text, l.quote) && WellLaid(l)
    ensures var line := PrintLine(name, text, l);
            line[..CommentStart(line, false, false)] == l.indent + Core(name, text, l) + l.afterValue
  {
    hide CommentStart, Quoted, IsName, Showable, Remark;
    var head, q, tail := l.indent + name + l.afterKey + ":" + l.beforeValue, Quoted(text, l.quote), Remark(l.comment);
    NameIsPlain(name);
    BlanksHaveNoMarks(l.indent);
    BlanksHaveNoMarks(l.afterKey);
    BlanksHaveNoMarks(l.beforeValue);
    BlanksHaveNoMarks(l.afterValue);
    HeadHasNoMarks(name, l);
    var line := PrintLine(name, text, l);
    assert line == head + (q + (l.afterValue + tail));
    SkipsPlain(head, q + (l.afterValue + tail));
    SkipsQuoted(text, l.quote, l.afterValue + tail);
    SkipsPlain(l.afterValue, tail);
    RemarkStarts(l.comment);
    assert line == (head + q + l.afterValue) + tail;
    assert l.indent + Core(name, text, l) + l.afterValue == head + q + l.afterValue;
  }

  lemma HeadHasNoMarks(name: string, l: Layout)
    requires NoMarks(name) && NoMarks(l.indent) && NoMarks(l.afterKey) && NoMarks(l.beforeValue)
    ensures NoMarks(l.indent + name + l.afterKey + ":" + l.beforeValue)
  {
  }

  lemma CoreIsSolid(name: string, text: string, l: Layout)
    requires IsName(name) && Showable(text, l.quote)
    ensures Solid(Core(name, text, l)) && Core(name, text, l)[0] == name[0]
  {
    hide Quoted, IsName, Showable;
    NameIsPlain(name);
    QuotedIsSolid(text, l.quote);
    var c, q := Core(name, text, l), Quoted(text, l.quote);
    assert c[|c| - 1] == q[|q| - 1];
  }

  lemma CoreSplits(name: string, text: string, l: Layout)
    requires IsName(name) && Showable(text, l.quote) && WellLaid(l)
    ensures var c := Core(name, text, l);
            && Colons(c) == 1 && ColonAt(c) == |name + l.afterKey|
            && Trim(c[..ColonAt(c)]) == name && Trim(c[ColonAt(c) + 1..]) == Quoted(text, l.quote)
  {
    hide Colons, ColonAt, Trim, Quoted, IsName, Showable;
    NameIsPlain(name);
    QuotedIsSolid(text, l.quote);
    BlanksHaveNoMarks(l.afterKey);
    BlanksHaveNoMarks(l.beforeValue);
    var a, b := name + l.afterKey, l.beforeValue + Quoted(text, l.quote);
    var c := Core(name, text, l);
    assert c == a + ":" + b;
    OneColon(a, b);
    ColonIsAfter(a, b);
    assert c[..|a|] == a && c[|a| + 1..] == b;
    TrimsTo("", name, l.afterKey);
    assert "" + name + l.afterKey == a;
    TrimsTo(l.beforeValue, Quoted(text, l.quote), "");
    assert l.beforeValue + Quoted(text, l.quote) + "" == b;
  }

  /** However a line is laid out, it assigns its text to the key of its name. */
  lemma LineIsRead(k: Key, name: string, text: string, l: Layout)
    requires IsName(name) && KeyFromText(name) == Some(k) && Showable(text, l.quote) && WellLaid(l)
    ensures ParseEntry(PrintLine(name, text, l)) == Ok(Assign(k, text))
  {
    hide CommentStart, Colons, ColonAt, Trim, Unquote, KeyFromText, PrintLine, Core, Showable, Quoted, IsKeyChar;
    var line, c := PrintLine(name, text, l), Core(name, text, l);
    CommentIsCut(name, text, l);
    CoreIsSolid(name, text, l);
    TrimsTo(l.indent, c, l.afterValue);
    CoreSplits(name, text, l);
    NameIsPlain(name);
    QuotedIsSolid(text, l.quote);
  }

  // -- only printed lines are read

  lemma {:induction false} CommentEnds(s: string, single: bool, double: bool)
    ensures var c := CommentStart(s, single, double); c == |s| || s[c] == '#'
  {
    if s != "" {
      CommentEnds(s[1..], if s[0] == '\'' && !double then !single else single,
                  if s[0] == '"' && !single then !double else double);
    }
  }

  lemma {:induction false} NoSignBefore(s: string)
    requires var c := CommentStart(s, false, false); Lacks(s[..c], '\'') && Lacks(s[..c], '"')
    ensures Lacks(s[..CommentStart(s, false, false)], '#')
  {
    var c := CommentStart(s, false, false);
    if c > 0 {
      assert s[..c][0] == s[0];
      assert s[..c][1..] == s[1..][..c - 1];
      assert s[0] != '\'' && s[0] != '"' && s[0] != '#';
      NoSignBefore(s[1..]);
      assert s[..c] == [s[0]] + s[1..][..c - 1];
    }
  }

  lemma {:induction false} SkippedAreBlanks(s: string) returns (a: string)
    ensures Blanks(a) && s == a + SkipBlanks(s) && (SkipBlanks(s) == "" || !IsBlank(SkipBlanks(s)[0]))
  {
    if s != "" && IsBlank(s[0]) {
      var rest := SkippedAreBlanks(s[1..]);
      a := [s[0]] + rest;
      assert s == [s[0]] + (rest + SkipBlanks(s[1..]));
      assert a + SkipBlanks(s) == [s[0]] + (rest + SkipBlanks(s[1..]));
      hide SkipBlanks;
    } else {
      a := "";
    }
  }

  lemma {:induction false} DroppedAreBlanks(s: string) returns (b: string)
    ensures var t := TrimRight(s);
            Blanks(b) && s == t + b && (t == "" || !IsBlank(t[|t| - 1])) && (s != "" && !IsBlank(s[0]) ==> t != "")
  {
    if s != "" && IsBlank(s[|s| - 1]) {
      var rest := DroppedAreBlanks(s[..|s| - 1]);
      b := rest + [s[|s| - 1]];
      assert s == (TrimRight(s[..|s| - 1]) + rest) + [s[|s| - 1]];
      assert TrimRight(s) + b == (TrimRight(s[..|s| - 1]) + rest) + [s[|s| - 1]];
    } else {
      b := "";
    }
  }

  lemma TrimmedAway(s: string) returns (a: string, b: string)
    requires Trim(s) != ""
    ensures Blanks(a) && Blanks(b) && Solid(Trim(s)) && s == a + Trim(s) + b
  {
    a := SkippedAreBlanks(s);
    b := DroppedAreBlanks(SkipBlanks(s));
    hide Blanks;
    var t := Trim(s);
    assert SkipBlanks(s) == t + b;
    assert t[0] == SkipBlanks(s)[0];
    assert a + (t + b) == a + t + b;
  }

  lemma {:induction false} NoColonIsLack(s: string)
    requires Colons(s) == 0
    ensures Lacks(s, ':')
  {
    if s != "" {
      NoColonIsLack(s[1..]);
      assert s == [s[0]] + s[1..];
    }
  }

  lemma {:induction false} CutAtColon(s: string)
    requires Colons(s) == 1
    ensures var i := ColonAt(s);
            s == s[..i] + ":" + s[i + 1..] && Lacks(s[..i], ':') && Lacks(s[i + 1..], ':')
  {
    if s[0] == ':' {
      NoColonIsLack(s[1..]);
    } else {
      CutAtColon(s[1..]);
      var i := ColonAt(s);
      assert s[1..][..i - 1] == s[..i][1..] && s[1..][i..] == s[i + 1..];
      assert s[..i] == [s[0]] + s[1..][..i - 1];
    }
  }

  lemma UnquotedFrom(raw: string) returns (q: Quote)
    requires Unquote(raw).Ok? && Solid(raw) && Lacks(raw, ':')
    ensures raw == Quoted(Unquote(raw).value, q) && (q != Bare || Lacks(raw, '#') ==> Showable(Unquote(raw).value, q))
    ensures q == Bare ==> Lacks(raw, '\'') && Lacks(raw, '"')
  {
    var text := Unquote(raw).value;
    if raw[0] == '\'' {
      q := Single;
      assert raw == "'" + text + "'";
    } else if raw[0] == '"' {
      q := Double;
      assert raw == "\"" + text + "\"";
    } else {
      q := Bare;
      assert raw == Quoted(text, q);
    }
  }

  lemma NoBlankEnds(x: string, m: string, v: string)
    requires Blanks(x) && Blanks(v) && Solid(x + m + v)
    ensures x == "" && v == ""
  {
  }

  /** The blanks around the colon belong to the layout. */
  lemma CoreFrom(work: string) returns (y: string, u: string)
    requires Solid(work) && Colons(work) == 1
    requires Trim(work[..ColonAt(work)]) != "" && Trim(work[ColonAt(work) + 1..]) != ""
    ensures var key, raw := Trim(work[..ColonAt(work)]), Trim(work[ColonAt(work) + 1..]);
            Blanks(y) && Blanks(u) && Solid(raw) && Lacks(raw, ':') && work == key + y + ":" + (u + raw)
  {
    hide Trim, Colons, ColonAt;
    CutAtColon(work);
    var a, b := work[..ColonAt(work)], work[ColonAt(work) + 1..];
    var x, y1 := TrimmedAway(a);
    var u1, v := TrimmedAway(b);
    y, u := y1, u1;
    var key, raw := Trim(a), Trim(b);
    NoBlankEnds(x, key + y + ":" + (u + raw), v);
    assert a == key + y && b == u + raw;
    forall i | 0 <= i < |raw| ensures raw[i] != ':' {
      assert b[|u| + i] == raw[i];
    }
  }

  lemma NoQuotesAround(indent: string, key: string, y: string, u: string, raw: string, after: string)
    requires Blanks(indent) && IsName(key) && Blanks(y) && Blanks(u) && Blanks(after)
    requires Lacks(raw, '\'') && Lacks(raw, '"')
    ensures var pre := indent + (key + y + ":" + (u + raw)) + after; Lacks(pre, '\'') && Lacks(pre, '"')
  {
  }

  lemma LackInside(a: string, raw: string, b: string, c: char)
    requires Lacks(a + raw + b, c)
    ensures Lacks(raw, c)
  {
    forall i | 0 <= i < |raw| ensures raw[i] != c {
      assert (a + raw + b)[|a| + i] == raw[i];
    }
  }

  /** What the parser has checked when it reads an assignment. */
  lemma ParsedParts(line: string, k: Key, text: string)
    requires ParseEntry(line) == Ok(Assign(k, text))
    ensures var work := Trim(line[..CommentStart(line, false, false)]);
            && work != "" && Colons(work) == 1
            && var key, raw := Trim(work[..ColonAt(work)]), Trim(work[ColonAt(work) + 1..]);
               IsName(key) && raw != "" && KeyFromText(key) == Some(k) && Unquote(raw) == Ok(text)
  {
    hide Trim, CommentStart, Colons, ColonAt, Unquote, KeyFromText, IsKeyChar;
  }

  /** Whatever assigns a text to a key is a line as printed, under one of the key's names. */
  lemma ReadLineIsPrinted(line: string, k: Key, text: string) returns (name: string, l: Layout)
    requires ParseEntry(line) == Ok(Assign(k, text))
    ensures Names(k, name) && Showable(text, l.quote) && WellLaid(l) && line == PrintLine(name, text, l)
  {
    hide CommentStart, Trim, Colons, ColonAt, Unquote, KeyFromText, IsName, ParseEntry, Names, Showable, Quoted,
         PrintLine, Blanks, Lacks, Solid;
    ParsedParts(line, k, text);
    var c := CommentStart(line, false, false);
    var pre := line[..c];
    var work := Trim(pre);
    name := Trim(work[..ColonAt(work)]);
    var raw := Trim(work[ColonAt(work) + 1..]);
    CommentEnds(line, false, false);
    OnlyNamesAreRead(name);
    var indent, after := TrimmedAway(pre);
    NameHasContent(name);
    var y, u := CoreFrom(work);
    var q := UnquotedFrom(raw);
    l := Layout(indent, y, u, q, after, if c == |line| then None else Some(line[c + 1..]));
    if q == Bare {
      NoQuotesAround(indent, name, y, u, raw, after);
      NoSignBefore(line);
      assert pre == (indent + (name + y + ":" + u)) + raw + after;
      LackInside(indent + (name + y + ":" + u), raw, after, '#');
    }
    PrintedIsLine(line, c, name, text, l);
  }

  lemma NameHasContent(name: string)
    requires IsName(name)
    ensures name != ""
  {
  }

  lemma PrintedIsLine(line: string, c: nat, name: string, text: string, l: Layout)
    requires c <= |line| && (c < |line| ==> line[c] == '#')
    requires l.comment == if c == |line| then None else Some(line[c + 1..])
    requires line[..c] == l.indent + (name + l.afterKey + ":" + (l.beforeValue + Quoted(text, l.quote))) + l.afterValue
    ensures line == PrintLine(name, text, l)
  {
    hide Quoted;
    assert Remark(l.comment) == line[c..];
    assert line == line[..c] + line[c..];
  }

  /** The line parser reads an assignment from exactly the lines that print it. */
  lemma LineReadsIffPrinted(line: string, k: Key, text: string)
    ensures ParseEntry(line) == Ok(Assign(k, text))
       <==> exists name, l: Layout :: Names(k, name) && Showable(text, l.quote) && WellLaid(l)
                              && line == PrintLine(name, text, l)
  {
    hide ParseEntry, Names, Showable, WellLaid, PrintLine;
    if ParseEntry(line) == Ok(Assign(k, text)) {
      var name, l := ReadLineIsPrinted(line, k, text);
    }
    if name, l: Layout :| Names(k, name) && Showable(text, l.quote) && WellLaid(l) && line == PrintLine(name, text, l) {
      NamesAreRead(k, name);
      LineIsRead(k, name, text, l);
    }
  }

  // -- what a text says

  /** The value that a text stands for in the field of a key. */
  function Meaning(k: Key, text: string): Option<Value> {
    if k.ListenHost? || k.TargetIp? then Some(Str(text))
    else if k.IpAuditPath? || k.AuditMacKeyPath? || k.EvidenceMacKeyPath? then Some(Str(text))
    else if k.EvidenceMode? && text == "real" then Some(Num(0))
    else if k.EvidenceMode? && text == "synthetic" then Some(Num(1))
    else if k.EvidenceMode? && text == "hybrid" then Some(Num(2))
    else if k.FaultInjectionMode? && text == "off" then Some(Num(0))
    else if k.FaultInjectionMode? && text == "single" then Some(Num(1))
    else if k.FaultInjectionMode? && text == "double" then Some(Num(2))
    else if k.FaultInjectionMode? && text == "full" then Some(Num(3))
    else if text != "" && AllDigits(text) then Some(Num(Digits.Value(text)))
    else None
  }

  predicate YesOrNo(k: Key) {
    k.HandshakeGateEnabled? || k.PayloadEccEnabled? || k.IpAuditEnabled? || k.AuditMacEnabled? || k.RequireReadiness?
    || k.EccEnabled? || k.NumaEnabled? || k.EvidenceMacEnabled?
  }

  /** Not one of the texts that a yes-or-no field misreads: numbers from 2^32 up. */
  predicate Unmistakable(k: Key, text: string) {
    YesOrNo(k) && AllDigits(text) ==> Digits.Value(text) < U32
  }

  lemma BoundsAreWide(k: Key)
    ensures NumberOf(k).U32Field? && NumberOf(k).max < 2 ==> YesOrNo(k)
    ensures NumberOf(k).max < U64
  {
  }

  lemma NumberAsMeant(k: Key, text: string)
    requires ReadNumber(k, text).Ok? && Unmistakable(k, text)
    ensures text != "" && AllDigits(text) && ReadNumber(k, text).value == Digits.Value(text)
  {
    hide NumberOf, DigitLoop, DigitLoop64, Digits.Value, YesOrNo;
    BoundsAreWide(k);
    match NumberOf(k)
    case U32Field(min, max) =>
      if max >= 2 {
        ExactFromTwo(text, min, max);
      } else {
        ExactBelowTwoTo32(text, min, max);
      }
    case U64Field(min, max) => Exact64(text, min, max);
  }

  /** Whatever the reader takes for a field, it takes for what it says. */
  lemma TakenAsMeant(o: Oracles, k: Key, text: string)
    requires ReadValue(o, k, text).Ok? && Unmistakable(k, text)
    ensures Meaning(k, text) == Some(ReadValue(o, k, text).value)
  {
    hide ReadNumber, Digits.Value, AllDigits;
    if ReadNumber(k, text).Ok? {
      NumberAsMeant(k, text);
    }
    hide Unmistakable;
  }

  /** Every number within a field's bounds can be printed and is taken. */
  lemma NumberIsTaken(o: Oracles, k: Key, n: nat)
    requires !IsText(k) && NumberOf(k).min <= n <= NumberOf(k).max
    requires k.PrefaceTimeoutMs? ==> n == 0 || n >= PREFACE_MIN
    ensures ReadValue(o, k, Decimal(n)) == Ok(Num(n)) && Showable(Decimal(n), Bare) && Unmistakable(k, Decimal(n))
  {
    hide NumberOf, ReadNumber, Digits.Value, Decimal, AllDigits, Word, Showable, YesOrNo;
    BoundsAreWide(k);
    ValueOfDecimal(n);
    DecimalWidths(n);
    NumberIsRead(k, n);
    NumeralIsShowable(Decimal(n));
    WordsAreNoNumbers(k, Decimal(n));
    BoundOfYesOrNo(k);
  }

  lemma BoundOfYesOrNo(k: Key)
    ensures YesOrNo(k) ==> NumberOf(k).max == 1
  {
  }

  lemma NumberIsRead(k: Key, n: nat)
    requires NumberOf(k).min <= n <= NumberOf(k).max
    ensures ReadNumber(k, Decimal(n)) == Ok(n)
  {
    hide NumberOf, DigitLoop, DigitLoop64, Digits.Value, Decimal;
    BoundsAreWide(k);
    ValueOfDecimal(n);
    DecimalWidths(n);
    match NumberOf(k)
    case U32Field(min, max) => ExactBelowTwoTo32(Decimal(n), min, max);
    case U64Field(min, max) => Exact64(Decimal(n), min, max);
  }

  lemma NumeralIsShowable(s: string)
    requires AllDigits(s) && 0 < |s| <= 20
    ensures Showable(s, Bare)
  {
    assert Quoted(s, Bare) == s;
  }

  lemma WordsAreNoNumbers(k: Key, s: string)
    requires AllDigits(s) && s != ""
    ensures Word(k, s).None?
  {
    assert IsDigit(s[0]);
  }

  /** The words of the two fields that take words. */
  lemma WordIsTaken(o: Oracles)
    ensures ReadValue(o, EvidenceMode, "real") == Ok(Num(0)) && ReadValue(o, EvidenceMode, "synthetic") == Ok(Num(1))
    ensures ReadValue(o, EvidenceMode, "hybrid") == Ok(Num(2))
    ensures ReadValue(o, FaultInjectionMode, "off") == Ok(Num(0))
    ensures ReadValue(o, FaultInjectionMode, "single") == Ok(Num(1))
    ensures ReadValue(o, FaultInjectionMode, "double") == Ok(Num(2))
    ensures ReadValue(o, FaultInjectionMode, "full") == Ok(Num(3))
  {
    hide ReadNumber;
  }

  /** What a field holds when the file does not mention it. */
  function Unsaid(k: Key): Value {
    match k
    case ListenHost | TargetIp | IpAuditPath | AuditMacKeyPath | EvidenceMacKeyPath => Str("")
    case SessionIdleTimeoutMs => Num(30000)
    case RateWindowMs => Num(1000)
    case FaultInjectionMode => Num(3)
    case _ => Num(0)
  }

  lemma DefaultsAreUnsaid(k: Key)
    ensures k in Defaults() && Defaults()[k] == Unsaid(k)
  {
  }

  // -- whole files

  /** One setting: a key, one of its names, a text, how the line is laid out and how it ends. */
  datatype Item = Item(key: Key, name: string, text: string, layout: Layout, cr: bool)

  function LineOf(i: Item): string {
    PrintLine(i.name, i.text, i.layout) + (if i.cr then "\r" else "")
  }

  function LinesFor(items: seq<Item>): (ls: seq<string>)
    ensures |ls| == |items| && forall i :: 0 <= i < |ls| ==> ls[i] == LineOf(items[i])
  {
    seq(|items|, i requires 0 <= i < |items| => LineOf(items[i]))
  }

  /** The setting can be printed in a line, and the reader takes its text for its key. */
  predicate Sayable(o: Oracles, i: Item) {
    && Names(i.key, i.name) && Showable(i.text, i.layout.quote) && WellLaid(i.layout)
    && AllAllowed(PrintLine(i.name, i.text, i.layout)) && |PrintLine(i.name, i.text, i.layout)| <= MAX_LINE_LEN
    && ReadValue(o, i.key, i.text).Ok? && Unmistakable(i.key, i.text)
  }

  predicate AllSayable(o: Oracles, items: seq<Item>) {
    forall i :: 0 <= i < |items| ==> Sayable(o, items[i])
  }

  predicate DistinctKeys(items: seq<Item>) {
    forall i, j :: 0 <= i < j < |items| ==> items[i].key != items[j].key
  }

  ghost predicate Mentions(items: seq<Item>, k: Key) {
    exists i :: 0 <= i < |items| && items[i].key == k
  }

  ghost function KeysOf(items: seq<Item>): set<Key> {
    set i | 0 <= i < |items| :: items[i].key
  }

  /** The configuration holds what the items say, and elsewhere what a file leaves unsaid. */
  ghost predicate Says(cfg: Config, items: seq<Item>) {
    && (forall k: Key :: k in cfg)
    && (forall i :: 0 <= i < |items| ==> Meaning(items[i].key, items[i].text) == Some(cfg[items[i].key]))
    && (forall k: Key :: !Mentions(items, k) ==> cfg[k] == Unsaid(k))
  }

  lemma ItemIsRead(o: Oracles, i: Item)
    requires Sayable(o, i)
    ensures ParseEntry(PrintLine(i.name, i.text, i.layout)) == Ok(Assign(i.key, i.text))
  {
    hide Names, IsName, ParseEntry, PrintLine, KeyFromText, Showable, ReadValue, WellLaid, Unmistakable, AllAllowed;
    NamesAreRead(i.key, i.name);
    LineIsRead(i.key, i.name, i.text, i.layout);
  }

  lemma BodyOfLine(o: Oracles, i: Item)
    requires Sayable(o, i)
    ensures Body(LineOf(i)) == PrintLine(i.name, i.text, i.layout) && PlainLine(LineOf(i)) && NoBreak(LineOf(i))
    ensures |LineOf(i)| + 1 <= MAX_LINE_LEN + 2
  {
    hide Names, Showable, ReadValue, WellLaid, Unmistakable, PrintLine;
    var p := PrintLine(i.name, i.text, i.layout);
    assert LineOf(i)[..|p|] == p;
    if p != "" {
      assert IsAllowed(p[|p| - 1]);
    }
  }

  lemma CommitItem(o: Oracles, before: Settings, i: Item)
    requires Sayable(o, i) && i.key !in before.present
    ensures Meaning(i.key, i.text).Some?
    ensures Commit(o, before, PrintLine(i.name, i.text, i.layout))
         == Ok(Settings(before.cfg[i.key := Meaning(i.key, i.text).value], before.present + {i.key}))
  {
    hide ParseEntry, PrintLine, ReadValue, Meaning, Names, Showable, WellLaid, Unmistakable;
    ItemIsRead(o, i);
    TakenAsMeant(o, i.key, i.text);
  }

  lemma SaysMore(cfg: Config, items: seq<Item>, i: Item)
    requires Says(cfg, items) && !Mentions(items, i.key) && Meaning(i.key, i.text).Some?
    ensures Says(cfg[i.key := Meaning(i.key, i.text).value], items + [i])
    ensures KeysOf(items + [i]) == KeysOf(items) + {i.key}
  {
    hide Meaning, Unsaid;
    var more := items + [i];
    var after := cfg[i.key := Meaning(i.key, i.text).value];
    assert more[|items|] == i;
    forall j | 0 <= j < |more| ensures Meaning(more[j].key, more[j].text) == Some(after[more[j].key]) {
      if j < |items| {
        assert more[j] == items[j] && Mentions(items, items[j].key);
      }
    }
    forall k: Key ensures Mentions(more, k) <==> Mentions(items, k) || k == i.key {
      MentionsOneMore(items, i, k);
    }
    assert forall k :: k in KeysOf(more) <==> Mentions(more, k);
    assert forall k :: k in KeysOf(items) <==> Mentions(items, k);
  }

  lemma MentionsOneMore(items: seq<Item>, i: Item, k: Key)
    ensures Mentions(items + [i], k) <==> Mentions(items, k) || k == i.key
  {
    var more := items + [i];
    assert more[|items|] == i;
    if Mentions(items, k) {
      var j :| 0 <= j < |items| && items[j].key == k;
      assert more[j].key == k;
    }
  }

  lemma {:induction false} CommitItems(o: Oracles, items: seq<Item>)
    requires AllSayable(o, items) && DistinctKeys(items)
    ensures var r := CommitAll(o, Fresh(), Bodies(LinesFor(items)));
            r.Ok? && Says(r.value.cfg, items) && r.value.present == KeysOf(items)
  {
    hide Commit, Says, LineOf, Sayable, Body, Meaning, Defaults, PrintLine;
    if items == [] {
      assert Bodies(LinesFor(items)) == [];
      NothingSaid();
    } else {
      var n := |items| - 1;
      var before, i := items[..n], items[n];
      CommitItems(o, before);
      var r := CommitAll(o, Fresh(), Bodies(LinesFor(before))).value;
      assert Sayable(o, i);
      NewKey(items);
      BodyOfLine(o, i);
      assert Bodies(LinesFor(items))[..n] == Bodies(LinesFor(before));
      assert Bodies(LinesFor(items))[n] == Body(LineOf(i));
      CommitItem(o, r, i);
      SaysMore(r.cfg, before, i);
      assert before + [i] == items;
    }
  }

  lemma NothingSaid()
    ensures Says(Fresh().cfg, []) && Fresh().present == KeysOf([])
  {
    hide Unsaid, Defaults;
    forall k: Key ensures k in Fresh().cfg && Fresh().cfg[k] == Unsaid(k) {
      DefaultsAreUnsaid(k);
    }
  }

  lemma NewKey(items: seq<Item>)
    requires items != [] && DistinctKeys(items)
    ensures !Mentions(items[..|items| - 1], items[|items| - 1].key)
    ensures items[|items| - 1].key !in KeysOf(items[..|items| - 1]) && DistinctKeys(items[..|items| - 1])
  {
  }

  // -- limits

  lemma PlacesDiffer(k: Key, l: Key)
    requires PlaceOf(k) == PlaceOf(l)
    ensures k == l
  {
    hide PlaceOf, RowAt, NameOf;
    NameIsInTable(k);
    NameIsInTable(l);
  }

  lemma {:induction false} FewBelow(s: set<nat>, n: nat)
    requires forall x :: x in s ==> x < n
    ensures |s| <= n
  {
    if n > 0 {
      FewBelow(s - {n - 1}, n - 1);
    } else {
      assert s == {};
    }
  }

  lemma {:induction false} PlacesCount(items: seq<Item>)
    requires DistinctKeys(items)
    ensures |set i | 0 <= i < |items| :: PlaceOf(items[i].key)| == |items|
  {
    hide PlaceOf;
    var places := set i | 0 <= i < |items| :: PlaceOf(items[i].key);
    if items == [] {
      assert places == {};
    } else {
      var n := |items| - 1;
      var before := items[..n];
      PlacesCount(before);
      var fewer := set i | 0 <= i < n :: PlaceOf(before[i].key);
      assert places == fewer + {PlaceOf(items[n].key)};
      if PlaceOf(items[n].key) in fewer {
        var i :| 0 <= i < n && PlaceOf(before[i].key) == PlaceOf(items[n].key);
        PlacesDiffer(before[i].key, items[n].key);
      }
    }
  }

  lemma NotTooMany(items: seq<Item>)
    requires DistinctKeys(items)
    ensures |items| <= KEY_NAMES
  {
    hide PlaceOf;
    PlacesCount(items);
    FewBelow(set i | 0 <= i < |items| :: PlaceOf(items[i].key), KEY_NAMES);
  }

  lemma {:induction false} NotTooLong(o: Oracles, items: seq<Item>)
    requires AllSayable(o, items)
    ensures |Unlines(LinesFor(items))| <= |items| * (MAX_LINE_LEN + 2)
  {
    hide LineOf, Sayable;
    if items != [] {
      var n := |items| - 1;
      NotTooLong(o, items[..n]);
      assert Sayable(o, items[n]);
      BodyOfLine(o, items[n]);
      assert LinesFor(items)[..n] == LinesFor(items[..n]);
      assert |Unlines(LinesFor(items))| == |Unlines(LinesFor(items[..n]))| + |LineOf(items[n])| + 1;
    }
  }

  lemma LinesArePlain(o: Oracles, items: seq<Item>)
    requires AllSayable(o, items)
    ensures NoBreaks(LinesFor(items)) && AllPlain(LinesFor(items))
  {
    hide LineOf, Sayable, PlainLine, NoBreak;
    forall i | 0 <= i < |items| ensures NoBreak(LinesFor(items)[i]) && PlainLine(LinesFor(items)[i]) {
      assert Sayable(o, items[i]);
      BodyOfLine(o, items[i]);
    }
  }

  lemma FileOfItemsStands(o: Oracles, items: seq<Item>)
    requires AllSayable(o, items) && DistinctKeys(items)
    ensures NoBreaks(LinesFor(items)) && FileStands(o, LinesFor(items))
  {
    hide CommitAll, AllPlain, NoBreaks, Says, Unlines, AllSayable, DistinctKeys;
    CommitItems(o, items);
    LinesArePlain(o, items);
    NotTooMany(items);
    NotTooLong(o, items);
    assert |items| * (MAX_LINE_LEN + 2) <= MAX_FILE_BYTES;
  }

  // -- the round trip

  lemma FinishAtEnd(o: Oracles, r: Reader, enforce: bool)
    requires AtLineStart(r)
    ensures Finish(o, Reading(r), enforce) == Conclude(o, r, enforce)
  {
    hide Conclude, CommitReader;
  }

  /**
   A file printed from settings, one line each, in any order and layout, is read to its end,
   and the configuration it gives holds for every key exactly what its line says, and the
   default for every key without one; the load fails only for a missing required key or
   because that configuration does not pass validation.
   */
  lemma PrintedFileLoads(o: Oracles, items: seq<Item>, enforce: bool)
    requires AllSayable(o, items) && DistinctKeys(items)
    ensures exists cfg ::
              && Says(cfg, items)
              && Load(o, Unlines(LinesFor(items)), enforce)
              == if items == [] || !(RequiredKeys() <= KeysOf(items)) then Refused(Required, 0)
                 else match ValidateFile(o, cfg, enforce)
                      case Some(status) => Refused(status, 0)
                      case None => Loaded(cfg)
  {
    hide FeedAll, FileStands, NoBreaks, AllSayable, DistinctKeys, Says, CommitAll, Unlines, ValidateFile, RequiredKeys,
         KeysOf, CommitReader, LineOf, Defaults, Body, Bodies, LinesFor;
    FileOfItemsStands(o, items);
    FeedLines(o, LinesFor(items));
    CommitItems(o, items);
    var r := AtEnd(o, LinesFor(items));
    FinishAtEnd(o, r, enforce);
    SomeBytes(items);
    assert Says(r.settings.cfg, items);
  }

  lemma SomeBytes(items: seq<Item>)
    ensures |Unlines(LinesFor(items))| == 0 <==> items == []
  {
    hide LineOf;
  }
}
