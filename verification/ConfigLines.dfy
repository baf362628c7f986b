/** A configuration does not depend on the order of its lines, and what loads is valid. */
module ConfigLines {
  import opened Bytes
  import opened Tokens
  import opened ConfigNumbers
  import opened ConfigModel
  import opened ConfigFile

  // -- committing lines, in any order

  function CommitAll(o: Oracles, s: Settings, ls: seq<string>): Result<Settings> {
    if ls == [] then Ok(s)
    else
      var before :- CommitAll(o, s, ls[..|ls| - 1]);
      Commit(o, before, ls[|ls| - 1])
  }

  lemma {:induction false} CommitConcat(o: Oracles, s: Settings, a: seq<string>, b: seq<string>)
    ensures CommitAll(o, s, a + b)
         == match CommitAll(o, s, a) case Ok(mid) => CommitAll(o, mid, b) case Err(e) => Err(e)
  {
    hide Commit;
    if b == [] {
      assert a + b == a;
    } else {
      assert (a + b)[..|a + b| - 1] == a + b[..|b| - 1];
      CommitConcat(o, s, a, b[..|b| - 1]);
    }
  }

  /** Two lines that both stand may be exchanged. */
  lemma CommitsCommute(o: Oracles, s: Settings, x: string, y: string)
    requires Commit(o, s, x).Ok? && Commit(o, Commit(o, s, x).value, y).Ok?
    ensures Commit(o, s, y).Ok?
    ensures Commit(o, Commit(o, s, y).value, x) == Commit(o, Commit(o, s, x).value, y)
  {
    hide ParseEntry, ReadValue;
    var both := Commit(o, Commit(o, s, x).value, y).value;
    var other := Commit(o, Commit(o, s, y).value, x);
    if ParseEntry(x).value.Assign? && ParseEntry(y).value.Assign? {
      assert other.value.present == both.present;
      assert other.value.cfg == both.cfg;
    }
  }

  lemma {:induction false} MoveToEnd(o: Oracles, s: Settings, x: string, b: seq<string>)
    requires CommitAll(o, s, [x] + b).Ok?
    ensures CommitAll(o, s, b + [x]) == CommitAll(o, s, [x] + b)
  {
    hide Commit;
    if b == [] {
      assert [x] + b == b + [x];
    } else {
      var n := |b| - 1;
      var c, y := b[..n], b[n];
      assert b == c + [y];
      assert ([x] + b)[..|[x] + b| - 1] == [x] + c;
      MoveToEnd(o, s, x, c);
      var mid := CommitAll(o, s, c + [x]).value;
      assert (c + [x])[..n] == c;
      var low := CommitAll(o, s, c).value;
      CommitsCommute(o, low, x, y);
      assert (b + [x])[..|b|] == b;
    }
  }

  lemma MoveOut(o: Oracles, s: Settings, a: seq<string>, x: string, b: seq<string>)
    requires CommitAll(o, s, a + ([x] + b)).Ok?
    ensures CommitAll(o, s, (a + b) + [x]) == CommitAll(o, s, a + ([x] + b))
  {
    hide CommitAll;
    CommitConcat(o, s, a, [x] + b);
    MoveToEnd(o, CommitAll(o, s, a).value, x, b);
    CommitConcat(o, s, a, b + [x]);
    assert a + (b + [x]) == (a + b) + [x];
  }

  lemma Without<A>(s: seq<A>, j: nat)
    requires j < |s|
    ensures multiset(s) == multiset(s[..j] + s[j + 1..]) + multiset{s[j]}
  {
    assert s == s[..j] + [s[j]] + s[j + 1..];
  }

  lemma Cancel<A>(m: multiset<A>, n: multiset<A>, x: A)
    requires m + multiset{x} == n + multiset{x}
    ensures m == n
  {
    assert m == (m + multiset{x}) - multiset{x};
    assert n == (n + multiset{x}) - multiset{x};
  }

  lemma TakeOut<A>(ls: seq<A>, ms: seq<A>) returns (a: seq<A>, b: seq<A>)
    requires multiset(ls) == multiset(ms) && ms != []
    ensures ls == a + ([ms[|ms| - 1]] + b) && multiset(a + b) == multiset(ms[..|ms| - 1])
  {
    var n := |ms| - 1;
    var x := ms[n];
    assert x in multiset(ms);
    var j :| 0 <= j < |ls| && ls[j] == x;
    a, b := ls[..j], ls[j + 1..];
    assert ls == a + ([x] + b);
    Without(ls, j);
    Without(ms, n);
    assert ms[..n] + ms[n + 1..] == ms[..n];
    Cancel(multiset(a + b), multiset(ms[..n]), x);
  }

  lemma {:induction false} AnyOrder(o: Oracles, s: Settings, ls: seq<string>, ms: seq<string>)
    requires multiset(ls) == multiset(ms) && CommitAll(o, s, ls).Ok?
    ensures CommitAll(o, s, ms) == CommitAll(o, s, ls)
    decreases |ms|
  {
    hide Commit;
    if ms == [] {
      assert |multiset(ls)| == |ls| && |multiset(ms)| == 0;
    } else {
      var a, b := TakeOut(ls, ms);
      var n := |ms| - 1;
      MoveOut(o, s, a, ms[n], b);
      assert ((a + b) + [ms[n]])[..|a + b|] == a + b;
      AnyOrder(o, s, a + b, ms[..n]);
    }
  }

  // -- the reader, line by line

  /** A line without its newline; a carriage return before that does not count. */
  function Body(l: string): string {
    if l != "" && l[|l| - 1] == '\r' then l[..|l| - 1] else l
  }

  predicate PlainLine(l: string) {
    |Body(l)| <= MAX_LINE_LEN && AllAllowed(Body(l))
  }

  predicate AllAllowed(s: string) {
    forall i :: 0 <= i < |s| ==> IsAllowed(s[i])
  }

  predicate NoReturn(s: string) {
    forall i :: 0 <= i < |s| ==> s[i] != '\r'
  }

  predicate Fits(r: Reader, s: string) {
    s == "" || (AllAllowed(s) && r.total + |s| <= MAX_FILE_BYTES && |r.line| + |s| <= MAX_LINE_LEN)
  }

  function Grown(r: Reader, s: string): Reader {
    r.(line := r.line + s, total := r.total + |s|)
  }

  lemma {:induction false} FeedPlain(o: Oracles, r: Reader, s: string)
    requires !r.pendingCr && NoBreak(s) && NoReturn(s)
    ensures if Fits(r, s) then FeedAll(o, Reading(r), s) == Reading(Grown(r, s)) else FeedAll(o, Reading(r), s).Failed?
  {
    hide CommitReader, IsAllowed;
    if s == "" {
      assert r.line + s == r.line;
    } else {
      var n := |s| - 1;
      FeedPlain(o, r, s[..n]);
      assert s == s[..n] + [s[n]];
      assert r.line + s == (r.line + s[..n]) + [s[n]];
    }
  }

  /** A carriage return that no newline follows at once is fatal. */
  lemma StrayReturn(o: Oracles, r: Reader, a: string, rest: string)
    requires !r.pendingCr && FeedAll(o, Reading(r), a) == Reading(Grown(r, a))
    requires rest != "" && rest[0] != '\n'
    ensures FeedAll(o, Reading(r), a + "\r" + rest).Failed?
  {
    hide CommitReader;
    var mid := FeedAll(o, Reading(r), a);
    FeedConcat(o, Reading(r), a, "\r" + rest);
    assert a + ("\r" + rest) == a + "\r" + rest;
    FeedConcat(o, mid, "\r", rest);
    FeedOne(o, mid, '\r');
    var cr := FeedAll(o, mid, "\r");
    FeedConcat(o, cr, [rest[0]], rest[1..]);
    assert [rest[0]] + rest[1..] == rest;
    FeedOne(o, cr, rest[0]);
    FailedStays(o, FeedAll(o, cr, [rest[0]]), rest[1..]);
    hide FeedAll;
  }

  lemma FeedOne(o: Oracles, p: Progress, c: char)
    ensures FeedAll(o, p, [c]) == Feed(o, p, c)
  {
    hide Feed;
    assert [c][..0] == "";
    assert FeedAll(o, p, "") == p;
  }

  /** What one whole line does to a reader that stands at a line's beginning. */
  function AfterLine(o: Oracles, r: Reader, l: string): Option<Reader> {
    if !PlainLine(l) || r.total + |l| + 1 > MAX_FILE_BYTES || r.lineNo > MAX_LINES then None
    else
      match Commit(o, r.settings, Body(l))
      case Ok(s) => Some(Reader("", r.lineNo + 1, r.total + |l| + 1, false, s))
      case Err(_) => None
  }

  predicate AtLineStart(r: Reader) {
    r.line == "" && !r.pendingCr
  }

  lemma {:induction false} FirstReturn(s: string) returns (i: nat)
    ensures i <= |s| && (i < |s| ==> s[i] == '\r') && forall k :: 0 <= k < i ==> s[k] != '\r'
  {
    if s == "" || s[0] == '\r' {
      i := 0;
    } else {
      var j := FirstReturn(s[1..]);
      i := j + 1;
      forall k | 0 <= k < i ensures s[k] != '\r' {
        if k > 0 {
          assert s[1..][k - 1] == s[k];
        }
      }
    }
  }

  lemma CutAtReturn(l: string, i: nat)
    requires NoBreak(l) && i + 1 < |l| && l[i] == '\r'
    ensures var a, rest := l[..i], l[i + 1..] + "\n";
            NoBreak(a) && rest[0] == l[i + 1] != '\n' && l + "\n" == a + "\r" + rest
  {
    assert l == l[..i] + "\r" + l[i + 1..];
  }

  /** A line with a carriage return inside never stands. */
  lemma InnerReturn(o: Oracles, r: Reader, l: string, i: nat)
    requires AtLineStart(r) && NoBreak(l) && i + 1 < |l| && l[i] == '\r' && NoReturn(l[..i])
    ensures FeedAll(o, Reading(r), l + "\n").Failed?
  {
    hide FeedAll, NoBreak, NoReturn, Fits, Grown;
    var a, rest := l[..i], l[i + 1..] + "\n";
    CutAtReturn(l, i);
    FeedPlain(o, r, a);
    if FeedAll(o, Reading(r), a).Failed? {
      FeedConcat(o, Reading(r), a, "\r" + rest);
      assert a + ("\r" + rest) == a + "\r" + rest;
      FailedStays(o, FeedAll(o, Reading(r), a), "\r" + rest);
    } else {
      StrayReturn(o, r, a, rest);
    }
  }

  lemma InnerReturnIsNotPlain(l: string, i: nat)
    requires i + 1 < |l| && l[i] == '\r'
    ensures !PlainLine(l)
  {
    assert Body(l)[i] == '\r' && !IsAllowed('\r');
  }

  /** The bytes after a line's body: a newline, perhaps behind a carriage return. */
  lemma EndOfLine(o: Oracles, q: Reader, cr: bool)
    requires !q.pendingCr
    ensures var tail := if cr then "\r\n" else "\n";
            var p := FeedAll(o, Reading(q), tail);
            if q.total + |tail| > MAX_FILE_BYTES then p.Failed?
            else p == CommitReader(o, q.(total := q.total + |tail|, pendingCr := cr))
  {
    if cr {
      assert "\r" + "\n" == "\r\n";
      FeedConcat(o, Reading(q), "\r", "\n");
      FeedOne(o, Reading(q), '\r');
      FeedOne(o, FeedAll(o, Reading(q), "\r"), '\n');
    } else {
      FeedOne(o, Reading(q), '\n');
    }
    hide FeedAll, CommitReader;
  }

  lemma CommitMatches(o: Oracles, r: Reader, l: string, cr: bool)
    requires AtLineStart(r) && PlainLine(l) && r.total + |l| + 1 <= MAX_FILE_BYTES
    ensures var p := CommitReader(o, r.(line := Body(l), total := r.total + |l| + 1, pendingCr := cr));
            match AfterLine(o, r, l) case Some(after) => p == Reading(after) case None => p.Failed?
  {
    hide Commit, PlainLine;
  }

  lemma BodyAndTail(l: string)
    ensures var body := Body(l);
            var tail := if body != l then "\r\n" else "\n";
            l + "\n" == body + tail && |body| + |tail| == |l| + 1 && (NoBreak(l) ==> NoBreak(body))
  {
    var body := Body(l);
    if body != l {
      assert l == body + "\r";
      assert body + "\r" + "\n" == body + "\r\n";
    }
  }

  lemma PlainFeed(o: Oracles, r: Reader, l: string)
    requires AtLineStart(r) && NoBreak(l) && NoReturn(Body(l))
    ensures var p := FeedAll(o, Reading(r), l + "\n");
            match AfterLine(o, r, l) case Some(after) => p == Reading(after) case None => p.Failed?
  {
    hide FeedAll, Commit, NoBreak, NoReturn, Body, AllAllowed, CommitReader;
    var body := Body(l);
    var cr := body != l;
    var tail := if cr then "\r\n" else "\n";
    BodyAndTail(l);
    FeedConcat(o, Reading(r), body, tail);
    FeedPlain(o, r, body);
    assert "" + body == body;
    var p := FeedAll(o, Reading(r), body);
    if p.Failed? {
      FailedStays(o, p, tail);
    } else {
      EndOfLine(o, p.r, cr);
      if r.total + |l| + 1 <= MAX_FILE_BYTES {
        assert PlainLine(l) by {
          EmptyIsAllowed();
        }
        CommitMatches(o, r, l, cr);
      }
    }
  }

  lemma EmptyIsAllowed()
    ensures AllAllowed("")
  {
  }

  lemma FeedLine(o: Oracles, r: Reader, l: string)
    requires AtLineStart(r) && NoBreak(l)
    ensures var p := FeedAll(o, Reading(r), l + "\n");
            match AfterLine(o, r, l) case Some(after) => p == Reading(after) case None => p.Failed?
  {
    var i := FirstReturn(l);
    hide FeedAll;
    if i + 1 < |l| {
      InnerReturnIsNotPlain(l, i);
      hide PlainLine;
      InnerReturn(o, r, l, i);
    } else {
      PlainFeed(o, r, l);
    }
  }

  // -- whole files

  function Bodies(ls: seq<string>): (bs: seq<string>)
    ensures |bs| == |ls| && forall i :: 0 <= i < |ls| ==> bs[i] == Body(ls[i])
  {
    seq(|ls|, i requires 0 <= i < |ls| => Body(ls[i]))
  }

  predicate NoBreaks(ls: seq<string>) {
    forall i :: 0 <= i < |ls| ==> NoBreak(ls[i])
  }

  predicate AllPlain(ls: seq<string>) {
    forall i :: 0 <= i < |ls| ==> PlainLine(ls[i])
  }

  /** Each line stands on its own terms, and the file on its limits. */
  predicate FileStands(o: Oracles, ls: seq<string>) {
    && AllPlain(ls) && |ls| <= MAX_LINES && |Unlines(ls)| <= MAX_FILE_BYTES
    && CommitAll(o, Fresh(), Bodies(ls)).Ok?
  }

  function AtEnd(o: Oracles, ls: seq<string>): Reader
    requires FileStands(o, ls)
  {
    Reader("", |ls| + 1, |Unlines(ls)|, false, CommitAll(o, Fresh(), Bodies(ls)).value)
  }

  lemma StandsStep(o: Oracles, ls: seq<string>)
    requires ls != []
    ensures var n := |ls| - 1;
            && (!FileStands(o, ls[..n]) ==> !FileStands(o, ls))
            && (FileStands(o, ls[..n]) ==>
                  match AfterLine(o, AtEnd(o, ls[..n]), ls[n])
                  case Some(after) => FileStands(o, ls) && AtEnd(o, ls) == after
                  case None => !FileStands(o, ls))
  {
    hide Commit, PlainLine, Body, Defaults;
    var n := |ls| - 1;
    assert Bodies(ls)[..n] == Bodies(ls[..n]);
    assert |Unlines(ls)| == |Unlines(ls[..n])| + |ls[n]| + 1;
    assert AllPlain(ls) <==> AllPlain(ls[..n]) && PlainLine(ls[n]) by {
      assert ls == ls[..n] + [ls[n]];
    }
  }

  /** A file of whole lines is read to the end exactly when it stands. */
  lemma {:induction false} FeedLines(o: Oracles, ls: seq<string>)
    requires NoBreaks(ls)
    ensures var p := FeedAll(o, Begin(), Unlines(ls));
            if FileStands(o, ls) then p == Reading(AtEnd(o, ls)) else p.Failed?
  {
    if ls == [] {
      assert Bodies(ls) == [];
      FeedNothing(o, Begin());
    } else {
      hide FeedAll, FileStands, AfterLine;
      var n := |ls| - 1;
      var front, l := ls[..n], ls[n];
      FeedLines(o, front);
      StandsStep(o, ls);
      FeedConcat(o, Begin(), Unlines(front), l + "\n");
      assert Unlines(ls) == Unlines(front) + (l + "\n");
      var p := FeedAll(o, Begin(), Unlines(front));
      if p.Failed? {
        FailedStays(o, p, l + "\n");
      } else {
        FeedLine(o, p.r, l);
      }
    }
  }

  // -- the order of lines

  lemma {:induction false} UnlinesLengthMoves(a: seq<string>, x: string, b: seq<string>)
    ensures |Unlines(a + ([x] + b))| == |Unlines((a + b) + [x])|
  {
    if b == [] {
      assert a + ([x] + b) == (a + b) + [x];
    } else {
      var n := |b| - 1;
      var whole := a + ([x] + b);
      assert whole[..|whole| - 1] == a + ([x] + b[..n]);
      UnlinesLengthMoves(a, x, b[..n]);
      assert ((a + b) + [x])[..|a + b|] == a + b;
      assert (a + b)[..|a + b| - 1] == a + b[..n];
      assert ((a + b[..n]) + [x])[..|a + b[..n]|] == a + b[..n];
    }
  }

  lemma {:induction false} SameLength(ls: seq<string>, ms: seq<string>)
    requires multiset(ls) == multiset(ms)
    ensures |ls| == |ms| && |Unlines(ls)| == |Unlines(ms)|
    decreases |ms|
  {
    assert |multiset(ls)| == |ls| && |multiset(ms)| == |ms|;
    if ms != [] {
      var n := |ms| - 1;
      var a, b := TakeOut(ls, ms);
      UnlinesLengthMoves(a, ms[n], b);
      assert ((a + b) + [ms[n]])[..|a + b|] == a + b;
      SameLength(a + b, ms[..n]);
    }
  }

  lemma {:induction false} SameBodies(ls: seq<string>, ms: seq<string>)
    requires multiset(ls) == multiset(ms)
    ensures multiset(Bodies(ls)) == multiset(Bodies(ms))
    decreases |ms|
  {
    hide Body;
    if ms == [] {
      assert |multiset(ls)| == |ls| && |multiset(ms)| == |ms|;
    } else {
      var n := |ms| - 1;
      var a, b := TakeOut(ls, ms);
      SameBodies(a + b, ms[..n]);
      var j := |a|;
      Without(Bodies(ls), j);
      Without(Bodies(ms), n);
      assert Bodies(ls)[..j] + Bodies(ls)[j + 1..] == Bodies(a + b);
      assert Bodies(ms)[..n] + Bodies(ms)[n + 1..] == Bodies(ms[..n]);
    }
  }

  lemma AllPlainMoves(ls: seq<string>, ms: seq<string>)
    requires multiset(ls) == multiset(ms) && AllPlain(ls)
    ensures AllPlain(ms)
  {
    forall i | 0 <= i < |ms| ensures PlainLine(ms[i]) {
      assert ms[i] in multiset(ms);
      assert ms[i] in ls;
    }
  }

  lemma StandsInAnyOrder(o: Oracles, ls: seq<string>, ms: seq<string>)
    requires multiset(ls) == multiset(ms) && FileStands(o, ls)
    ensures FileStands(o, ms) && AtEnd(o, ms) == AtEnd(o, ls)
  {
    hide CommitAll, PlainLine, Bodies, Unlines, AllPlain, Defaults;
    SameLength(ls, ms);
    SameBodies(ls, ms);
    AllPlainMoves(ls, ms);
    AnyOrder(o, Fresh(), Bodies(ls), Bodies(ms));
  }

  /**
   Any permutation of the newline-terminated lines of a file that loads, loads, and to an
   equal configuration.
   */
  lemma LineOrderDoesNotMatter(o: Oracles, ls: seq<string>, ms: seq<string>, enforce: bool)
    requires NoBreaks(ls) && NoBreaks(ms) && multiset(ls) == multiset(ms) && Load(o, Unlines(ls), enforce).Loaded?
    ensures Load(o, Unlines(ms), enforce) == Load(o, Unlines(ls), enforce)
  {
    hide FeedAll, Unlines, FileStands, Conclude, NoBreaks, CommitReader;
    FeedLines(o, ls);
    FeedLines(o, ms);
    StandsInAnyOrder(o, ls, ms);
  }

  // -- what loads is valid

  ghost predicate Honest(o: Oracles, s: Settings) {
    FromText(o, s.cfg)
  }

  lemma CommitIsHonest(o: Oracles, s: Settings, line: string)
    requires Honest(o, s) && Commit(o, s, line).Ok?
    ensures Honest(o, Commit(o, s, line).value)
  {
    hide ParseEntry, ReadValue;
    var e := ParseEntry(line).value;
    if e.Assign? {
      assert CameFrom(o, e.key, ReadValue(o, e.key, e.text).value);
      hide CameFrom;
    }
  }

  lemma FreshIsHonest(o: Oracles)
    ensures Honest(o, Fresh())
  {
    forall k: Key ensures CameFrom(o, k, Defaults()[k]) {
      hide ReadValue;
    }
    hide CameFrom;
  }

  lemma {:induction false} FeedIsHonest(o: Oracles, text: string)
    ensures var p := FeedAll(o, Begin(), text); p.Reading? ==> Honest(o, p.r.settings)
  {
    hide Honest, Commit;
    if text == "" {
      FreshIsHonest(o);
      FeedNothing(o, Begin());
    } else {
      FeedIsHonest(o, text[..|text| - 1]);
      var p := FeedAll(o, Begin(), text[..|text| - 1]);
      if p.Reading? && Commit(o, p.r.settings, p.r.line).Ok? {
        CommitIsHonest(o, p.r.settings, p.r.line);
      }
    }
  }

  lemma CommitReaderIsHonest(o: Oracles, r: Reader)
    requires Honest(o, r.settings) && CommitReader(o, r).Reading?
    ensures Honest(o, CommitReader(o, r).r.settings)
  {
    hide Honest, Commit;
    CommitIsHonest(o, r.settings, r.line);
  }

  /** Every file that loads with its fingerprint check on passes the runtime's own validator. */
  lemma LoadedIsRuntimeValid(o: Oracles, text: string)
    requires Load(o, text, true).Loaded?
    ensures RuntimeValid(o, Load(o, text, true).cfg)
  {
    hide FeedAll, Honest, CommitReader, RuntimeValid, ValidateFile, Begin;
    FeedIsHonest(o, text);
    var p := FeedAll(o, Begin(), text);
    var after := if p.Reading? && p.r.pendingCr then CommitReader(o, p.r) else p;
    if p.Reading? && p.r.pendingCr && after.Reading? {
      CommitReaderIsHonest(o, p.r);
    }
    var last := if after.Reading? && after.r.line != "" then CommitReader(o, after.r) else after;
    if after.Reading? && after.r.line != "" && last.Reading? {
      CommitReaderIsHonest(o, after.r);
    }
    HonestIsFromText(o, last.r.settings);
    ReaderImpliesRuntime(o, last.r.settings.cfg);
  }

  lemma HonestIsFromText(o: Oracles, s: Settings)
    requires Honest(o, s)
    ensures FromText(o, s.cfg)
  {
  }
}
