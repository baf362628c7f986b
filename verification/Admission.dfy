/**
 Per-address admission: a fixed table of fixed-window rate buckets, reclaimed lazily,
 against the unbounded map from address to window that it stands for.
 */
module Admission {
  import opened Bytes

  const BUCKET_COUNT: nat := 256

  /** A NUL-terminated address in a sixteen-byte field. */
  type Address = s: string | |s| < 16

  datatype Bucket = Free | Live(ip: Address, start: nat, count: nat)

  /** `limit` admissions a window of `window` nanoseconds; zero switches the limit off. */
  datatype Policy = Policy(limit: nat, window: nat)

  predicate Expired(b: Bucket, now: nat, window: nat)
    requires b.Live?
  {
    now >= b.start && now - b.start >= window
  }

  // -- the table

  datatype Search = Search(table: seq<Bucket>, found: Option<nat>, free: Option<nat>)

  /** The scan from bucket `i` on: the first expired stranger is reset and remembered. */
  function Find(table: seq<Bucket>, ip: Address, now: nat, window: nat, i: nat, free: Option<nat>): (s: Search)
    requires i <= |table| && (free.Some? ==> free.value < |table|)
    ensures |s.table| == |table|
    ensures s.found.Some? ==> s.found.value < |table| && s.table[s.found.value].Live?
    ensures s.free.Some? ==> s.free.value < |table|
    decreases |table| - i
  {
    if i == |table| then Search(table, None, free)
    else if table[i].Live? then
      if table[i].ip == ip then Search(table, Some(i), free)
      else if free.None? && Expired(table[i], now, window) then
        Find(table[i := Free], ip, now, window, i + 1, Some(i))
      else Find(table, ip, now, window, i + 1, free)
    else Find(table, ip, now, window, i + 1, if free.None? then Some(i) else free)
  }

  datatype Reason = Admitted | RateLimit | TableFull | TimeFault

  datatype Decision = Decision(table: seq<Bucket>, reason: Reason)

  /** Reuse of the address's own bucket; a stale or future window starts afresh. */
  function ConsumeExisting(table: seq<Bucket>, k: nat, now: nat, p: Policy): Decision
    requires k < |table| && table[k].Live?
  {
    var b := table[k];
    var stale := Expired(b, now, p.window) || now < b.start;
    var start := if stale then now else b.start;
    var count := if stale then 0 else b.count;
    if count >= p.limit then Decision(table[k := Live(b.ip, start, count)], RateLimit)
    else Decision(table[k := Live(b.ip, start, count + 1)], Admitted)
  }

  function Limited(table: seq<Bucket>, ip: Address, now: nat, p: Policy): Decision {
    if p.limit == 0 || ip == "" then Decision(table, Admitted)
    else if now == 0 then Decision(table, TimeFault)
    else
      var s := Find(table, ip, now, p.window, 0, None);
      if s.found.Some? then ConsumeExisting(s.table, s.found.value, now, p)
      else if s.free.Some? then Decision(s.table[s.free.value := Live(ip, now, 1)], Admitted)
      else Decision(s.table, TableFull)
  }

  /** The table in memory, scanned and updated in place. */
  class RateTable {
    var buckets: array<Bucket>

    constructor ()
      ensures fresh(buckets) && buckets.Length == BUCKET_COUNT
      ensures forall i :: 0 <= i < BUCKET_COUNT ==> buckets[i] == Free
    {
      buckets := new Bucket[BUCKET_COUNT](_ => Free);
    }

    method FindBucket(ip: Address, now: nat, window: nat) returns (found: Option<nat>, free: Option<nat>)
      modifies buckets
      ensures Search(buckets[..], found, free) == Find(old(buckets[..]), ip, now, window, 0, None)
    {
      free := None;
      for i := 0 to buckets.Length
        invariant free.Some? ==> free.value < i
        invariant Find(old(buckets[..]), ip, now, window, 0, None)
               == Find(buckets[..], ip, now, window, i, free)
      {
        if buckets[i].Live? {
          if buckets[i].ip == ip {
            return Some(i), free;
          }
          if free.None? && Expired(buckets[i], now, window) {
            buckets[i] := Free;
            free := Some(i);
          }
        } else if free.None? {
          free := Some(i);
        }
      }
      found := None;
    }

    method LimitExceeded(ip: Address, now: nat, p: Policy) returns (reason: Reason)
      modifies buckets
      ensures Decision(buckets[..], reason) == Limited(old(buckets[..]), ip, now, p)
    {
      if p.limit == 0 || ip == "" {
        return Admitted;
      }
      if now == 0 {
        return TimeFault;
      }
      FindReclaims(buckets[..], ip, now, p.window, 0, None);
      var found, free := FindBucket(ip, now, p.window);
      hide Find;
      if found.Some? {
        var b := buckets[found.value];
        var count := b.count;
        if Expired(b, now, p.window) || now < b.start {
          count := 0;
          buckets[found.value] := Live(b.ip, now, 0);
        }
        if count >= p.limit {
          return RateLimit;
        }
        buckets[found.value] := Live(b.ip, buckets[found.value].start, count + 1);
        return Admitted;
      }
      if free.None? {
        return TableFull;
      }
      buckets[free.value] := Live(ip, now, 1);
      return Admitted;
    }
  }

  // -- what a scan does

  /** A scan frees at most one bucket, and only a stranger's expired one. */
  ghost predicate Reclaims(before: seq<Bucket>, after: seq<Bucket>, ip: Address, now: nat, window: nat) {
    |after| == |before|
    && forall j :: 0 <= j < |before| ==>
      after[j] == before[j]
      || (after[j] == Free && before[j].Live? && before[j].ip != ip && Expired(before[j], now, window))
  }

  ghost predicate Holds(table: seq<Bucket>, ip: Address, from: nat) {
    exists j :: from <= j < |table| && table[j].Live? && table[j].ip == ip
  }

  lemma {:induction false} FindReclaims(table: seq<Bucket>, ip: Address, now: nat, window: nat, i: nat,
                                        free: Option<nat>)
    requires i <= |table| && (free.Some? ==> free.value < i)
    ensures var s := Find(table, ip, now, window, i, free);
            && Reclaims(table, s.table, ip, now, window)
            && (s.found.Some? <==> Holds(table, ip, i))
            && (s.found.Some? ==> s.table[s.found.value] == table[s.found.value]
                                  && table[s.found.value].Live? && table[s.found.value].ip == ip)
    decreases |table| - i
  {
    if i < |table| && !(table[i].Live? && table[i].ip == ip) {
      if table[i].Live? && free.None? && Expired(table[i], now, window) {
        FindReclaims(table[i := Free], ip, now, window, i + 1, Some(i));
      } else {
        FindReclaims(table, ip, now, window, i + 1,
                     if free.None? && !table[i].Live? then Some(i) else free);
      }
    }
  }

  lemma {:induction false} FindOffersFree(table: seq<Bucket>, ip: Address, now: nat, window: nat, i: nat,
                                          free: Option<nat>)
    requires i <= |table| && (free.Some? ==> free.value < i && table[free.value] == Free)
    ensures var s := Find(table, ip, now, window, i, free);
            && (s.free.Some? ==> s.table[s.free.value] == Free)
            && (s.found.None? && s.free.None? <==>
                  free.None? && forall j :: i <= j < |table| ==>
                    table[j].Live? && table[j].ip != ip && !Expired(table[j], now, window))
    decreases |table| - i
  {
    if i < |table| && !(table[i].Live? && table[i].ip == ip) {
      if table[i].Live? && free.None? && Expired(table[i], now, window) {
        FindOffersFree(table[i := Free], ip, now, window, i + 1, Some(i));
      } else {
        FindOffersFree(table, ip, now, window, i + 1,
                       if free.None? && !table[i].Live? then Some(i) else free);
      }
    }
  }

  // -- the map

  datatype Window = Window(start: nat, count: nat)

  type Book = map<Address, Window>

  predicate Open(w: Window, now: nat, window: nat) {
    w.start <= now < w.start + window
  }

  /** The decision of a map that never forgets. */
  function BookAdmits(book: Book, ip: Address, now: nat, p: Policy): bool {
    ip in book && Open(book[ip], now, p.window) ==> book[ip].count < p.limit
  }

  function BookAfter(book: Book, ip: Address, now: nat, p: Policy): Book {
    if !BookAdmits(book, ip, now, p) then book
    else if ip in book && Open(book[ip], now, p.window) then
      book[ip := Window(book[ip].start, book[ip].count + 1)]
    else book[ip := Window(now, 1)]
  }

  /** Live buckets are distinct and are the map's entries; what is missing has expired. */
  ghost predicate Refines(table: seq<Bucket>, book: Book, window: nat, clock: nat) {
    && (forall i, j :: 0 <= i < j < |table| && table[i].Live? && table[j].Live? ==> table[i].ip != table[j].ip)
    && (forall i :: 0 <= i < |table| && table[i].Live? ==>
          table[i].ip in book && book[table[i].ip] == Window(table[i].start, table[i].count)
          && table[i].start <= clock)
    && (forall ip :: ip in book ==> Holds(table, ip, 0) || book[ip].start + window <= clock)
  }

  /** Every bucket is taken by somebody else and still counting. */
  ghost predicate Exhausted(table: seq<Bucket>, ip: Address, now: nat, window: nat) {
    forall j :: 0 <= j < |table| ==>
      table[j].Live? && table[j].ip != ip && !Expired(table[j], now, window)
  }

  /** Reclaiming is invisible to the map. */
  lemma ReclaimRefines(before: seq<Bucket>, after: seq<Bucket>, book: Book, ip: Address, now: nat, window: nat,
                       clock: nat)
    requires Refines(before, book, window, clock) && clock <= now
    requires Reclaims(before, after, ip, now, window)
    ensures Refines(after, book, window, now)
    ensures Holds(after, ip, 0) <==> Holds(before, ip, 0)
  {
    forall a: Address | a in book ensures Holds(after, a, 0) || book[a].start + window <= now {
      if Holds(before, a, 0) {
        var j :| 0 <= j < |before| && before[j].Live? && before[j].ip == a;
        assert after[j] == before[j] || Expired(before[j], now, window);
      }
    }
    if Holds(before, ip, 0) {
      var j :| 0 <= j < |before| && before[j].Live? && before[j].ip == ip;
      assert after[j] == before[j];
    }
  }

  /** Writing the address's bucket is writing the map's entry. */
  lemma WriteRefines(table: seq<Bucket>, book: Book, k: nat, ip: Address, w: Window, window: nat, clock: nat)
    requires Refines(table, book, window, clock) && k < |table| && w.start <= clock
    requires if table[k].Live? then table[k].ip == ip else !Holds(table, ip, 0)
    ensures Refines(table[k := Live(ip, w.start, w.count)], book[ip := w], window, clock)
  {
    var after := table[k := Live(ip, w.start, w.count)];
    forall i | 0 <= i < |table| && i != k && table[i].Live? ensures table[i].ip != ip {
    }
    forall a: Address | a in book[ip := w]
      ensures Holds(after, a, 0) || book[ip := w][a].start + window <= clock
    {
      if a == ip {
        assert after[k].ip == ip;
      } else if Holds(table, a, 0) {
        var j :| 0 <= j < |table| && table[j].Live? && table[j].ip == a;
        assert after[j] == table[j];
      }
    }
  }

  lemma FoundIsBooked(table: seq<Bucket>, book: Book, k: nat, window: nat, clock: nat)
    requires Refines(table, book, window, clock) && k < |table| && table[k].Live?
    ensures table[k].ip in book && book[table[k].ip] == Window(table[k].start, table[k].count)
    ensures table[k].start <= clock
  {
  }

  lemma MissingIsClosed(table: seq<Bucket>, book: Book, ip: Address, window: nat, clock: nat)
    requires Refines(table, book, window, clock) && !Holds(table, ip, 0)
    ensures ip in book ==> !Open(book[ip], clock, window)
  {
  }

  /** Reusing the address's bucket is the map's decision and the map's update. */
  lemma ConsumeRefines(table: seq<Bucket>, book: Book, k: nat, ip: Address, now: nat, p: Policy)
    requires p.limit > 0 && Refines(table, book, p.window, now) && k < |table| && table[k].Live? && table[k].ip == ip
    ensures var d := ConsumeExisting(table, k, now, p);
            && (d.reason == Admitted || d.reason == RateLimit)
            && (d.reason == Admitted <==> BookAdmits(book, ip, now, p))
            && Refines(d.table, BookAfter(book, ip, now, p), p.window, now)
  {
    hide Refines, Holds;
    FoundIsBooked(table, book, k, p.window, now);
    var b := table[k];
    if BookAdmits(book, ip, now, p) {
      var w := if Open(book[ip], now, p.window) then Window(b.start, b.count + 1) else Window(now, 1);
      WriteRefines(table, book, k, ip, w, p.window, now);
    } else {
      assert table[k := b] == table;
    }
  }

  /** A new bucket is a new entry of the map. */
  lemma NewRefines(table: seq<Bucket>, book: Book, k: nat, ip: Address, now: nat, p: Policy)
    requires p.limit > 0 && Refines(table, book, p.window, now) && k < |table| && table[k] == Free
    requires !Holds(table, ip, 0)
    ensures BookAdmits(book, ip, now, p)
    ensures Refines(table[k := Live(ip, now, 1)], BookAfter(book, ip, now, p), p.window, now)
  {
    hide Refines, Holds;
    MissingIsClosed(table, book, ip, p.window, now);
    WriteRefines(table, book, k, ip, Window(now, 1), p.window, now);
  }

  /**
   The table refines the map: with a clock that never goes back, every decision is the
   map's and the two stay related, except that an address without a bucket is refused
   exactly when all buckets are live, unexpired and others'.
   */
  lemma TableRefinesMap(table: seq<Bucket>, book: Book, ip: Address, now: nat, p: Policy, clock: nat)
    requires p.limit > 0 && ip != "" && 0 < now && clock <= now
    requires Refines(table, book, p.window, clock)
    ensures var d := Limited(table, ip, now, p);
            && d.reason != TimeFault
            && (d.reason == TableFull <==> Exhausted(table, ip, now, p.window))
            && (d.reason != TableFull ==> (d.reason == Admitted <==> BookAdmits(book, ip, now, p)))
            && Refines(d.table, if d.reason == TableFull then book else BookAfter(book, ip, now, p), p.window, now)
  {
    hide Find, Refines, Holds, ConsumeExisting, BookAdmits, BookAfter, Reclaims, Expired;
    FindReclaims(table, ip, now, p.window, 0, None);
    FindOffersFree(table, ip, now, p.window, 0, None);
    var s := Find(table, ip, now, p.window, 0, None);
    ReclaimRefines(table, s.table, book, ip, now, p.window, clock);
    if s.found.Some? {
      ConsumeRefines(s.table, book, s.found.value, ip, now, p);
      FoundIsNotExhausted(table, ip, now, p.window);
    } else if s.free.Some? {
      NewRefines(s.table, book, s.free.value, ip, now, p);
    }
  }

  lemma FoundIsNotExhausted(table: seq<Bucket>, ip: Address, now: nat, window: nat)
    requires Holds(table, ip, 0)
    ensures !Exhausted(table, ip, now, window)
  {
  }

  // -- runs

  datatype Request = Request(ip: Address, now: nat)

  ghost predicate Monotone(reqs: seq<Request>) {
    forall i, j :: 0 <= i < j < |reqs| ==> reqs[i].now <= reqs[j].now
  }

  /** The table and the map after a run, from an empty table. */
  datatype State = State(table: seq<Bucket>, book: Book, clock: nat)

  ghost function After(reqs: seq<Request>, p: Policy): State {
    if reqs == [] then State(seq(BUCKET_COUNT, i => Free), map[], 0)
    else
      var s, r := After(reqs[..|reqs| - 1], p), reqs[|reqs| - 1];
      var d := Limited(s.table, r.ip, r.now, p);
      var counted := r.ip != "" && (d.reason == RateLimit || d.reason == Admitted);
      State(d.table, if counted then BookAfter(s.book, r.ip, r.now, p) else s.book, r.now)
  }

  /** Whether the last request of a run was admitted. */
  ghost predicate LastAdmitted(reqs: seq<Request>, p: Policy)
    requires reqs != []
  {
    var s, r := After(reqs[..|reqs| - 1], p), reqs[|reqs| - 1];
    Limited(s.table, r.ip, r.now, p).reason == Admitted
  }

  /** An admission, and the start of the window that it was counted in. */
  datatype Entry = Entry(time: nat, start: nat)

  /** The admissions of one address over a run, in order. */
  ghost function Admissions(reqs: seq<Request>, p: Policy, ip: Address): seq<Entry> {
    if reqs == [] then []
    else
      var before, r := reqs[..|reqs| - 1], reqs[|reqs| - 1];
      if r.ip == ip && LastAdmitted(reqs, p) && ip in After(reqs, p).book
      then Admissions(before, p, ip) + [Entry(r.now, After(reqs, p).book[ip].start)]
      else Admissions(before, p, ip)
  }

  /** Admissions lie in their windows; windows do not overlap and hold at most `limit`. */
  ghost predicate WellSpaced(es: seq<Entry>, p: Policy) {
    && (forall i :: 0 <= i < |es| ==> es[i].start <= es[i].time < es[i].start + p.window)
    && (forall i, j :: 0 <= i < j < |es| ==>
          es[i].time <= es[j].time && (es[i].start == es[j].start || es[i].start + p.window <= es[j].start))
    && (forall i, j :: 0 <= i < j < |es| && es[i].start == es[j].start ==> j - i < p.limit)
  }

  /** The map's entry counts exactly the last group of admissions. */
  ghost predicate Tallies(es: seq<Entry>, book: Book, ip: Address, clock: nat, p: Policy) {
    && (es != [] <==> ip in book)
    && (forall i :: 0 <= i < |es| ==> es[i].time <= clock)
    && (ip in book ==>
          var w := book[ip];
          && 1 <= w.count <= p.limit && w.count <= |es| && w.start <= clock
          && (forall i :: |es| - w.count <= i < |es| ==> es[i].start == w.start)
          && (forall i :: 0 <= i < |es| - w.count ==> es[i].start + p.window <= w.start))
  }

  ghost predicate RunInv(reqs: seq<Request>, p: Policy, ip: Address) {
    var s, es := After(reqs, p), Admissions(reqs, p, ip);
    && Refines(s.table, s.book, p.window, s.clock)
    && Tallies(es, s.book, ip, s.clock, p) && WellSpaced(es, p)
    && s.clock == (if reqs == [] then 0 else reqs[|reqs| - 1].now)
  }

  /** One more admission of the address keeps the tally of its last window. */
  lemma TallyAdmission(es: seq<Entry>, book: Book, ip: Address, clock: nat, now: nat, p: Policy)
    requires p.limit > 0 && p.window > 0 && clock <= now
    requires Tallies(es, book, ip, clock, p) && WellSpaced(es, p) && BookAdmits(book, ip, now, p)
    ensures var after := BookAfter(book, ip, now, p);
            ip in after && Tallies(es + [Entry(now, after[ip].start)], after, ip, now, p)
  {
    var w := BookAfter(book, ip, now, p)[ip];
    var es' := es + [Entry(now, w.start)];
    if ip in book && Open(book[ip], now, p.window) {
      forall i | |es'| - w.count <= i < |es'| ensures es'[i].start == w.start {
        if i < |es| { assert |es| - book[ip].count <= i; }
      }
    } else {
      forall i | 0 <= i < |es| ensures es[i].start + p.window <= w.start {
        if i < |es| - book[ip].count {
        } else {
          assert es[i].start == book[ip].start;
        }
      }
    }
  }

  /** The new admission is in its window, which is the last one or a later one. */
  lemma SpaceAdmission(es: seq<Entry>, book: Book, ip: Address, clock: nat, now: nat, p: Policy)
    requires p.limit > 0 && p.window > 0 && clock <= now
    requires Tallies(es, book, ip, clock, p) && WellSpaced(es, p) && BookAdmits(book, ip, now, p)
    ensures var after := BookAfter(book, ip, now, p);
            ip in after && WellSpaced(es + [Entry(now, after[ip].start)], p)
  {
    var w := BookAfter(book, ip, now, p)[ip];
    forall i | 0 <= i < |es|
      ensures es[i].start == w.start ==> |es| - i < p.limit
      ensures es[i].start == w.start || es[i].start + p.window <= w.start
    {
      if i < |es| - book[ip].count {
        assert es[i].start + p.window <= book[ip].start;
      } else {
        assert es[i].start == book[ip].start;
      }
    }
    hide Tallies, BookAfter;
    AppendSpaced(es, Entry(now, w.start), p);
  }

  lemma AppendSpaced(es: seq<Entry>, e: Entry, p: Policy)
    requires WellSpaced(es, p) && e.start <= e.time < e.start + p.window
    requires forall i :: 0 <= i < |es| ==>
      && es[i].time <= e.time && (es[i].start == e.start || es[i].start + p.window <= e.start)
      && (es[i].start == e.start ==> |es| - i < p.limit)
    ensures WellSpaced(es + [e], p)
  {
    var more := es + [e];
    assert more[|es|] == e;
    assert forall i :: 0 <= i < |es| ==> more[i] == es[i];
  }

  lemma {:induction false} RunKeepsInv(reqs: seq<Request>, p: Policy, ip: Address)
    requires p.limit > 0 && p.window > 0 && ip != "" && Monotone(reqs)
    ensures RunInv(reqs, p, ip)
  {
    hide Refines, WellSpaced;
    if reqs == [] {
      EmptyRefines(p.window);
      assert WellSpaced([], p) by { EmptySpaced(p); }
    } else {
      var before, r := reqs[..|reqs| - 1], reqs[|reqs| - 1];
      RunKeepsInv(before, p, ip);
      var s, es := After(before, p), Admissions(before, p, ip);
      StepKeepsInv(s, es, r, p, ip);
    }
  }

  /** What one request does to the table, the map and one address's history. */
  lemma StepKeepsInv(s: State, es: seq<Entry>, r: Request, p: Policy, ip: Address)
    requires p.limit > 0 && p.window > 0 && ip != "" && s.clock <= r.now
    requires Refines(s.table, s.book, p.window, s.clock)
    requires Tallies(es, s.book, ip, s.clock, p) && WellSpaced(es, p)
    ensures var d := Limited(s.table, r.ip, r.now, p);
            var counted := r.ip != "" && (d.reason == RateLimit || d.reason == Admitted);
            var book := if counted then BookAfter(s.book, r.ip, r.now, p) else s.book;
            var es' := if r.ip == ip && d.reason == Admitted && ip in book
                       then es + [Entry(r.now, book[ip].start)] else es;
            Refines(d.table, book, p.window, r.now) && Tallies(es', book, ip, r.now, p) && WellSpaced(es', p)
  {
    hide Refines, WellSpaced, Tallies, Limited, BookAfter, BookAdmits;
    var d := Limited(s.table, r.ip, r.now, p);
    if r.ip == "" || r.now == 0 {
      UncountedRequest(s.table, r.ip, r.now, p);
      LaterRefines(s.table, s.book, p.window, s.clock, r.now);
      TallyOther(es, s.book, s.book, ip, s.clock, r.now, p);
    } else {
      TableRefinesMap(s.table, s.book, r.ip, r.now, p, s.clock);
      var book := if d.reason == TableFull then s.book else BookAfter(s.book, r.ip, r.now, p);
      if r.ip == ip && d.reason == Admitted {
        TallyAdmission(es, s.book, ip, s.clock, r.now, p);
        SpaceAdmission(es, s.book, ip, s.clock, r.now, p);
      } else {
        if d.reason != TableFull { OtherEntry(s.book, r.ip, r.now, p, ip); }
        TallyOther(es, s.book, book, ip, s.clock, r.now, p);
      }
    }
  }

  /** A nameless client and a stopped clock leave the table alone. */
  lemma UncountedRequest(table: seq<Bucket>, ip: Address, now: nat, p: Policy)
    requires p.limit > 0 && (ip == "" || now == 0)
    ensures Limited(table, ip, now, p) == Decision(table, if ip == "" then Admitted else TimeFault)
  {
    hide Find;
  }

  lemma OtherEntry(book: Book, ip: Address, now: nat, p: Policy, other: Address)
    requires other != ip || !BookAdmits(book, ip, now, p)
    ensures var after := BookAfter(book, ip, now, p);
            (other in after <==> other in book) && (other in book ==> after[other] == book[other])
  {
  }

  lemma TallyOther(es: seq<Entry>, book: Book, after: Book, ip: Address, clock: nat, now: nat, p: Policy)
    requires Tallies(es, book, ip, clock, p) && clock <= now
    requires (ip in after <==> ip in book) && (ip in book ==> after[ip] == book[ip])
    ensures Tallies(es, after, ip, now, p)
  {
  }

  lemma LaterRefines(table: seq<Bucket>, book: Book, window: nat, clock: nat, now: nat)
    requires Refines(table, book, window, clock) && clock <= now
    ensures Refines(table, book, window, now)
  {
  }

  lemma EmptySpaced(p: Policy)
    ensures WellSpaced([], p)
  {
  }

  lemma EmptyRefines(window: nat)
    ensures Refines(seq(BUCKET_COUNT, i => Free), map[], window, 0)
  {
  }

  /**
   Any `2 * limit + 1` consecutive admissions of one address span more than a window,
   and any `limit + 1` of them are not all counted in one window.
   */
  lemma AdmissionsAreSpread(reqs: seq<Request>, p: Policy, ip: Address, i: nat)
    requires p.limit > 0 && p.window > 0 && ip != "" && Monotone(reqs)
    ensures var es := Admissions(reqs, p, ip);
            && (i + p.limit < |es| ==> es[i].start + p.window <= es[i + p.limit].start)
            && (i + 2 * p.limit < |es| ==> es[i + 2 * p.limit].time - es[i].time > p.window)
  {
    hide Admissions, After, Refines;
    RunKeepsInv(reqs, p, ip);
    var es := Admissions(reqs, p, ip);
    if i + 2 * p.limit < |es| {
      var a, b, c := es[i], es[i + p.limit], es[i + 2 * p.limit];
      assert a.start != b.start && b.start != c.start;
      assert a.time < a.start + p.window <= b.start;
      assert b.start + p.window <= c.start <= c.time;
    }
  }

  /** The admissions of one address within `[t, t + window]`. */
  ghost function Within(es: seq<Entry>, t: nat, window: nat): set<nat> {
    set i: nat | i < |es| && t <= es[i].time <= t + window
  }

  lemma {:induction false} IntervalSize(s: set<nat>, lo: nat, n: nat)
    requires forall i :: i in s ==> lo <= i < lo + n
    ensures |s| <= n
  {
    if n > 0 {
      IntervalSize(s - {lo + n - 1}, lo, n - 1);
    } else {
      assert s == {};
    }
  }

  lemma WithinOfEntries(reqs: seq<Request>, p: Policy, ip: Address, t: nat)
    requires p.limit > 0 && p.window > 0 && ip != "" && Monotone(reqs)
    ensures |Within(Admissions(reqs, p, ip), t, p.window)| <= 2 * p.limit
  {
    hide Admissions, After, Refines;
    RunKeepsInv(reqs, p, ip);
    var es := Admissions(reqs, p, ip);
    var s := Within(es, t, p.window);
    if s != {} {
      var lo := Least(s);
      forall i | i in s ensures lo <= i < lo + 2 * p.limit {
        if i >= lo + 2 * p.limit {
          AdmissionsAreSpread(reqs, p, ip, lo);
        }
      }
      IntervalSize(s, lo, 2 * p.limit);
    }
  }

  /** An admitted request of a named address is always in the book: no admission goes uncounted. */
  lemma AdmittedIsCounted(reqs: seq<Request>, p: Policy)
    requires p.limit > 0 && p.window > 0 && Monotone(reqs) && reqs != []
    requires reqs[|reqs| - 1].ip != "" && LastAdmitted(reqs, p)
    ensures reqs[|reqs| - 1].ip in After(reqs, p).book
  {
    var before, r := reqs[..|reqs| - 1], reqs[|reqs| - 1];
    RunKeepsInv(before, p, r.ip);
    var s := After(before, p);
    hide After, Admissions, Refines, Tallies, WellSpaced, Find;
    assert s.clock <= r.now;
    if r.now == 0 {
      UncountedRequest(s.table, r.ip, r.now, p);
    } else {
      TableRefinesMap(s.table, s.book, r.ip, r.now, p, s.clock);
    }
    AfterOne(reqs, p);
  }

  lemma AfterOne(reqs: seq<Request>, p: Policy)
    requires reqs != []
    ensures var s, r := After(reqs[..|reqs| - 1], p), reqs[|reqs| - 1];
            r.ip != "" && LastAdmitted(reqs, p) ==> After(reqs, p).book == BookAfter(s.book, r.ip, r.now, p)
  {
    hide Limited, BookAfter;
  }

  /** The requests of a run that the limiter looks at: none while it is off, and never a nameless client's. */
  function Looked(reqs: seq<Request>, p: Policy): seq<Request> {
    if reqs == [] then []
    else
      var r := reqs[|reqs| - 1];
      Looked(reqs[..|reqs| - 1], p) + (if p.limit > 0 && r.ip != "" then [r] else [])
  }

  /** A request that the limiter does not look at is admitted, and leaves no mark on any later decision. */
  lemma {:induction false} OthersLeaveNoMark(reqs: seq<Request>, p: Policy)
    ensures After(reqs, p).table == After(Looked(reqs, p), p).table
    ensures reqs != [] && (p.limit == 0 || reqs[|reqs| - 1].ip == "") ==> LastAdmitted(reqs, p)
    ensures p.limit == 0 ==> forall i :: 0 <= i < |After(reqs, p).table| ==> After(reqs, p).table[i] == Free
  {
    hide Find, ConsumeExisting, BookAfter;
    if reqs != [] {
      var before, r := reqs[..|reqs| - 1], reqs[|reqs| - 1];
      OthersLeaveNoMark(before, p);
      var seen := Looked(before, p);
      assert (seen + [r])[..|seen|] == seen;
      assert seen + [] == seen;
    }
  }

  /** How many requests of one address were admitted within `[t, t + window]`. */
  ghost function AdmittedWithin(reqs: seq<Request>, p: Policy, ip: Address, t: nat): nat {
    if reqs == [] then 0
    else
      var r := reqs[|reqs| - 1];
      AdmittedWithin(reqs[..|reqs| - 1], p, ip, t)
      + (if r.ip == ip && LastAdmitted(reqs, p) && t <= r.now <= t + p.window then 1 else 0)
  }

  lemma WithinAppend(es: seq<Entry>, e: Entry, t: nat, window: nat)
    ensures |Within(es + [e], t, window)|
         == |Within(es, t, window)| + (if t <= e.time <= t + window then 1 else 0)
  {
    var more := es + [e];
    if t <= e.time <= t + window {
      assert Within(more, t, window) == Within(es, t, window) + {|es|};
    } else {
      assert Within(more, t, window) == Within(es, t, window);
    }
  }

  lemma {:induction false} AdmissionsAreComplete(reqs: seq<Request>, p: Policy, ip: Address, t: nat)
    requires p.limit > 0 && p.window > 0 && ip != "" && Monotone(reqs)
    ensures AdmittedWithin(reqs, p, ip, t) == |Within(Admissions(reqs, p, ip), t, p.window)|
  {
    hide After, Within, LastAdmitted;
    if reqs == [] {
      NoneWithin(t, p.window);
    } else {
      var before, r := reqs[..|reqs| - 1], reqs[|reqs| - 1];
      AdmissionsAreComplete(before, p, ip, t);
      if r.ip == ip && LastAdmitted(reqs, p) {
        AdmittedIsCounted(reqs, p);
        WithinAppend(Admissions(before, p, ip), Entry(r.now, After(reqs, p).book[ip].start), t, p.window);
      }
    }
  }

  lemma NoneWithin(t: nat, window: nat)
    ensures |Within([], t, window)| == 0
  {
    assert Within([], t, window) == {};
  }

  /** No interval of one window admits more than twice the limit of one address. */
  lemma TwiceTheLimit(reqs: seq<Request>, p: Policy, ip: Address, t: nat)
    requires p.limit > 0 && p.window > 0 && ip != "" && Monotone(reqs)
    ensures AdmittedWithin(reqs, p, ip, t) <= 2 * p.limit
  {
    hide AdmittedWithin, Admissions, Within;
    AdmissionsAreComplete(reqs, p, ip, t);
    WithinOfEntries(reqs, p, ip, t);
  }

  ghost function Least(s: set<nat>): (m: nat)
    requires s != {}
    ensures m in s && forall i :: i in s ==> m <= i
  {
    var x :| x in s;
    assert s == {x} + (s - {x});
    if s - {x} == {} then x
    else
      var m := Least(s - {x});
      if x < m then x else m
  }
}
