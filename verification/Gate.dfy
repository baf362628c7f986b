/**
 The client preface: bytes are collected until the handshake validator reaches a
 verdict, the buffer is full, the client closes or the cycle budget is spent.
 */
module Gate {
  import opened Bytes
  import opened Handshake
  import opened PayloadEcc

  /** What one readiness wait brings: at most `n` bytes, a spurious wakeup, or a failure. */
  datatype Wakeup = Chunk(n: nat) | Again | TimedOut | ReadError

  datatype Outcome =
    | Ready(length: nat)
    | HandshakeInvalid
    | Eof
    | Timeout
    | ReadFailed
    | RetrySpent

  function Min(a: nat, b: nat): nat {
    if a < b then a else b
  }

  /** The bytes that one read delivers from a client that sends exactly `stream`. */
  function Delivered(stream: seq<byte>, pos: nat, room: nat, n: nat): nat
    requires pos <= |stream|
  {
    Min(n, Min(room, |stream| - pos))
  }

  /** The gate's verdict on everything that fits the buffer, taken at once. */
  function OneShot(stream: seq<byte>, cap: nat): Verdict {
    if |stream| < cap then Validate(stream)
    else if Validate(stream[..cap]) == NeedMore then Invalid
    else Validate(stream[..cap])
  }

  /** One cycle that brought bytes: go on (`None`) or finish. */
  function CheckGate(stream: seq<byte>, cap: nat, gate: bool, pos: nat): Option<Outcome>
    requires pos <= |stream|
  {
    if !gate then Some(Ready(pos))
    else
      match Validate(stream[..pos])
      case Valid => Some(Ready(pos))
      case Invalid => Some(HandshakeInvalid)
      case NeedMore => if pos >= cap then Some(HandshakeInvalid) else None
  }

  /** The read loop, cycle by cycle; `pos` bytes are in the buffer. */
  function Collect(stream: seq<byte>, cap: nat, gate: bool, wake: nat -> Wakeup,
                   limit: nat, cycle: nat, pos: nat): Outcome
    requires pos <= |stream| && pos < cap && cycle <= limit
    decreases limit - cycle
  {
    if cycle == limit then RetrySpent
    else
      match wake(cycle)
      case TimedOut => Timeout
      case ReadError => ReadFailed
      case Again => Collect(stream, cap, gate, wake, limit, cycle + 1, pos)
      case Chunk(n) =>
        var got := Delivered(stream, pos, cap - pos, n);
        if got == 0 then Eof
        else
          match CheckGate(stream, cap, gate, pos + got)
          case Some(outcome) => outcome
          case None => Collect(stream, cap, gate, wake, limit, cycle + 1, pos + got)
  }

  /** The loop over the session's buffer; the client's bytes land in `buf[..cap]`. */
  method CollectPreface(stream: seq<byte>, buf: array<byte>, cap: nat, gate: bool, wake: nat -> Wakeup)
    returns (outcome: Outcome)
    requires 0 < cap <= buf.Length
    modifies buf
    ensures outcome == Collect(stream, cap, gate, wake, IO_STEP_MAX, 0, 0)
    ensures outcome.Ready? ==>
      outcome.length <= cap && outcome.length <= |stream|
      && buf[..outcome.length] == stream[..outcome.length]
  {
    hide Collect, Validate;
    var pos: nat, cycle: nat := 0, 0;
    while cycle < IO_STEP_MAX
      invariant cycle <= IO_STEP_MAX
      invariant pos <= |stream| && pos < cap && buf[..pos] == stream[..pos]
      invariant Collect(stream, cap, gate, wake, IO_STEP_MAX, 0, 0)
             == Collect(stream, cap, gate, wake, IO_STEP_MAX, cycle, pos)
    {
      CollectUnfolds(stream, cap, gate, wake, IO_STEP_MAX, cycle, pos);
      var w := wake(cycle);
      match w
      case TimedOut => return Timeout;
      case ReadError => return ReadFailed;
      case Again => cycle := cycle + 1;
      case Chunk(n) =>
        var got := Delivered(stream, pos, cap - pos, n);
        if got == 0 {
          return Eof;
        }
        forall i | 0 <= i < got {
          buf[pos + i] := stream[pos + i];
        }
        assert buf[..pos + got] == stream[..pos + got];
        pos := pos + got;
        if !gate {
          return Ready(pos);
        }
        var verdict := ValidateBuffer(buf, pos);
        if verdict == NeedMore {
          if pos >= cap {
            return HandshakeInvalid;
          }
        } else {
          return if verdict == Valid then Ready(pos) else HandshakeInvalid;
        }
        cycle := cycle + 1;
    }
    CollectUnfolds(stream, cap, gate, wake, IO_STEP_MAX, cycle, pos);
    return RetrySpent;
  }

  /**
   The whole step: a zero timeout reads nothing, and an accepted preface is sealed under the
   shadow codes when they are on, which a session's arrays always have room for.
   */
  method ReadPreface(code: Secded, stream: seq<byte>, buf: array<byte>, cap: nat, ecc: array<byte>, timeoutMs: nat,
                     gate: bool, eccOn: bool, wake: nat -> Wakeup) returns (outcome: Outcome)
    requires buf != ecc && 0 < cap <= buf.Length && cap <= BUFFER_SIZE && ecc.Length == WORD_COUNT_MAX
    modifies buf, ecc
    ensures timeoutMs == 0 ==> outcome == Ready(0) && buf[..] == old(buf[..]) && ecc[..] == old(ecc[..])
    ensures timeoutMs > 0 ==> outcome == Collect(stream, cap, gate, wake, IO_STEP_MAX, 0, 0)
    ensures outcome.Ready? ==>
      outcome.length <= cap && outcome.length <= |stream|
      && buf[..outcome.length] == stream[..outcome.length]
    ensures timeoutMs > 0 && eccOn && outcome.Ready? ==>
      Consistent(code, Image(buf[..], ecc[..]), outcome.length, cap)
    ensures !(eccOn && outcome.Ready?) ==> ecc[..] == old(ecc[..])
  {
    hide Collect, Seal, Consistent;
    if timeoutMs == 0 {
      return Ready(0);
    }
    outcome := CollectPreface(stream, buf, cap, gate, wake);
    if eccOn && outcome.Ready? {
      ghost var img := Image(buf[..], ecc[..]);
      var sealed := SealInPlace(code, buf, outcome.length, cap, ecc);
      assert sealed;
      SealIsConsistent(code, img, outcome.length, cap);
    }
  }

  lemma CollectUnfolds(stream: seq<byte>, cap: nat, gate: bool, wake: nat -> Wakeup,
                       limit: nat, cycle: nat, pos: nat)
    requires pos <= |stream| && pos < cap && cycle <= limit
    ensures Collect(stream, cap, gate, wake, limit, cycle, pos) ==
      if cycle == limit then RetrySpent
      else
        match wake(cycle)
        case TimedOut => Timeout
        case ReadError => ReadFailed
        case Again => Collect(stream, cap, gate, wake, limit, cycle + 1, pos)
        case Chunk(n) =>
          var got := Delivered(stream, pos, cap - pos, n);
          if got == 0 then Eof
          else
            match CheckGate(stream, cap, gate, pos + got)
            case Some(outcome) => outcome
            case None => Collect(stream, cap, gate, wake, limit, cycle + 1, pos + got)
  {
    hide Validate;
  }

  /** A verdict on the first `pos` bytes is the one-shot verdict. */
  lemma PartialVerdict(stream: seq<byte>, cap: nat, pos: nat)
    requires pos <= |stream| && pos <= cap
    ensures Validate(stream[..pos]) != NeedMore ==> OneShot(stream, cap) == Validate(stream[..pos])
    ensures pos == cap && Validate(stream[..pos]) == NeedMore ==> OneShot(stream, cap) == Invalid
  {
    hide Validate;
    if Validate(stream[..pos]) != NeedMore {
      var all := if |stream| < cap then stream else stream[..cap];
      assert all == stream[..pos] + all[pos..];
      VerdictIsFinal(stream[..pos], all[pos..]);
    }
  }

  /**
   No schedule changes a verdict: if the loop accepts or refuses the handshake,
   validating the buffer's worth of the stream at once does the same.
   */
  lemma {:induction false} VerdictIsOneShot(stream: seq<byte>, cap: nat, wake: nat -> Wakeup,
                                            limit: nat, cycle: nat, pos: nat)
    requires pos <= |stream| && pos < cap && cycle <= limit
    ensures var outcome := Collect(stream, cap, true, wake, limit, cycle, pos);
            && (outcome.Ready? ==> OneShot(stream, cap) == Valid)
            && (outcome == HandshakeInvalid ==> OneShot(stream, cap) == Invalid)
    decreases limit - cycle
  {
    hide Validate, OneShot;
    if cycle < limit {
      match wake(cycle) {
        case Again => VerdictIsOneShot(stream, cap, wake, limit, cycle + 1, pos);
        case Chunk(n) =>
          var got := Delivered(stream, pos, cap - pos, n);
          if got > 0 {
            PartialVerdict(stream, cap, pos + got);
            if CheckGate(stream, cap, true, pos + got).None? {
              VerdictIsOneShot(stream, cap, wake, limit, cycle + 1, pos + got);
            }
          }
        case _ =>
      }
    }
  }

  /** Spurious wakeups among the cycles `cycle..limit`. */
  ghost function Spurious(wake: nat -> Wakeup, limit: nat, cycle: nat): nat
    requires cycle <= limit
    decreases limit - cycle
  {
    if cycle == limit then 0
    else (if wake(cycle) == Again then 1 else 0) + Spurious(wake, limit, cycle + 1)
  }

  /** Reads that bring at least a byte or are spurious: no timeout and no error. */
  ghost predicate Patient(wake: nat -> Wakeup) {
    forall c: nat :: wake(c) == Again || (wake(c).Chunk? && wake(c).n > 0)
  }

  function Expected(v: Verdict, outcome: Outcome): bool {
    match v
    case Valid => outcome.Ready?
    case Invalid => outcome == HandshakeInvalid
    case NeedMore => outcome == Eof
  }

  lemma {:induction false} PatientOutcome(stream: seq<byte>, cap: nat, wake: nat -> Wakeup,
                                          limit: nat, cycle: nat, pos: nat)
    requires pos <= |stream| && pos < cap && cycle <= limit && Patient(wake)
    requires cap - pos + Spurious(wake, limit, cycle) <= limit - cycle
    requires Validate(stream[..pos]) == NeedMore
    ensures Expected(OneShot(stream, cap), Collect(stream, cap, true, wake, limit, cycle, pos))
    decreases limit - cycle
  {
    hide Validate;
    match wake(cycle) {
      case Again => PatientOutcome(stream, cap, wake, limit, cycle + 1, pos);
      case Chunk(n) =>
        var got := Delivered(stream, pos, cap - pos, n);
        if got == 0 {
          assert stream[..pos] == stream;
        } else {
          PartialVerdict(stream, cap, pos + got);
          if CheckGate(stream, cap, true, pos + got).None? {
            PatientOutcome(stream, cap, wake, limit, cycle + 1, pos + got);
          }
        }
    }
  }

  /**
   The gate is independent of chunking: for every split of the client's stream into
   reads, with no timeout and no more than the retry budget of spurious wakeups, the
   loop accepts, refuses or meets the end of the stream exactly as one-shot
   validation capped at the buffer size says.
   */
  lemma ChunkingDoesNotMatter(stream: seq<byte>, cap: nat, wake: nat -> Wakeup)
    requires 0 < cap <= BUFFER_SIZE && Patient(wake)
    requires Spurious(wake, IO_STEP_MAX, 0) <= IO_RETRY_BUDGET
    ensures Expected(OneShot(stream, cap), Collect(stream, cap, true, wake, IO_STEP_MAX, 0, 0))
  {
    hide Collect, Spurious, OneShot, Patient;
    assert stream[..0] == [];
    EmptyNeedsMore();
    PatientOutcome(stream, cap, wake, IO_STEP_MAX, 0, 0);
  }

  /** The bytes that the first `c` wakeups brought, whatever the gate thinks of them. */
  ghost function Brought(stream: seq<byte>, cap: nat, wake: nat -> Wakeup, c: nat): (n: nat)
    ensures n <= |stream| && n <= cap
  {
    if c == 0 then 0
    else
      var before := Brought(stream, cap, wake, c - 1);
      match wake(c - 1)
      case Chunk(n) => before + Delivered(stream, before, cap - before, n)
      case _ => before
  }

  /**
   A preface that is ready is everything that came until then: the last wakeup brought the byte
   that settled it, with the gate on the whole of it is valid, and no shorter part was.
   */
  lemma {:induction false} ReadyCarriesAll(stream: seq<byte>, cap: nat, gate: bool, wake: nat -> Wakeup,
                                           limit: nat, cycle: nat)
    requires cycle <= limit && Brought(stream, cap, wake, cycle) < cap
    requires var pos := Brought(stream, cap, wake, cycle); pos > 0 ==> gate && Validate(stream[..pos]) == NeedMore
    ensures var outcome := Collect(stream, cap, gate, wake, limit, cycle, Brought(stream, cap, wake, cycle));
            outcome.Ready? ==>
              exists c :: && cycle < c <= limit && outcome.length == Brought(stream, cap, wake, c)
                          && SettledAt(stream, cap, gate, wake, c)
    decreases limit - cycle
  {
    hide Validate, Collect, SettledAt, CheckGate, Brought;
    var pos := Brought(stream, cap, wake, cycle);
    CollectUnfolds(stream, cap, gate, wake, limit, cycle, pos);
    BroughtNext(stream, cap, wake, cycle);
    if cycle < limit {
      match wake(cycle) {
        case Again => ReadyCarriesAll(stream, cap, gate, wake, limit, cycle + 1);
        case Chunk(n) =>
          var got := Delivered(stream, pos, cap - pos, n);
          if got > 0 {
            SettlesNow(stream, cap, gate, wake, cycle);
            if CheckGate(stream, cap, gate, pos + got).None? {
              ReadyCarriesAll(stream, cap, gate, wake, limit, cycle + 1);
            }
          }
        case _ =>
      }
    }
  }

  lemma BroughtNext(stream: seq<byte>, cap: nat, wake: nat -> Wakeup, c: nat)
    ensures var before := Brought(stream, cap, wake, c);
            Brought(stream, cap, wake, c + 1)
            == before + if wake(c).Chunk? then Delivered(stream, before, cap - before, wake(c).n) else 0
  {
  }

  /** The check after a wakeup that brought bytes: settled with all of them, or not settled yet. */
  lemma SettlesNow(stream: seq<byte>, cap: nat, gate: bool, wake: nat -> Wakeup, c: nat)
    requires var before, now := Brought(stream, cap, wake, c), Brought(stream, cap, wake, c + 1);
             before < now && (before > 0 ==> gate && Validate(stream[..before]) == NeedMore)
    ensures var now := Brought(stream, cap, wake, c + 1);
            match CheckGate(stream, cap, gate, now)
            case None => now < cap && gate && Validate(stream[..now]) == NeedMore
            case Some(outcome) =>
              outcome.Ready? ==> outcome.length == now && SettledAt(stream, cap, gate, wake, c + 1)
  {
    hide Validate, Brought;
  }

  /** Wakeup `c` brought bytes, and what is there then passes; before it nothing did. */
  ghost predicate SettledAt(stream: seq<byte>, cap: nat, gate: bool, wake: nat -> Wakeup, c: nat) {
    && c > 0
    && var before, now := Brought(stream, cap, wake, c - 1), Brought(stream, cap, wake, c);
       && before < now
       && (if gate then Validate(stream[..now]) == Valid && (before > 0 ==> Validate(stream[..before]) == NeedMore)
           else before == 0)
  }

  /** Without the gate the first bytes to come are the preface, all of them and no more. */
  lemma {:induction false} GateOffTakesFirstChunk(stream: seq<byte>, cap: nat, wake: nat -> Wakeup,
                                                  limit: nat, cycle: nat, c: nat, n: nat)
    requires cap > 0 && cycle <= c < limit && stream != [] && n > 0
    requires forall j :: cycle <= j < c ==> wake(j) == Again
    requires wake(c) == Chunk(n)
    ensures Collect(stream, cap, false, wake, limit, cycle, 0) == Ready(Min(n, Min(cap, |stream|)))
    decreases c - cycle
  {
    if cycle < c {
      GateOffTakesFirstChunk(stream, cap, wake, limit, cycle + 1, c, n);
    }
  }
}
