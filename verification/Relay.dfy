/**
 The byte relay of one session: preface flush and the two pumps, interleaved with the
 watchdog's scrub and with bit flips in the sealed payload.  One transition is the work
 a task does between two scheduling points, or less.
 */
module Relay {
  import opened Bytes
  import opened PayloadEcc

  datatype Config = Config(code: Secded, ecc: bool, cap: nat)

  predicate Configured(cfg: Config) {
    0 < cfg.cap <= BUFFER_SIZE
  }

  datatype StopReason = Ended | PayloadFault | RetriesSpent | BytesLeftOver

  /** A write loop that has sent `off` of `len` bytes in `steps` iterations. */
  datatype Drain = Drain(len: nat, off: nat, retries: nat, steps: nat)

  datatype Phase =
    | Collecting(n: nat)
    | Flushing(drain: Drain)
    | LoopHead
    | Writing(drain: Drain)
    | Stopped(reason: StopReason)

  /**
   One direction: the buffer with its codes and the sealed length, and three histories:
   the bytes read, the bytes sent, and the image as it was last sealed.
   */
  datatype Lane = Lane(img: Image, eccLen: nat, phase: Phase,
                       received: seq<byte>, sent: seq<byte>, sealed: Image)

  /** What the environment decides for one transition of a lane. */
  datatype Action =
    | PrefaceChunk(data: seq<byte>)
    | PrefaceReady
    | PumpRead(data: seq<byte>)
    | Send(w: nat)
    | SendBlocked
    | Leave
    | LoopExit
    | Flip(hit: Image)

  function Zeros(n: nat): seq<byte> {
    seq(n, i => 0)
  }

  /** A fresh direction; only the client's side starts with a preface to collect. */
  function Fresh(preface: bool): Lane {
    var img := Image(Zeros(BUFFER_SIZE), Zeros(WORD_COUNT_MAX));
    Lane(img, 0, if preface then Collecting(0) else LoopHead, [], [], img)
  }

  function Overwrite(buf: seq<byte>, at: nat, data: seq<byte>): seq<byte>
    requires at + |data| <= |buf|
  {
    buf[..at] + data + buf[at + |data|..]
  }

  /** Bytes that just arrived are sealed before the task can be interrupted. */
  function SealLane(cfg: Config, lane: Lane, len: nat): Lane
    requires Configured(cfg) && Fits(lane.img, len, cfg.cap)
  {
    if cfg.ecc then
      var img := Seal(cfg.code, lane.img, len, cfg.cap);
      lane.(img := img, eccLen := len, sealed := img)
    else
      lane.(sealed := lane.img)
  }

  /** Repair before every send; without codes there is nothing to repair. */
  function RepairLane(cfg: Config, img: Image, len: nat): (r: RepairResult)
    requires Configured(cfg) && Fits(img, len, cfg.cap)
    ensures |r.img.buf| == |img.buf| && |r.img.ecc| == |img.ecc|
  {
    if cfg.ecc then Repair(cfg.code, img, len, cfg.cap) else RepairResult(true, img)
  }

  function Sizes(lane: Lane): bool {
    |lane.img.buf| == BUFFER_SIZE && |lane.img.ecc| == WORD_COUNT_MAX
  }

  predicate Draining(phase: Phase) {
    phase.Flushing? || phase.Writing?
  }

  function WithDrain(phase: Phase, d: Drain): Phase
    requires Draining(phase)
  {
    if d.off == d.len then LoopHead else if phase.Flushing? then Flushing(d) else Writing(d)
  }

  /** One iteration of a write loop: repair, then a short send or a full socket. */
  function DrainStep(cfg: Config, lane: Lane, a: Action): Option<Lane>
    requires Configured(cfg) && Sizes(lane) && Draining(lane.phase)
  {
    var d := lane.phase.drain;
    if d.off >= d.len || d.len > cfg.cap then None
    else if d.steps >= IO_STEP_MAX then
      if a == LoopExit then Some(lane.(phase := Stopped(BytesLeftOver))) else None
    else if a.Send? && 1 <= a.w <= d.len - d.off then
      var r := RepairLane(cfg, lane.img, d.len);
      if !r.ok then Some(lane.(img := r.img, phase := Stopped(PayloadFault)))
      else Some(lane.(img := r.img, sent := lane.sent + r.img.buf[d.off..d.off + a.w],
                      phase := WithDrain(lane.phase, d.(off := d.off + a.w, steps := d.steps + 1))))
    else if a == SendBlocked then
      var r := RepairLane(cfg, lane.img, d.len);
      if !r.ok then Some(lane.(img := r.img, phase := Stopped(PayloadFault)))
      else if d.retries >= IO_RETRY_BUDGET then Some(lane.(img := r.img, phase := Stopped(RetriesSpent)))
      else Some(lane.(img := r.img,
                      phase := WithDrain(lane.phase, d.(retries := d.retries + 1, steps := d.steps + 1))))
    else if a == Leave then
      var r := RepairLane(cfg, lane.img, d.len);
      Some(lane.(img := r.img, phase := Stopped(if r.ok then Ended else PayloadFault)))
    else None
  }

  /** Flips hit sealed codewords only, and never more than `flips` of one codeword. */
  ghost predicate Allowed(cfg: Config, lane: Lane, hit: Image, flips: nat) {
    && cfg.ecc && Near(hit, lane.sealed, lane.eccLen, cfg.cap, flips)
    && |lane.img.buf| == |hit.buf| && |lane.img.ecc| == |hit.ecc|
    && forall p :: ProtectedLen(lane.eccLen, cfg.cap) <= p < |hit.buf| ==> hit.buf[p] == lane.img.buf[p]
  }

  /** A transition of one lane, or `None` where the code cannot take it. */
  ghost function LaneStep(cfg: Config, lane: Lane, a: Action, flips: nat): Option<Lane>
    requires Configured(cfg) && Sizes(lane)
  {
    if a.Flip? then
      if Allowed(cfg, lane, a.hit, flips) then Some(lane.(img := a.hit)) else None
    else
      match lane.phase
      case Collecting(n) =>
        if a.PrefaceChunk? && a.data != [] && n + |a.data| <= cfg.cap then
          var img := lane.img.(buf := Overwrite(lane.img.buf, n, a.data));
          Some(lane.(img := img, received := lane.received + a.data, sealed := img,
                     phase := Collecting(n + |a.data|)))
        else if a == PrefaceReady && n <= cfg.cap then
          if n == 0 then Some(lane.(phase := LoopHead))
          else Some(SealLane(cfg, lane, n).(phase := Flushing(Drain(n, 0, 0, 0))))
        else if a == Leave then Some(lane.(phase := Stopped(Ended)))
        else None
      case LoopHead =>
        if a.PumpRead? && 1 <= |a.data| <= cfg.cap then
          var read := lane.(img := lane.img.(buf := Overwrite(lane.img.buf, 0, a.data)),
                            received := lane.received + a.data);
          Some(SealLane(cfg, read, |a.data|).(phase := Writing(Drain(|a.data|, 0, 0, 0))))
        else if a == Leave then Some(lane.(phase := Stopped(Ended)))
        else None
      case Flushing(_) => DrainStep(cfg, lane, a)
      case Writing(_) => DrainStep(cfg, lane, a)
      case Stopped(_) => None
  }

  // -- the session: two lanes and the watchdog

  datatype Session = Session(toServer: Lane, toClient: Lane)

  datatype Label = ToServer(a: Action) | ToClient(a: Action) | Scrub

  datatype Scrubbed = Scrubbed(ok: bool, session: Session)

  /** The watchdog repairs both directions up to their sealed lengths, client side first. */
  function ScrubSession(cfg: Config, s: Session): Scrubbed
    requires Configured(cfg)
    requires Fits(s.toServer.img, s.toServer.eccLen, cfg.cap) && Fits(s.toClient.img, s.toClient.eccLen, cfg.cap)
  {
    if !cfg.ecc then Scrubbed(true, s)
    else
      var r := Repair(cfg.code, s.toServer.img, s.toServer.eccLen, cfg.cap);
      var s1 := s.(toServer := s.toServer.(img := r.img));
      if !r.ok then Scrubbed(false, s1)
      else
        var q := Repair(cfg.code, s.toClient.img, s.toClient.eccLen, cfg.cap);
        Scrubbed(q.ok, s1.(toClient := s.toClient.(img := q.img)))
  }

  predicate Shaped(cfg: Config, s: Session) {
    && Sizes(s.toServer) && s.toServer.eccLen <= cfg.cap
    && Sizes(s.toClient) && s.toClient.eccLen <= cfg.cap
  }

  ghost function Step(cfg: Config, s: Session, l: Label, flips: nat): Option<Session>
    requires Configured(cfg) && Shaped(cfg, s)
  {
    match l
    case ToServer(a) =>
      var r := LaneStep(cfg, s.toServer, a, flips);
      if r.Some? then Some(s.(toServer := r.value)) else None
    case ToClient(a) =>
      var r := LaneStep(cfg, s.toClient, a, flips);
      if r.Some? then Some(s.(toClient := r.value)) else None
    case Scrub => Some(ScrubSession(cfg, s).session)
  }

  // -- the invariant

  /** The unsent tail of the chunk that is being written. */
  function Owed(lane: Lane): seq<byte> {
    if Draining(lane.phase) && lane.phase.drain.off <= lane.phase.drain.len <= |lane.sealed.buf|
    then lane.sealed.buf[lane.phase.drain.off..lane.phase.drain.len]
    else []
  }

  ghost predicate DrainInv(cfg: Config, lane: Lane) {
    Draining(lane.phase) ==>
      var d := lane.phase.drain;
      && d.off < d.len <= cfg.cap && (cfg.ecc ==> lane.eccLen == d.len)
      && d.retries <= IO_RETRY_BUDGET && d.steps <= d.off + d.retries
  }

  /** Codes agree with the sealed image up to `flips` flips; without codes memory is exact. */
  ghost predicate MemoryInv(cfg: Config, lane: Lane, flips: nat) {
    && Sizes(lane) && lane.eccLen <= cfg.cap
    && |lane.sealed.buf| == BUFFER_SIZE && |lane.sealed.ecc| == WORD_COUNT_MAX
    && (cfg.ecc ==> Consistent(cfg.code, lane.sealed, lane.eccLen, cfg.cap)
                    && Near(lane.img, lane.sealed, lane.eccLen, cfg.cap, flips))
    && (!cfg.ecc ==> lane.eccLen == 0 && lane.img.buf == lane.sealed.buf)
  }

  ghost predicate StreamInv(lane: Lane) {
    && (lane.phase.Collecting? ==>
          lane.phase.n <= |lane.img.buf| && lane.received == lane.img.buf[..lane.phase.n]
          && lane.sent == [] && lane.eccLen == 0)
    && (!lane.phase.Collecting? && !lane.phase.Stopped? ==> lane.received == lane.sent + Owed(lane))
    && lane.sent <= lane.received
    && lane.phase != Stopped(BytesLeftOver)
  }

  ghost predicate LaneInv(cfg: Config, lane: Lane, flips: nat) {
    MemoryInv(cfg, lane, flips) && DrainInv(cfg, lane) && StreamInv(lane)
  }

  ghost predicate Inv(cfg: Config, s: Session, flips: nat) {
    LaneInv(cfg, s.toServer, flips) && LaneInv(cfg, s.toClient, flips)
  }

  lemma FreshLane(cfg: Config, preface: bool, flips: nat)
    requires Configured(cfg)
    ensures LaneInv(cfg, Fresh(preface), flips)
  {
  }

  /** Repairing a lane restores what was sealed or reports; it never adds a flip. */
  lemma LaneRepair(cfg: Config, lane: Lane, flips: nat, len: nat)
    requires Configured(cfg) && cfg.code.Sound() && flips <= 2 && MemoryInv(cfg, lane, flips)
    requires len <= cfg.cap && (cfg.ecc ==> len == lane.eccLen)
    ensures var r := RepairLane(cfg, lane.img, len);
            && MemoryInv(cfg, lane.(img := r.img), flips)
            && (r.ok <==> !cfg.ecc || Near(lane.img, lane.sealed, lane.eccLen, cfg.cap, 1))
            && (r.ok ==> r.img.buf[..len] == lane.sealed.buf[..len])
  {
    hide Repair, At, Consistent;
    if cfg.ecc {
      assert Near(lane.img, lane.sealed, len, cfg.cap, 2);
      RepairRestores(cfg.code, lane.img, lane.sealed, len, cfg.cap);
      var r := Repair(cfg.code, lane.img, len, cfg.cap);
      RepairStaysNear(cfg.code, lane.img, lane.sealed, len, cfg.cap, flips);
      if r.ok {
        AgreesOnPayload(r.img, lane.sealed, len, cfg.cap);
      }
    }
  }

  /** What a send takes from a repaired buffer is the next part of the chunk. */
  lemma SendTakesOwed(lane: Lane, buf: seq<byte>, w: nat)
    requires Draining(lane.phase) && lane.phase.drain.off + w <= lane.phase.drain.len <= |lane.sealed.buf|
    requires lane.phase.drain.len <= |buf|
    requires buf[..lane.phase.drain.len] == lane.sealed.buf[..lane.phase.drain.len]
    ensures var d := lane.phase.drain;
            Owed(lane) == buf[d.off..d.off + w] + lane.sealed.buf[d.off + w..d.len]
  {
    var d := lane.phase.drain;
    forall p | d.off <= p < d.len ensures buf[p] == lane.sealed.buf[p] {
      assert buf[..d.len][p] == lane.sealed.buf[..d.len][p];
    }
  }

  /** Only the memory of the lane is repaired; the rest of the step touches no memory. */
  lemma DrainMemory(cfg: Config, lane: Lane, a: Action, flips: nat)
    requires Configured(cfg) && cfg.code.Sound() && flips <= 2
    requires MemoryInv(cfg, lane, flips) && Draining(lane.phase) && DrainInv(cfg, lane)
    requires DrainStep(cfg, lane, a).Some?
    ensures MemoryInv(cfg, DrainStep(cfg, lane, a).value, flips)
  {
    hide RepairLane, Consistent, Near;
    var d := lane.phase.drain;
    LaneRepair(cfg, lane, flips, d.len);
    var next := DrainStep(cfg, lane, a).value;
    var r := RepairLane(cfg, lane.img, d.len);
    assert next.eccLen == lane.eccLen && next.sealed == lane.sealed;
    assert next.img == lane.img || next.img == r.img;
  }

  /** The step budget: iterations never exceed bytes sent plus retries spent. */
  lemma DrainBudget(cfg: Config, lane: Lane, a: Action)
    requires Configured(cfg) && Sizes(lane) && Draining(lane.phase) && DrainInv(cfg, lane)
    requires DrainStep(cfg, lane, a).Some?
    ensures DrainInv(cfg, DrainStep(cfg, lane, a).value)
    ensures DrainStep(cfg, lane, a).value.phase != Stopped(BytesLeftOver)
  {
    hide RepairLane;
  }

  /** The three ways a write step can go, apart from memory. */
  lemma DrainEffect(cfg: Config, lane: Lane, a: Action)
    requires Configured(cfg) && Sizes(lane) && Draining(lane.phase)
    requires DrainStep(cfg, lane, a).Some?
    ensures var next, d := DrainStep(cfg, lane, a).value, lane.phase.drain;
            && next.received == lane.received && next.sealed == lane.sealed && d.off < d.len <= cfg.cap
            && (next.phase.Stopped? ==> next.sent == lane.sent)
            && (!next.phase.Stopped? ==>
                  var r, w := RepairLane(cfg, lane.img, d.len), if a.Send? then a.w else 0;
                  && r.ok && d.off + w <= d.len
                  && next.sent == lane.sent + r.img.buf[d.off..d.off + w]
                  && if d.off + w == d.len then next.phase == LoopHead
                     else Draining(next.phase) && next.phase.drain.len == d.len
                          && next.phase.drain.off == d.off + w)
  {
    hide RepairLane;
  }

  lemma MemorySizes(cfg: Config, lane: Lane, flips: nat)
    requires MemoryInv(cfg, lane, flips)
    ensures Sizes(lane) && lane.eccLen <= cfg.cap && |lane.sealed.buf| == BUFFER_SIZE
  {
  }

  lemma Regroup(received: seq<byte>, sent: seq<byte>, chunk: seq<byte>, rest: seq<byte>)
    requires received == sent + (chunk + rest)
    ensures received == (sent + chunk) + rest && sent + chunk <= received
  {
  }

  lemma StreamAfterSend(lane: Lane, next: Lane, chunk: seq<byte>, rest: seq<byte>)
    requires StreamInv(lane) && Draining(lane.phase) && Owed(lane) == chunk + rest
    requires next.received == lane.received && next.sent == lane.sent + chunk && Owed(next) == rest
    requires next.phase.LoopHead? || Draining(next.phase)
    ensures StreamInv(next)
  {
    hide Owed;
    Regroup(lane.received, lane.sent, chunk, rest);
  }

  lemma OwedAfter(lane: Lane, next: Lane, w: nat)
    requires Draining(lane.phase) && next.sealed == lane.sealed
    requires lane.phase.drain.off + w <= lane.phase.drain.len <= |lane.sealed.buf|
    requires var d := lane.phase.drain;
             if d.off + w == d.len then next.phase == LoopHead
             else Draining(next.phase) && next.phase.drain.len == d.len && next.phase.drain.off == d.off + w
    ensures Owed(next) == lane.sealed.buf[lane.phase.drain.off + w..lane.phase.drain.len]
  {
  }

  /** A step that goes on has sent the next part of the chunk, and owes the rest. */
  lemma DrainOwes(cfg: Config, lane: Lane, a: Action, flips: nat) returns (chunk: seq<byte>, rest: seq<byte>)
    requires Configured(cfg) && cfg.code.Sound() && flips <= 2
    requires MemoryInv(cfg, lane, flips) && Draining(lane.phase) && DrainInv(cfg, lane)
    requires DrainStep(cfg, lane, a).Some? && !DrainStep(cfg, lane, a).value.phase.Stopped?
    ensures var next := DrainStep(cfg, lane, a).value;
            next.sent == lane.sent + chunk && Owed(lane) == chunk + rest && Owed(next) == rest
  {
    MemorySizes(cfg, lane, flips);
    hide RepairLane, DrainStep, MemoryInv, Owed;
    var d := lane.phase.drain;
    DrainEffect(cfg, lane, a);
    LaneRepair(cfg, lane, flips, d.len);
    var r := RepairLane(cfg, lane.img, d.len);
    var w := if a.Send? then a.w else 0;
    SendTakesOwed(lane, r.img.buf, w);
    OwedAfter(lane, DrainStep(cfg, lane, a).value, w);
    chunk, rest := r.img.buf[d.off..d.off + w], lane.sealed.buf[d.off + w..d.len];
  }

  lemma DrainStream(cfg: Config, lane: Lane, a: Action, flips: nat)
    requires Configured(cfg) && cfg.code.Sound() && flips <= 2
    requires MemoryInv(cfg, lane, flips) && Draining(lane.phase) && DrainInv(cfg, lane) && StreamInv(lane)
    requires DrainStep(cfg, lane, a).Some?
    ensures StreamInv(DrainStep(cfg, lane, a).value)
  {
    MemorySizes(cfg, lane, flips);
    hide DrainStep, MemoryInv, DrainInv, Owed;
    DrainEffect(cfg, lane, a);
    DrainBudget(cfg, lane, a);
    var next := DrainStep(cfg, lane, a).value;
    if !next.phase.Stopped? {
      var chunk, rest := DrainOwes(cfg, lane, a, flips);
      StreamAfterSend(lane, next, chunk, rest);
    }
  }

  /** A write step keeps the invariant, and a stop for leftover bytes cannot happen. */
  lemma DrainStepKeeps(cfg: Config, lane: Lane, a: Action, flips: nat)
    requires Configured(cfg) && cfg.code.Sound() && flips <= 2
    requires LaneInv(cfg, lane, flips) && Draining(lane.phase)
    requires DrainStep(cfg, lane, a).Some?
    ensures LaneInv(cfg, DrainStep(cfg, lane, a).value, flips)
  {
    MemorySizes(cfg, lane, flips);
    hide DrainStep, MemoryInv, DrainInv, StreamInv;
    DrainMemory(cfg, lane, a, flips);
    DrainBudget(cfg, lane, a);
    DrainStream(cfg, lane, a, flips);
  }

  /** Sealing fresh bytes gives a consistent image of exactly those bytes. */
  lemma SealLaneKeeps(cfg: Config, lane: Lane, len: nat, flips: nat)
    requires Configured(cfg) && Sizes(lane) && 0 < len <= cfg.cap
    requires !cfg.ecc ==> lane.eccLen == 0
    ensures var s := SealLane(cfg, lane, len);
            && MemoryInv(cfg, s, flips) && s.sealed.buf[..len] == lane.img.buf[..len]
            && s.received == lane.received && s.sent == lane.sent
            && (cfg.ecc ==> s.eccLen == len)
  {
    hide Consistent;
    if cfg.ecc {
      SealIsConsistent(cfg.code, lane.img, len, cfg.cap);
      ConsistentIsNear(cfg.code, Seal(cfg.code, lane.img, len, cfg.cap), len, cfg.cap, flips);
    }
  }

  lemma ConsistentIsNear(code: Secded, img: Image, len: nat, cap: nat, flips: nat)
    requires Fits(img, len, cap)
    ensures Near(img, img, len, cap, flips)
  {
    hide At, Distance;
    forall i | 0 <= i < WordCount(len)
      ensures Distance(At(img, len, cap, i), At(img, len, cap, i)) <= flips
    {
      DistanceZero(At(img, len, cap, i), At(img, len, cap, i));
    }
  }

  lemma LaneStepKeeps(cfg: Config, lane: Lane, a: Action, flips: nat)
    requires Configured(cfg) && cfg.code.Sound() && flips <= 2 && LaneInv(cfg, lane, flips)
    requires LaneStep(cfg, lane, a, flips).Some?
    ensures LaneInv(cfg, LaneStep(cfg, lane, a, flips).value, flips)
  {
    hide SealLane, DrainStep, Consistent, Near;
    if a.Flip? {
      assert lane.phase.Collecting? ==> a.hit.buf == lane.img.buf;
    } else if Draining(lane.phase) {
      DrainStepKeeps(cfg, lane, a, flips);
    } else if lane.phase.Collecting? && a.PrefaceChunk? {
      CollectKeeps(cfg, lane, a.data, flips);
    } else if lane.phase.Collecting? && a == PrefaceReady && lane.phase.n > 0 {
      var n := lane.phase.n;
      SealLaneKeeps(cfg, lane, n, flips);
      assert SealLane(cfg, lane, n).sealed.buf[0..n] == lane.img.buf[..n];
    } else if lane.phase.LoopHead? && a.PumpRead? {
      var read := lane.(img := lane.img.(buf := Overwrite(lane.img.buf, 0, a.data)),
                        received := lane.received + a.data);
      var n := |a.data|;
      SealLaneKeeps(cfg, read, n, flips);
      assert read.img.buf[..n] == a.data;
      assert SealLane(cfg, read, n).sealed.buf[0..n] == a.data;
      assert lane.received == lane.sent;
    }
  }

  /** Collected bytes are not sealed yet; they are exactly what the client sent. */
  lemma CollectKeeps(cfg: Config, lane: Lane, data: seq<byte>, flips: nat)
    requires Configured(cfg) && LaneInv(cfg, lane, flips) && lane.phase.Collecting?
    requires data != [] && lane.phase.n + |data| <= cfg.cap
    ensures LaneInv(cfg, LaneStep(cfg, lane, PrefaceChunk(data), flips).value, flips)
  {
    hide At;
    var n := lane.phase.n;
    var buf := Overwrite(lane.img.buf, n, data);
    assert buf[..n + |data|] == lane.img.buf[..n] + data;
    assert WordCount(0) == 0;
  }

  lemma ScrubKeeps(cfg: Config, s: Session, flips: nat)
    requires Configured(cfg) && cfg.code.Sound() && flips <= 2 && Inv(cfg, s, flips)
    ensures Inv(cfg, ScrubSession(cfg, s).session, flips)
  {
    hide Repair, Consistent, Near;
    ScrubLaneKeeps(cfg, s.toServer, flips);
    ScrubLaneKeeps(cfg, s.toClient, flips);
  }

  lemma ScrubLaneKeeps(cfg: Config, lane: Lane, flips: nat)
    requires Configured(cfg) && cfg.code.Sound() && flips <= 2 && LaneInv(cfg, lane, flips)
    ensures cfg.ecc ==>
      LaneInv(cfg, lane.(img := Repair(cfg.code, lane.img, lane.eccLen, cfg.cap).img), flips)
  {
    hide Consistent, Near;
    LaneRepair(cfg, lane, flips, lane.eccLen);
    assert lane.phase.Collecting? ==> WordCount(lane.eccLen) == 0;
  }

  lemma StepKeeps(cfg: Config, s: Session, l: Label, flips: nat)
    requires Configured(cfg) && cfg.code.Sound() && flips <= 2 && Inv(cfg, s, flips)
    ensures Shaped(cfg, s)
    ensures Step(cfg, s, l, flips).Some? ==> Inv(cfg, Step(cfg, s, l, flips).value, flips)
  {
    MemorySizes(cfg, s.toServer, flips);
    MemorySizes(cfg, s.toClient, flips);
    hide LaneStep, LaneInv, ScrubSession;
    if Step(cfg, s, l, flips).Some? {
      match l {
        case ToServer(a) => LaneStepKeeps(cfg, s.toServer, a, flips);
        case ToClient(a) => LaneStepKeeps(cfg, s.toClient, a, flips);
        case Scrub => ScrubKeeps(cfg, s, flips);
      }
    }
  }

  // -- whole runs

  /** The session after a run of labels, or `None` if some label was not possible. */
  ghost function Run(cfg: Config, labels: seq<Label>, preface: bool, flips: nat): Option<Session>
    requires Configured(cfg)
  {
    if labels == [] then Some(Session(Fresh(preface), Fresh(false)))
    else
      var before := Run(cfg, labels[..|labels| - 1], preface, flips);
      if before.None? || !Shaped(cfg, before.value) then None
      else Step(cfg, before.value, labels[|labels| - 1], flips)
  }

  lemma {:induction false} RunKeepsInv(cfg: Config, labels: seq<Label>, preface: bool, flips: nat)
    requires Configured(cfg) && cfg.code.Sound() && flips <= 2
    requires Run(cfg, labels, preface, flips).Some?
    ensures Inv(cfg, Run(cfg, labels, preface, flips).value, flips)
  {
    hide Step, LaneInv, Shaped;
    if labels == [] {
      FreshLane(cfg, preface, flips);
      FreshLane(cfg, false, flips);
    } else {
      var before := labels[..|labels| - 1];
      RunKeepsInv(cfg, before, preface, flips);
      StepKeeps(cfg, Run(cfg, before, preface, flips).value, labels[|labels| - 1], flips);
    }
  }

  // -- what the peers did, read off the labels alone

  /** The bytes that one read brought. */
  function Brought(a: Action): seq<byte> {
    if a.PrefaceChunk? || a.PumpRead? then a.data else []
  }

  function Accepted(a: Action): nat {
    if a.Send? then a.w else 0
  }

  function ActionsOf(labels: seq<Label>, toServer: bool): seq<Action> {
    if labels == [] then []
    else
      var before, l := ActionsOf(labels[..|labels| - 1], toServer), labels[|labels| - 1];
      match l
      case ToServer(a) => if toServer then before + [a] else before
      case ToClient(a) => if toServer then before else before + [a]
      case Scrub => before
  }

  /** Everything that one peer handed over, in order. */
  function ReadBy(actions: seq<Action>): seq<byte> {
    if actions == [] then [] else ReadBy(actions[..|actions| - 1]) + Brought(actions[|actions| - 1])
  }

  /** The number of bytes that the other peer took. */
  function TakenBy(actions: seq<Action>): nat {
    if actions == [] then 0 else TakenBy(actions[..|actions| - 1]) + Accepted(actions[|actions| - 1])
  }

  /** How often the other peer's socket was full. */
  function BlocksOf(actions: seq<Action>): nat {
    if actions == [] then 0
    else BlocksOf(actions[..|actions| - 1]) + (if actions[|actions| - 1] == SendBlocked then 1 else 0)
  }

  /**
   A lane's two histories are what its labels say; a send that meets a double flip takes nothing.
   It ends only because a peer left, or gives up only after more full sockets than the budget.
   */
  ghost predicate Recorded(lane: Lane, actions: seq<Action>) {
    && lane.received == ReadBy(actions)
    && (lane.phase != Stopped(PayloadFault) ==> |lane.sent| == TakenBy(actions))
    && (lane.phase == Stopped(Ended) ==> Leave in actions)
    && (lane.phase == Stopped(RetriesSpent) ==> BlocksOf(actions) > IO_RETRY_BUDGET)
    && (Draining(lane.phase) ==> lane.phase.drain.retries <= BlocksOf(actions))
  }

  lemma StepIsRecorded(cfg: Config, lane: Lane, a: Action, flips: nat, actions: seq<Action>)
    requires Configured(cfg) && Sizes(lane) && LaneStep(cfg, lane, a, flips).Some? && Recorded(lane, actions)
    ensures Recorded(LaneStep(cfg, lane, a, flips).value, actions + [a])
  {
    hide Allowed, DrainStep, SealLane, ReadBy, TakenBy, BlocksOf;
    OneMoreAction(actions, a);
    if Draining(lane.phase) && !a.Flip? {
      DrainIsRecorded(cfg, lane, a);
    } else if lane.phase.LoopHead? && a.PumpRead? {
      SealKeepsHistory(cfg, lane.(img := lane.img.(buf := Overwrite(lane.img.buf, 0, a.data)),
                                  received := lane.received + a.data), |a.data|);
    } else if lane.phase.Collecting? && a == PrefaceReady && 0 < lane.phase.n <= cfg.cap {
      SealKeepsHistory(cfg, lane, lane.phase.n);
    }
  }

  lemma OneMoreAction(actions: seq<Action>, a: Action)
    ensures ReadBy(actions + [a]) == ReadBy(actions) + Brought(a)
    ensures TakenBy(actions + [a]) == TakenBy(actions) + Accepted(a)
    ensures BlocksOf(actions + [a]) == BlocksOf(actions) + if a == SendBlocked then 1 else 0
    ensures ReadBy(actions) + [] == ReadBy(actions)
  {
    assert (actions + [a])[..|actions|] == actions;
  }

  lemma SealKeepsHistory(cfg: Config, lane: Lane, len: nat)
    requires Configured(cfg) && Fits(lane.img, len, cfg.cap)
    ensures SealLane(cfg, lane, len).received == lane.received && SealLane(cfg, lane, len).sent == lane.sent
  {
    hide Seal;
  }

  lemma DrainIsRecorded(cfg: Config, lane: Lane, a: Action)
    requires Configured(cfg) && Sizes(lane) && Draining(lane.phase) && DrainStep(cfg, lane, a).Some?
    ensures Brought(a) == []
    ensures var next := DrainStep(cfg, lane, a).value;
            var more: nat := if a == SendBlocked then 1 else 0;
            && next.received == lane.received
            && (next.phase != Stopped(PayloadFault) ==> |next.sent| == |lane.sent| + Accepted(a))
            && (next.phase == Stopped(Ended) ==> a == Leave)
            && (next.phase == Stopped(RetriesSpent) ==> lane.phase.drain.retries + more > IO_RETRY_BUDGET)
            && (Draining(next.phase) ==> next.phase.drain.retries == lane.phase.drain.retries + more)
  {
    hide RepairLane;
  }

  lemma {:induction false} RunIsRecorded(cfg: Config, labels: seq<Label>, preface: bool, flips: nat)
    requires Configured(cfg) && Run(cfg, labels, preface, flips).Some?
    ensures var s := Run(cfg, labels, preface, flips).value;
            && Recorded(s.toServer, ActionsOf(labels, true)) && Recorded(s.toClient, ActionsOf(labels, false))
  {
    hide LaneStep, ScrubSession, ReadBy, TakenBy, BlocksOf;
    if labels == [] {
      NothingRecorded(preface);
      NothingRecorded(false);
    } else {
      var before, l := labels[..|labels| - 1], labels[|labels| - 1];
      RunIsRecorded(cfg, before, preface, flips);
      var s := Run(cfg, before, preface, flips).value;
      match l
      case ToServer(a) => StepIsRecorded(cfg, s.toServer, a, flips, ActionsOf(before, true));
      case ToClient(a) => StepIsRecorded(cfg, s.toClient, a, flips, ActionsOf(before, false));
      case Scrub => ScrubKeepsHistory(cfg, s);
    }
  }

  lemma NothingRecorded(preface: bool)
    ensures Recorded(Fresh(preface), [])
  {
  }

  lemma ScrubKeepsHistory(cfg: Config, s: Session)
    requires Configured(cfg) && Shaped(cfg, s)
    ensures var after := ScrubSession(cfg, s).session;
            && after.toServer == s.toServer.(img := after.toServer.img)
            && after.toClient == s.toClient.(img := after.toClient.img)
  {
    hide Repair;
  }

  /** Whatever a pump reads is what it then has to write: all of it, from the start. */
  lemma ReadIsOwed(cfg: Config, lane: Lane, data: seq<byte>, flips: nat)
    requires Configured(cfg) && cfg.code.Sound() && flips <= 2 && LaneInv(cfg, lane, flips)
    requires lane.phase.LoopHead? && 1 <= |data| <= cfg.cap
    ensures var next := LaneStep(cfg, lane, PumpRead(data), flips);
            next.Some? && next.value.phase.Writing? && Owed(next.value) == data
  {
    hide SealLane, Consistent, Near;
    var read := lane.(img := lane.img.(buf := Overwrite(lane.img.buf, 0, data)), received := lane.received + data);
    SealLaneKeeps(cfg, read, |data|, flips);
    assert read.img.buf[..|data|] == data;
  }

  /** A preface that is ready is owed to the server as a whole; without one the pump starts. */
  lemma PrefaceIsOwed(cfg: Config, lane: Lane, flips: nat)
    requires Configured(cfg) && cfg.code.Sound() && flips <= 2 && LaneInv(cfg, lane, flips)
    requires lane.phase.Collecting? && lane.phase.n <= cfg.cap
    ensures var next := LaneStep(cfg, lane, PrefaceReady, flips);
            && next.Some?
            && (lane.received == [] ==> next.value.phase.LoopHead?)
            && (lane.received != [] ==> next.value.phase.Flushing? && Owed(next.value) == lane.received)
  {
    hide SealLane, Consistent, Near;
    if lane.phase.n > 0 {
      SealLaneKeeps(cfg, lane, lane.phase.n, flips);
    }
  }

  /** What a direction may look like at any scheduling point. */
  ghost predicate Faithful(lane: Lane) {
    && lane.sent <= lane.received
    && (lane.phase.LoopHead? ==> lane.sent == lane.received)
    && lane.phase != Stopped(BytesLeftOver)
  }

  /**
   The relay preserves the stream: for every schedule of reads, short sends, full
   sockets, scrubs and up to two flips a codeword, what was sent is a prefix of what
   the one peer handed over, as long as the other peer took, all of it at every loop head,
   and no write loop runs out of steps with bytes left over.
   */
  lemma StreamIsPreserved(cfg: Config, labels: seq<Label>, preface: bool, flips: nat)
    requires Configured(cfg) && cfg.code.Sound() && flips <= 2
    requires Run(cfg, labels, preface, flips).Some?
    ensures var s := Run(cfg, labels, preface, flips).value;
            && Faithful(s.toServer) && Recorded(s.toServer, ActionsOf(labels, true))
            && Faithful(s.toClient) && Recorded(s.toClient, ActionsOf(labels, false))
  {
    hide Recorded;
    RunIsRecorded(cfg, labels, preface, flips);
    RunKeepsInv(cfg, labels, preface, flips);
  }

  /**
   The watchdog's scrub says yes exactly when no codeword of either buffer has two flips, and
   then both buffers are as they were sealed; histories and phases it leaves alone.
   */
  lemma ScrubHeals(cfg: Config, s: Session)
    requires Configured(cfg) && cfg.code.Sound() && cfg.ecc && Inv(cfg, s, 2)
    ensures Shaped(cfg, s)
    ensures var r := ScrubSession(cfg, s);
            var a, b := s.toServer, s.toClient;
            && (r.ok <==> Near(a.img, a.sealed, a.eccLen, cfg.cap, 1) && Near(b.img, b.sealed, b.eccLen, cfg.cap, 1))
            && (r.ok ==> && Agrees(r.session.toServer.img, a.sealed, a.eccLen, cfg.cap)
                         && Agrees(r.session.toClient.img, b.sealed, b.eccLen, cfg.cap))
            && r.session.toServer == a.(img := r.session.toServer.img)
            && r.session.toClient == b.(img := r.session.toClient.img)
  {
    hide Repair, Consistent, Near, Agrees;
    LaneHeals(cfg, s.toServer);
    LaneHeals(cfg, s.toClient);
  }

  lemma LaneHeals(cfg: Config, lane: Lane)
    requires Configured(cfg) && cfg.code.Sound() && cfg.ecc && LaneInv(cfg, lane, 2)
    ensures Fits(lane.img, lane.eccLen, cfg.cap) && Sizes(lane) && lane.eccLen <= cfg.cap
    ensures var r := Repair(cfg.code, lane.img, lane.eccLen, cfg.cap);
            && (r.ok <==> Near(lane.img, lane.sealed, lane.eccLen, cfg.cap, 1))
            && (r.ok ==> Agrees(r.img, lane.sealed, lane.eccLen, cfg.cap))
  {
    hide Repair, Consistent, At;
    RepairRestores(cfg.code, lane.img, lane.sealed, lane.eccLen, cfg.cap);
  }

  lemma LaneStepRaisesNoAlarm(cfg: Config, lane: Lane, a: Action, flips: nat)
    requires Configured(cfg) && cfg.code.Sound() && flips <= 1 && LaneInv(cfg, lane, flips)
    requires LaneStep(cfg, lane, a, flips).Some? && lane.phase != Stopped(PayloadFault)
    ensures LaneStep(cfg, lane, a, flips).value.phase != Stopped(PayloadFault)
  {
    if Draining(lane.phase) && !a.Flip? {
      LaneRepair(cfg, lane, flips, lane.phase.drain.len);
      if cfg.ecc {
        NearWidens(lane.img, lane.sealed, lane.eccLen, cfg.cap, flips);
      }
    }
    hide RepairLane, Consistent, Near, Seal;
  }

  lemma NearWidens(img: Image, sealed: Image, len: nat, cap: nat, flips: nat)
    requires Near(img, sealed, len, cap, flips) && flips <= 1
    ensures Near(img, sealed, len, cap, 1)
  {
    hide Distance, At;
  }

  /** With at most one flip a codeword, no run ever stops a direction for its payload. */
  lemma {:induction false} NoFalseAlarm(cfg: Config, labels: seq<Label>, preface: bool, flips: nat)
    requires Configured(cfg) && cfg.code.Sound() && flips <= 1
    requires Run(cfg, labels, preface, flips).Some?
    ensures var s := Run(cfg, labels, preface, flips).value;
            s.toServer.phase != Stopped(PayloadFault) && s.toClient.phase != Stopped(PayloadFault)
  {
    hide LaneInv, LaneStep, ScrubSession;
    if labels != [] {
      var before, l := labels[..|labels| - 1], labels[|labels| - 1];
      NoFalseAlarm(cfg, before, preface, flips);
      RunKeepsInv(cfg, before, preface, flips);
      var s := Run(cfg, before, preface, flips).value;
      match l
      case ToServer(a) => LaneStepRaisesNoAlarm(cfg, s.toServer, a, flips);
      case ToClient(a) => LaneStepRaisesNoAlarm(cfg, s.toClient, a, flips);
      case Scrub => ScrubKeepsHistory(cfg, s);
    }
  }

  /**
   A write step sends only from a buffer in which no codeword has two flips; with two
   the lane stops and the bytes sent are the bytes sent before.
   */
  lemma DoubleFlipStopsTheLane(cfg: Config, lane: Lane, w: nat)
    requires Configured(cfg) && cfg.code.Sound() && cfg.ecc && LaneInv(cfg, lane, 2)
    requires Draining(lane.phase) && 1 <= w <= lane.phase.drain.len - lane.phase.drain.off
    ensures var next := DrainStep(cfg, lane, Send(w));
            next.Some? &&
            if Near(lane.img, lane.sealed, lane.eccLen, cfg.cap, 1)
            then next.value.sent == lane.sent + Owed(lane)[..w]
                 && (next.value.phase == LoopHead || Draining(next.value.phase))
            else next.value.phase == Stopped(PayloadFault) && next.value.sent == lane.sent
  {
    hide RepairLane, Consistent, Near;
    var d := lane.phase.drain;
    LaneRepair(cfg, lane, 2, d.len);
    var r := RepairLane(cfg, lane.img, d.len);
    if r.ok {
      SendTakesOwed(lane, r.img.buf, w);
    }
  }

  /** Without a flip the image itself is consistent. */
  lemma NearZeroIsConsistent(code: Secded, img: Image, sealed: Image, len: nat, cap: nat)
    requires Consistent(code, sealed, len, cap) && Near(img, sealed, len, cap, 0)
    ensures Consistent(code, img, len, cap)
  {
    hide At, Distance;
    forall i | 0 <= i < WordCount(len) ensures At(img, len, cap, i) == At(sealed, len, cap, i) {
      DistanceZero(At(sealed, len, cap, i), At(img, len, cap, i));
    }
  }

  /**
   In a run without flips every buffer agrees with its codes up to the sealed length at
   every scheduling point, so the watchdog's scrub succeeds and changes nothing.
   */
  lemma ScrubOfFaultFreeRun(cfg: Config, labels: seq<Label>, preface: bool)
    requires Configured(cfg) && cfg.code.Sound()
    requires Run(cfg, labels, preface, 0).Some?
    ensures var s := Run(cfg, labels, preface, 0).value;
            && Shaped(cfg, s)
            && (cfg.ecc ==> Consistent(cfg.code, s.toServer.img, s.toServer.eccLen, cfg.cap)
                            && Consistent(cfg.code, s.toClient.img, s.toClient.eccLen, cfg.cap))
            && ScrubSession(cfg, s) == Scrubbed(true, s)
  {
    hide Consistent, Near;
    RunKeepsInv(cfg, labels, preface, 0);
    var s := Run(cfg, labels, preface, 0).value;
    if cfg.ecc {
      NearZeroIsConsistent(cfg.code, s.toServer.img, s.toServer.sealed, s.toServer.eccLen, cfg.cap);
      NearZeroIsConsistent(cfg.code, s.toClient.img, s.toClient.sealed, s.toClient.eccLen, cfg.cap);
      RepairOfConsistent(cfg.code, s.toServer.img, s.toServer.eccLen, cfg.cap, 0);
      RepairOfConsistent(cfg.code, s.toClient.img, s.toClient.eccLen, cfg.cap, 0);
    }
  }

  // -- the step budget is exactly enough

  /** The slowest peer that is still served: every retry, then one byte at a time. */
  function SlowestAction(k: nat): Action {
    if k < IO_RETRY_BUDGET then SendBlocked else Send(1)
  }

  function SlowestRun(cfg: Config, lane: Lane, k: nat): (r: Option<Lane>)
    requires Configured(cfg)
  {
    if k == 0 then Some(lane)
    else
      var before :- SlowestRun(cfg, lane, k - 1);
      if !Sizes(before) || !Draining(before.phase) then None else DrainStep(cfg, before, SlowestAction(k - 1))
  }

  lemma {:induction false} SlowestState(cfg: Config, lane: Lane, k: nat)
    requires Configured(cfg) && !cfg.ecc && cfg.cap == BUFFER_SIZE && Sizes(lane) && k < IO_STEP_MAX
    requires lane.phase == Writing(Drain(BUFFER_SIZE, 0, 0, 0))
    ensures var r := SlowestRun(cfg, lane, k);
            && r.Some? && Sizes(r.value)
            && r.value.phase == (if k <= IO_RETRY_BUDGET then Writing(Drain(BUFFER_SIZE, 0, k, k))
                                 else Writing(Drain(BUFFER_SIZE, k - IO_RETRY_BUDGET, IO_RETRY_BUDGET, k)))
  {
    if k > 0 {
      SlowestState(cfg, lane, k - 1);
    }
  }

  /**
   A full buffer can take every step of the budget: one step earlier a byte is still owed,
   and the last step sends it.
   */
  lemma BudgetIsTight(cfg: Config, lane: Lane)
    requires Configured(cfg) && !cfg.ecc && cfg.cap == BUFFER_SIZE && Sizes(lane)
    requires lane.phase == Writing(Drain(BUFFER_SIZE, 0, 0, 0))
    ensures var late := SlowestRun(cfg, lane, IO_STEP_MAX - 1);
            && late.Some? && Sizes(late.value)
            && late.value.phase == Writing(Drain(BUFFER_SIZE, BUFFER_SIZE - 1, IO_RETRY_BUDGET, IO_STEP_MAX - 1))
            && var end := SlowestRun(cfg, lane, IO_STEP_MAX);
               end.Some? && end.value.phase == LoopHead
  {
    SlowestState(cfg, lane, IO_STEP_MAX - 1);
  }

  // -- the write loop as it runs

  datatype SendResult = Sent(w: nat) | Full | Failed

  /** Memory as the loop finds it in one iteration, and what the socket answers. */
  datatype Attempt = Attempt(mem: Image, socket: SendResult)

  ghost predicate SealedFor(cfg: Config, sealed: Image, len: nat) {
    Fits(sealed, len, cfg.cap) && (cfg.ecc ==> Consistent(cfg.code, sealed, len, cfg.cap))
  }

  /** Memory is as sealed, up to `flips` flips of a codeword when there are codes. */
  ghost predicate Holds(cfg: Config, mem: Image, sealed: Image, len: nat, flips: nat) {
    if cfg.ecc then Near(mem, sealed, len, cfg.cap, flips)
    else Fits(mem, len, cfg.cap) && mem.buf == sealed.buf
  }

  /** How many of the first `k` attempts found the socket full. */
  function Fulls(attempt: nat -> Attempt, k: nat): nat {
    if k == 0 then 0 else Fulls(attempt, k - 1) + (if attempt(k - 1).socket.Full? then 1 else 0)
  }

  /** How many bytes the first `k` attempts took. */
  function Taken(attempt: nat -> Attempt, k: nat): nat {
    if k == 0 then 0
    else Taken(attempt, k - 1) + (if attempt(k - 1).socket.Sent? then attempt(k - 1).socket.w else 0)
  }

  /** Attempt `i` takes at least a byte and no more than is owed, or finds the socket full. */
  predicate Serves(attempt: nat -> Attempt, len: nat, i: nat) {
    match attempt(i).socket
    case Sent(w) => 1 <= w && Taken(attempt, i) + w <= len
    case Full => true
    case Failed => false
  }

  /** Attempt `i` is made with bytes owed, from repairable memory, and goes well. */
  ghost predicate GoesWell(cfg: Config, sealed: Image, len: nat, attempt: nat -> Attempt, i: nat) {
    Taken(attempt, i) < len && Serves(attempt, len, i) && Holds(cfg, attempt(i).mem, sealed, len, 1)
  }

  /** The first `k` attempts were made and none of them ended the loop. */
  ghost predicate Survived(cfg: Config, sealed: Image, len: nat, attempt: nat -> Attempt, k: nat) {
    && Fulls(attempt, k) <= IO_RETRY_BUDGET && Taken(attempt, k) <= len
    && forall i: nat :: i < k ==> GoesWell(cfg, sealed, len, attempt, i)
  }

  /** What attempt `k`, the last one made, says about why the loop stopped. */
  ghost predicate Explains(cfg: Config, sealed: Image, len: nat, attempt: nat -> Attempt, k: nat,
                           stop: Option<StopReason>) {
    match stop
    case None => Taken(attempt, k) == len
    case Some(reason) =>
      && k < IO_STEP_MAX && Taken(attempt, k) < len
      && match reason
         case PayloadFault => !Holds(cfg, attempt(k).mem, sealed, len, 1)
         case RetriesSpent =>
           && Holds(cfg, attempt(k).mem, sealed, len, 1) && attempt(k).socket.Full?
           && Fulls(attempt, k) == IO_RETRY_BUDGET
         case Ended => Holds(cfg, attempt(k).mem, sealed, len, 1) && !Serves(attempt, len, k)
         case BytesLeftOver => false
  }

  /** A peer that costs no more than the retry budget, fails no send, and meets no double flip. */
  ghost predicate Willing(cfg: Config, sealed: Image, len: nat, attempt: nat -> Attempt) {
    && Fulls(attempt, IO_STEP_MAX) <= IO_RETRY_BUDGET
    && forall i: nat :: i < IO_STEP_MAX && Taken(attempt, i) < len ==> GoesWell(cfg, sealed, len, attempt, i)
  }

  /**
   The drain loop of a pump (and of the preface flush): it makes attempts in order, each of
   which sends owed bytes or spends a retry, and stops only for the reason that its last
   attempt gives; the check for bytes left over never fires.
   */
  method WriteAll(cfg: Config, ghost sealed: Image, len: nat, attempt: nat -> Attempt)
    returns (stop: Option<StopReason>, sent: seq<byte>, ghost made: nat)
    requires Configured(cfg) && cfg.code.Sound() && SealedFor(cfg, sealed, len)
    requires forall k: nat :: Holds(cfg, attempt(k).mem, sealed, len, 2)
    ensures made <= IO_STEP_MAX && Survived(cfg, sealed, len, attempt, made)
    ensures Explains(cfg, sealed, len, attempt, made, stop)
    ensures len <= |sealed.buf| && |sent| == Taken(attempt, made) <= len && sent == sealed.buf[..|sent|]
    ensures stop.None? <==> sent == sealed.buf[..len]
  {
    hide RepairLane, Holds, Survived, Fulls, Taken, Consistent;
    NoneMade(cfg, sealed, len, attempt);
    var off, retries, steps := 0, 0, 0;
    sent := [];
    while off < len && steps < IO_STEP_MAX
      invariant 0 <= off <= len && 0 <= retries <= IO_RETRY_BUDGET && 0 <= steps <= off + retries
      invariant off == Taken(attempt, steps) && retries == Fulls(attempt, steps)
      invariant len <= |sealed.buf| && sent == sealed.buf[..off]
      invariant Survived(cfg, sealed, len, attempt, steps)
      decreases IO_STEP_MAX - steps
    {
      made := steps;
      var now := attempt(steps);
      RepairAttempt(cfg, now.mem, sealed, len);
      var r := RepairLane(cfg, now.mem, len);
      if !r.ok {
        return Some(PayloadFault), sent, made;
      }
      match now.socket {
        case Failed => return Some(Ended), sent, made;
        case Full =>
          if retries >= IO_RETRY_BUDGET {
            return Some(RetriesSpent), sent, made;
          }
          retries := retries + 1;
        case Sent(w) =>
          if w == 0 || w > len - off {
            return Some(Ended), sent, made;
          }
          assert r.img.buf[off..off + w] == r.img.buf[..len][off..off + w];
          assert sealed.buf[off..off + w] == sealed.buf[..len][off..off + w];
          sent := sent + r.img.buf[off..off + w];
          off := off + w;
      }
      OneMore(cfg, sealed, len, attempt, steps);
      steps := steps + 1;
    }
    made := steps;
    if off < len {
      assert false;
    }
    return None, sent, made;
  }

  lemma NoneMade(cfg: Config, sealed: Image, len: nat, attempt: nat -> Attempt)
    ensures Taken(attempt, 0) == 0 && Fulls(attempt, 0) == 0 && Survived(cfg, sealed, len, attempt, 0)
  {
  }

  lemma OneMore(cfg: Config, sealed: Image, len: nat, attempt: nat -> Attempt, k: nat)
    requires Survived(cfg, sealed, len, attempt, k) && Taken(attempt, k) < len && Serves(attempt, len, k)
    requires Holds(cfg, attempt(k).mem, sealed, len, 1)
    requires attempt(k).socket.Full? ==> Fulls(attempt, k) < IO_RETRY_BUDGET
    ensures Survived(cfg, sealed, len, attempt, k + 1)
    ensures var r := attempt(k).socket;
            && Taken(attempt, k + 1) == Taken(attempt, k) + (if r.Sent? then r.w else 0)
            && Fulls(attempt, k + 1) == Fulls(attempt, k) + (if r.Full? then 1 else 0)
  {
    assert GoesWell(cfg, sealed, len, attempt, k);
    hide GoesWell, Holds;
  }

  lemma {:induction false} FullsGrow(attempt: nat -> Attempt, i: nat, k: nat)
    requires i <= k
    ensures Fulls(attempt, i) <= Fulls(attempt, k)
  {
    if i < k {
      FullsGrow(attempt, i, k - 1);
    }
  }

  /**
   The explanation is exact: a willing peer gets everything.  No loop that keeps the contract
   above can stop short of it.
   */
  lemma WillingPeerGetsAll(cfg: Config, sealed: Image, len: nat, attempt: nat -> Attempt, made: nat,
                           stop: Option<StopReason>)
    requires made <= IO_STEP_MAX && Survived(cfg, sealed, len, attempt, made)
    requires Explains(cfg, sealed, len, attempt, made, stop) && Willing(cfg, sealed, len, attempt)
    ensures stop == None
  {
    hide Holds;
    if stop.Some? {
      assert GoesWell(cfg, sealed, len, attempt, made);
      if stop == Some(RetriesSpent) {
        FullsGrow(attempt, made + 1, IO_STEP_MAX);
      }
    }
  }

  lemma NoEarlierStop(cfg: Config, sealed: Image, len: nat, attempt: nat -> Attempt, j: nat, k: nat,
                      stop: Option<StopReason>)
    requires Survived(cfg, sealed, len, attempt, k) && Explains(cfg, sealed, len, attempt, j, stop)
    ensures j >= k
  {
    hide Holds;
    if j < k {
      assert GoesWell(cfg, sealed, len, attempt, j);
      if stop == Some(RetriesSpent) {
        FullsGrow(attempt, j + 1, k);
      }
    }
  }

  /** And it is determined: two loops over the same attempts make as many and stop alike. */
  lemma OneExplanation(cfg: Config, sealed: Image, len: nat, attempt: nat -> Attempt, j: nat, k: nat,
                       stop: Option<StopReason>, other: Option<StopReason>)
    requires Survived(cfg, sealed, len, attempt, j) && Survived(cfg, sealed, len, attempt, k)
    requires Explains(cfg, sealed, len, attempt, j, stop) && Explains(cfg, sealed, len, attempt, k, other)
    ensures j == k && stop == other
  {
    NoEarlierStop(cfg, sealed, len, attempt, j, k, stop);
    NoEarlierStop(cfg, sealed, len, attempt, k, j, other);
    hide Survived, Holds;
  }

  lemma RepairAttempt(cfg: Config, mem: Image, sealed: Image, len: nat)
    requires Configured(cfg) && cfg.code.Sound() && SealedFor(cfg, sealed, len)
    requires Holds(cfg, mem, sealed, len, 2)
    ensures Fits(mem, len, cfg.cap)
    ensures var r := RepairLane(cfg, mem, len);
            && (r.ok <==> Holds(cfg, mem, sealed, len, 1))
            && (r.ok ==> r.img.buf[..len] == sealed.buf[..len])
  {
    hide Repair, Consistent, At;
    if cfg.ecc {
      RepairRestores(cfg.code, mem, sealed, len, cfg.cap);
      var r := Repair(cfg.code, mem, len, cfg.cap);
      if r.ok {
        AgreesOnPayload(r.img, sealed, len, cfg.cap);
      }
    }
  }
}
