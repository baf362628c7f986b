/**
 Sessions as tasks see them: the acceptor, one owner task a session, two pump tasks and
 the slot allocator, interleaved at every point where a task can be suspended.  A record
 in the audit log blocks its caller, so it is two transitions: append, then resume.
 */
module Sessions {
  import opened Bytes

  const MAX_CLIENTS: nat := 256
  const REQUEST_MAX: nat := 0xFFFF_FFFF_FFFF_FFFF

  type Fd = int

  datatype Config = Config(maxClients: nat, ipLimit: nat)

  predicate Configured(cfg: Config) {
    0 < cfg.maxClients <= MAX_CLIENTS
  }

  // -- audit events

  /** A failure before a backend was opened because of the preface is marked. */
  datatype Kind = Accepted | Dropped | Connected | Failed(preface: bool) | Closed

  datatype Event = Event(request: nat, kind: Kind)

  /** The events of one request, in order. */
  function Project(trace: seq<Event>, r: nat): seq<Kind> {
    if trace == [] then []
    else
      var e := trace[|trace| - 1];
      Project(trace[..|trace| - 1], r) + (if e.request == r then [e.kind] else [])
  }

  // -- state

  /** Where the code that owns a slot stands; `Want` records next, `Did` has recorded. */
  datatype Pc =
    | AcceptWant | AcceptDid
    | Start | Preface | OpenSocket | SetupBackend | Connecting | Flushing
    | ConnectWant | ConnectDid | SetupClient | MakeGroup
    | SpawnFirst | SpawnSecond | JoinHalf | JoinBoth
    | FailWant(preface: bool) | FailDid
    | CloseWant | CloseDid

  /** `connected` and `failed` are histories of what the owner has recorded. */
  datatype Slot =
    | Free
    | Active(request: nat, ip: string, client: Fd, backend: Option<Fd>, pc: Pc,
             connected: bool, failed: Option<bool>)

  /** A pump task keeps its own copies of the slot and of both descriptors. */
  datatype Pump = Pump(slot: nat, request: nat, upstream: bool, src: Fd, dst: Fd)

  /** Which request an open descriptor belongs to, and on which side. */
  datatype Holder = Holder(request: nat, client: bool)

  datatype Acceptor = Idle | DropWant(request: nat, fd: Fd) | DropDid(request: nat, fd: Fd) | Assigning(slot: nat)

  datatype State = State(slots: seq<Slot>, free: seq<nat>, open: map<Fd, Holder>, alive: set<Pump>,
                         requests: nat, acceptor: Acceptor, trace: seq<Event>)

  function InitialFree(max: nat): seq<nat> {
    seq(max, i requires 0 <= i < max => max - 1 - i)
  }

  function Initial(cfg: Config): State {
    State(seq(cfg.maxClients, i => Free), InitialFree(cfg.maxClients), map[], {}, 0, Idle, [])
  }

  // -- counting

  function Matches(s: Slot, ip: string): nat {
    if s.Active? && s.ip == ip then 1 else 0
  }

  function CountIp(slots: seq<Slot>, ip: string): nat {
    if slots == [] then 0 else CountIp(slots[..|slots| - 1], ip) + Matches(slots[|slots| - 1], ip)
  }

  function CountActive(slots: seq<Slot>): nat {
    if slots == [] then 0
    else CountActive(slots[..|slots| - 1]) + (if slots[|slots| - 1].Active? then 1 else 0)
  }

  /** The per-address cap; zero or a nameless client means no cap. */
  predicate SessionLimitExceeded(slots: seq<Slot>, ip: string, limit: nat) {
    limit != 0 && ip != "" && CountIp(slots, ip) >= limit
  }

  // -- the allocator

  /** Pushing a slot back, with the three guards that protect the stack. */
  function ReturnToFree(free: seq<nat>, id: nat, max: nat): seq<nat> {
    if id >= max || id in free || |free| >= max then free else free + [id]
  }

  // -- the acceptor

  /** A client arrives: number it, then drop it or hand it a slot, all in one go.  Once numbers run out none arrives. */
  function Arrive(cfg: Config, s: State, ip: string, fd: Fd, rateOk: bool, setupOk: bool): Option<State> {
    if s.acceptor != Idle || fd in s.open || s.requests >= REQUEST_MAX then None
    else
      var r := s.requests + 1;
      var s1 := s.(requests := r, open := s.open[fd := Holder(r, true)]);
      if !rateOk || SessionLimitExceeded(s.slots, ip, cfg.ipLimit) || !setupOk || s.free == [] then
        Some(s1.(acceptor := DropWant(r, fd)))
      else
        var idx := s.free[|s.free| - 1];
        if idx >= |s.slots| then None
        else Some(s1.(slots := s.slots[idx := Active(r, ip, fd, None, AcceptWant, false, None)],
                      free := s.free[..|s.free| - 1], acceptor := Assigning(idx)))
  }

  function DropStep(s: State): Option<State> {
    match s.acceptor
    case DropWant(r, fd) =>
      Some(s.(trace := s.trace + [Event(r, Dropped)], acceptor := DropDid(r, fd)))
    case DropDid(r, fd) => Some(s.(open := s.open - {fd}, acceptor := Idle))
    case _ => None
  }

  // -- the owner

  /** What one step of the owner does to the world. */
  datatype Effect =
    | Advance(pc: Pc)
    | Record(kind: Kind, pc: Pc)
    | OpenBackend(fd: Fd)
    | Spawn(upstream: bool, pc: Pc)
    | Finish
    | Blocked

  /** The owner's program; `ok` is how the next call goes, `busy` that a pump still runs. */
  function OwnerEffect(slot: Slot, ok: bool, fd: Fd, busy: bool): Effect
    requires slot.Active?
  {
    match slot.pc
    case AcceptWant => Record(Accepted, AcceptDid)
    case AcceptDid => Advance(if ok then Start else FailWant(false))
    case Start => Advance(if ok then Preface else FailWant(false))
    case Preface => Advance(if ok then OpenSocket else FailWant(true))
    case OpenSocket => if ok then OpenBackend(fd) else Advance(FailWant(false))
    case SetupBackend => Advance(if ok then Connecting else FailWant(false))
    case Connecting => Advance(if ok then Flushing else FailWant(false))
    case Flushing => Advance(if ok then ConnectWant else FailWant(false))
    case ConnectWant => Record(Connected, ConnectDid)
    case ConnectDid => Advance(SetupClient)
    case SetupClient => Advance(if ok then MakeGroup else FailWant(false))
    case MakeGroup => Advance(if ok then SpawnFirst else FailWant(false))
    case SpawnFirst => if ok then Spawn(true, SpawnSecond) else Advance(FailWant(false))
    case SpawnSecond => if ok then Spawn(false, JoinBoth) else Advance(JoinHalf)
    case JoinHalf => if busy then Blocked else Advance(FailWant(false))
    case JoinBoth => if busy then Blocked else Advance(CloseWant)
    case FailWant(preface) => Record(Failed(preface), FailDid)
    case FailDid => Advance(CloseWant)
    case CloseWant => Record(Closed, CloseDid)
    case CloseDid => Finish
  }

  /** A pump of this slot's session is still running: `join` has to wait. */
  ghost predicate Busy(s: State, i: nat)
    requires i < |s.slots| && s.slots[i].Active?
  {
    exists p :: p in s.alive && p.slot == i && p.request == s.slots[i].request
  }

  function AfterEffect(slot: Slot, e: Effect): Slot
    requires slot.Active?
  {
    match e
    case Advance(pc) => slot.(pc := pc)
    case Record(kind, pc) =>
      slot.(pc := pc, connected := slot.connected || kind == Connected,
            failed := if kind.Failed? then Some(kind.preface) else slot.failed)
    case OpenBackend(fd) => slot.(backend := Some(fd), pc := SetupBackend)
    case Spawn(_, pc) => slot.(pc := pc)
    case Finish => Free
    case Blocked => slot
  }

  /** Closing: both descriptors, then the slot, then the free list. */
  function CloseFds(open: map<Fd, Holder>, slot: Slot): map<Fd, Holder>
    requires slot.Active?
  {
    open - {slot.client} - (if slot.backend.Some? then {slot.backend.value} else {})
  }

  /** A freshly spawned acceptor slot is handed to its task, or closed by the acceptor. */
  function AcceptorAfter(s: State, i: nat, slot: Slot, e: Effect): Acceptor {
    if s.acceptor == Assigning(i) && (e == Advance(Start) || e == Finish) then Idle else s.acceptor
  }

  ghost function OwnerStep(cfg: Config, s: State, i: nat, ok: bool, fd: Fd): Option<State> {
    if i >= |s.slots| || s.slots[i].Free? then None
    else
      var slot := s.slots[i];
      var e := OwnerEffect(slot, ok, fd, Busy(s, i));
      var s1 := s.(slots := s.slots[i := AfterEffect(slot, e)], acceptor := AcceptorAfter(s, i, slot, e));
      match e
      case Advance(_) => Some(s1)
      case Record(kind, _) => Some(s1.(trace := s.trace + [Event(slot.request, kind)]))
      case OpenBackend(_) =>
        if fd in s.open then None else Some(s1.(open := s.open[fd := Holder(slot.request, false)]))
      case Spawn(upstream, _) =>
        if slot.backend.None? then None
        else
          var b := slot.backend.value;
          Some(s1.(alive := s.alive + {Pump(i, slot.request, upstream,
                                            if upstream then slot.client else b,
                                            if upstream then b else slot.client)}))
      case Finish =>
        Some(s1.(open := CloseFds(s.open, slot), free := ReturnToFree(s.free, i, cfg.maxClients)))
      case Blocked => None
  }

  // -- runs

  datatype Label =
    | Arrival(ip: string, fd: Fd, rateOk: bool, setupOk: bool)
    | Dropping
    | Owner(i: nat, ok: bool, fd: Fd)
    | PumpEnds(p: Pump)

  ghost function Step(cfg: Config, s: State, l: Label): Option<State> {
    match l
    case Arrival(ip, fd, rateOk, setupOk) => Arrive(cfg, s, ip, fd, rateOk, setupOk)
    case Dropping => DropStep(s)
    case Owner(i, ok, fd) => OwnerStep(cfg, s, i, ok, fd)
    case PumpEnds(p) => if p in s.alive then Some(s.(alive := s.alive - {p})) else None
  }

  ghost function Run(cfg: Config, labels: seq<Label>): Option<State> {
    if labels == [] then Some(Initial(cfg))
    else
      var before := Run(cfg, labels[..|labels| - 1]);
      if before.None? then None else Step(cfg, before.value, labels[|labels| - 1])
  }

  // -- invariants

  predicate EarlyPc(pc: Pc) {
    pc.AcceptWant? || pc.AcceptDid? || pc.Start? || pc.Preface? || pc.OpenSocket?
  }

  predicate ConnectedPc(pc: Pc) {
    pc.ConnectDid? || pc.SetupClient? || pc.MakeGroup? || pc.SpawnFirst? || PumpingPc(pc)
  }

  predicate EndingPc(pc: Pc) {
    pc.FailWant? || pc.FailDid? || pc.CloseWant? || pc.CloseDid?
  }

  /** The owner may have pumps running only here. */
  predicate PumpingPc(pc: Pc) {
    pc.SpawnSecond? || pc.JoinHalf? || pc.JoinBoth?
  }

  /** What a slot's fields say about where its owner stands. */
  predicate PcInv(slot: Slot)
    requires slot.Active?
  {
    && (EarlyPc(slot.pc) ==> slot.backend.None?)
    && (!EarlyPc(slot.pc) && !EndingPc(slot.pc) ==> slot.backend.Some?)
    && (!EndingPc(slot.pc) ==> (slot.connected <==> ConnectedPc(slot.pc)))
    && (slot.pc == FailWant(true) ==> !slot.connected)
    && (!EndingPc(slot.pc) || slot.pc.FailWant? ==> slot.failed.None?)
    && (slot.pc.FailDid? ==> slot.failed.Some?)
    && (slot.pc.CloseWant? || slot.pc.CloseDid? ==> slot.connected || slot.failed.Some?)
    && (slot.failed == Some(true) ==> !slot.connected)
  }

  /** The events that an open session has recorded so far. */
  function History(slot: Slot): seq<Kind>
    requires slot.Active?
  {
    (if slot.pc.AcceptWant? then [] else [Accepted])
    + (if slot.connected then [Connected] else [])
    + (if slot.failed.Some? then [Failed(slot.failed.value)] else [])
    + (if slot.pc.CloseDid? then [Closed] else [])
  }

  /** The owner's program keeps its own bookkeeping. */
  lemma EffectKeepsPc(slot: Slot, ok: bool, fd: Fd, busy: bool)
    requires slot.Active? && PcInv(slot)
    ensures var e := OwnerEffect(slot, ok, fd, busy);
            var after := AfterEffect(slot, e);
            && (e == Finish <==> slot.pc.CloseDid?)
            && (e != Finish ==> after.Active? && PcInv(after) && after.request == slot.request
                                && after.ip == slot.ip && after.client == slot.client)
            && (e.Spawn? ==> slot.backend.Some?)
            && (!e.OpenBackend? && e != Finish ==> after.backend == slot.backend)
  {
    hide History;
  }

  /** Pumps run only while the owner spawns and joins; leaving that needs them all gone. */
  lemma EffectAndPumps(slot: Slot, ok: bool, fd: Fd, busy: bool)
    requires slot.Active?
    ensures var e := OwnerEffect(slot, ok, fd, busy);
            var after := AfterEffect(slot, e);
            && (e.Spawn? ==> after.Active? && PumpingPc(after.pc))
            && (PumpingPc(slot.pc) && busy && e != Blocked ==> after.Active? && PumpingPc(after.pc))
            && (PumpingPc(slot.pc) ==> e != Finish)
  {
  }

  /** A recorded event is the next one of the session's history. */
  lemma EffectRecordsHistory(slot: Slot, ok: bool, fd: Fd, busy: bool)
    requires slot.Active? && PcInv(slot)
    ensures var e := OwnerEffect(slot, ok, fd, busy);
            e != Finish ==>
              History(AfterEffect(slot, e)) == History(slot) + (if e.Record? then [e.kind] else [])
  {
  }

  // -- allocator

  predicate Distinct(xs: seq<nat>) {
    forall i, j :: 0 <= i < j < |xs| ==> xs[i] != xs[j]
  }

  /** The stack holds exactly the free slots, each once. */
  ghost predicate AllocInv(cfg: Config, s: State) {
    && |s.slots| == cfg.maxClients && |s.free| + CountActive(s.slots) == cfg.maxClients
    && Distinct(s.free)
    && (forall k :: 0 <= k < |s.free| ==> s.free[k] < cfg.maxClients)
    && (forall i :: 0 <= i < |s.slots| ==> (s.slots[i].Free? <==> i in s.free))
  }

  lemma {:induction false} CountActiveUpdate(slots: seq<Slot>, i: nat, v: Slot)
    requires i < |slots|
    ensures CountActive(slots[i := v]) + (if slots[i].Active? then 1 else 0)
         == CountActive(slots) + (if v.Active? then 1 else 0)
  {
    var n := |slots| - 1;
    if i == n {
      assert slots[i := v][..n] == slots[..n];
    } else {
      assert slots[i := v][..n] == slots[..n][i := v];
      CountActiveUpdate(slots[..n], i, v);
    }
  }

  lemma {:induction false} CountIpUpdate(slots: seq<Slot>, i: nat, v: Slot, ip: string)
    requires i < |slots|
    ensures CountIp(slots[i := v], ip) + Matches(slots[i], ip) == CountIp(slots, ip) + Matches(v, ip)
  {
    var n := |slots| - 1;
    if i == n {
      assert slots[i := v][..n] == slots[..n];
    } else {
      assert slots[i := v][..n] == slots[..n][i := v];
      CountIpUpdate(slots[..n], i, v, ip);
    }
  }

  /** Popping the stack: neither guard of the pop loop can fire. */
  lemma PopIsFree(cfg: Config, s: State)
    requires AllocInv(cfg, s) && s.free != []
    ensures var idx := s.free[|s.free| - 1];
            idx < cfg.maxClients && s.slots[idx].Free?
  {
  }

  /** Pushing an active slot: none of the three guards can fire. */
  lemma PushIsAccepted(cfg: Config, s: State, i: nat)
    requires AllocInv(cfg, s) && i < |s.slots| && s.slots[i].Active?
    ensures ReturnToFree(s.free, i, cfg.maxClients) == s.free + [i]
  {
    ActiveIsCounted(s.slots, i);
  }

  lemma {:induction false} ActiveIsCounted(slots: seq<Slot>, i: nat)
    requires i < |slots| && slots[i].Active?
    ensures CountActive(slots) > 0
  {
    if i < |slots| - 1 {
      ActiveIsCounted(slots[..|slots| - 1], i);
    }
  }

  lemma AllocAfterPop(cfg: Config, s: State, after: State, v: Slot)
    requires AllocInv(cfg, s) && s.free != [] && v.Active?
    requires s.free[|s.free| - 1] < |s.slots|
    requires after.slots == s.slots[s.free[|s.free| - 1] := v] && after.free == s.free[..|s.free| - 1]
    ensures AllocInv(cfg, after)
  {
    PopIsFree(cfg, s);
    var n := |s.free| - 1;
    CountActiveUpdate(s.slots, s.free[n], v);
    forall i | 0 <= i < |s.slots| ensures after.slots[i].Free? <==> i in after.free {
      if i in s.free && i != s.free[n] {
        var k :| 0 <= k < |s.free| && s.free[k] == i;
        assert after.free[k] == i;
      }
    }
  }

  lemma AllocAfterPush(cfg: Config, s: State, after: State, i: nat)
    requires AllocInv(cfg, s) && i < |s.slots| && s.slots[i].Active?
    requires after.slots == s.slots[i := Slot.Free] && after.free == ReturnToFree(s.free, i, cfg.maxClients)
    ensures AllocInv(cfg, after)
  {
    PushIsAccepted(cfg, s, i);
    CountActiveUpdate(s.slots, i, Slot.Free);
  }

  lemma AllocAfterUpdate(cfg: Config, s: State, after: State, i: nat, v: Slot)
    requires AllocInv(cfg, s) && i < |s.slots| && s.slots[i].Active? && v.Active?
    requires after.slots == s.slots[i := v] && after.free == s.free
    ensures AllocInv(cfg, after)
  {
    CountActiveUpdate(s.slots, i, v);
  }

  lemma InitialAlloc(cfg: Config)
    requires Configured(cfg)
    ensures AllocInv(cfg, Initial(cfg))
  {
    var s := Initial(cfg);
    NoneActive(s.slots);
    forall i | 0 <= i < cfg.maxClients ensures i in s.free {
      assert s.free[cfg.maxClients - 1 - i] == i;
    }
  }

  lemma {:induction false} NoneActive(slots: seq<Slot>)
    requires forall i :: 0 <= i < |slots| ==> slots[i].Free?
    ensures CountActive(slots) == 0
    ensures forall ip :: CountIp(slots, ip) == 0
  {
    if slots != [] {
      NoneActive(slots[..|slots| - 1]);
    }
  }

  lemma StepKeepsAlloc(cfg: Config, s: State, l: Label)
    requires Configured(cfg) && AllocInv(cfg, s) && SlotsInv(s) && Step(cfg, s, l).Some?
    ensures AllocInv(cfg, Step(cfg, s, l).value)
  {
    hide AllocInv, Busy, CountActive, CountIp;
    var after := Step(cfg, s, l).value;
    match l {
      case Arrival(ip, fd, rateOk, setupOk) =>
        if after.acceptor.Assigning? {
          AllocAfterPop(cfg, s, after, Active(s.requests + 1, ip, fd, None, AcceptWant, false, None));
        } else {
          AllocSame(cfg, s, after);
        }
      case Owner(i, ok, fd) =>
        var slot := s.slots[i];
        EffectKeepsPc(slot, ok, fd, Busy(s, i));
        var e := OwnerEffect(slot, ok, fd, Busy(s, i));
        hide OwnerEffect, AfterEffect, PcInv;
        if e == Finish {
          FinishFrees(slot);
          AllocAfterPush(cfg, s, after, i);
        } else {
          AllocAfterUpdate(cfg, s, after, i, AfterEffect(slot, e));
        }
      case _ =>
        AllocSame(cfg, s, after);
    }
  }

  lemma FinishFrees(slot: Slot)
    requires slot.Active?
    ensures AfterEffect(slot, Finish) == Slot.Free
  {
  }

  lemma AllocSame(cfg: Config, s: State, after: State)
    requires AllocInv(cfg, s) && after.slots == s.slots && after.free == s.free
    ensures AllocInv(cfg, after)
  {
  }

  // -- slots, descriptors and pumps

  /** An open session's owner is in step with its fields and holds its own descriptors. */
  ghost predicate SlotOk(s: State, slot: Slot) {
    slot.Active? ==>
      && PcInv(slot) && 1 <= slot.request <= s.requests
      && slot.client in s.open && s.open[slot.client] == Holder(slot.request, true)
      && (slot.backend.Some? ==> slot.backend.value in s.open
                                 && s.open[slot.backend.value] == Holder(slot.request, false))
  }

  ghost predicate SlotsInv(s: State) {
    && (forall i :: 0 <= i < |s.slots| ==> SlotOk(s, s.slots[i]))
    && (forall i, j :: 0 <= i < j < |s.slots| && s.slots[i].Active? && s.slots[j].Active? ==>
          s.slots[i].request != s.slots[j].request)
  }

  /** A running pump's slot is the session it was spawned for, with the same descriptors. */
  ghost predicate PumpOk(s: State, p: Pump) {
    p.slot < |s.slots|
    && var slot := s.slots[p.slot];
       && slot.Active? && slot.request == p.request && PumpingPc(slot.pc) && slot.backend.Some?
       && (if p.upstream then p.src == slot.client && p.dst == slot.backend.value
           else p.src == slot.backend.value && p.dst == slot.client)
  }

  ghost predicate PumpsInv(s: State) {
    forall p :: p in s.alive ==> PumpOk(s, p)
  }

  // -- who holds what

  predicate AtAccept(pc: Pc) {
    pc.AcceptWant? || pc.AcceptDid?
  }

  /** A client still in the acceptor's hands is the newest one, and nobody else's. */
  ghost predicate AcceptorInv(s: State) {
    && (forall i :: 0 <= i < |s.slots| && s.slots[i].Active? && AtAccept(s.slots[i].pc) ==>
          s.acceptor == Assigning(i))
    && match s.acceptor
       case Idle => true
       case Assigning(k) => k < |s.slots| && s.slots[k].Active? && s.slots[k].request == s.requests
       case DropWant(r, fd) => BeingDropped(s, r, fd)
       case DropDid(r, fd) => BeingDropped(s, r, fd)
  }

  ghost predicate BeingDropped(s: State, r: nat, fd: Fd) {
    && 1 <= r == s.requests && fd in s.open && s.open[fd] == Holder(r, true)
    && (forall i :: 0 <= i < |s.slots| && s.slots[i].Active? ==> s.slots[i].request < r)
  }

  lemma SlotsAfterArrival(cfg: Config, s: State, l: Label)
    requires AllocInv(cfg, s) && SlotsInv(s) && l.Arrival? && Step(cfg, s, l).Some?
    ensures SlotsInv(Step(cfg, s, l).value)
  {
    hide AllocInv, CountActive, CountIp, SessionLimitExceeded;
  }

  lemma SlotsAfterDrop(cfg: Config, s: State)
    requires SlotsInv(s) && AcceptorInv(s) && DropStep(s).Some?
    ensures SlotsInv(DropStep(s).value)
  {
    hide PcInv;
  }

  /** Closing a session leaves every other session's descriptors open. */
  lemma SlotsAfterFinish(cfg: Config, s: State, after: State, i: nat)
    requires SlotsInv(s) && i < |s.slots| && s.slots[i].Active?
    requires after.slots == s.slots[i := Slot.Free] && after.open == CloseFds(s.open, s.slots[i])
    requires after.requests == s.requests
    ensures SlotsInv(after)
  {
    hide PcInv;
    forall j | 0 <= j < |s.slots| ensures SlotOk(after, after.slots[j]) {
      assert SlotOk(s, s.slots[i]) && SlotOk(s, s.slots[j]);
      if j < i || j > i {
        assert s.slots[j].Active? ==> s.slots[i].request != s.slots[j].request;
      }
    }
  }

  lemma SlotsAfterUpdate(cfg: Config, s: State, after: State, i: nat, v: Slot)
    requires SlotsInv(s) && i < |s.slots| && s.slots[i].Active? && v.Active?
    requires v.request == s.slots[i].request && after.slots == s.slots[i := v] && after.requests == s.requests
    requires SlotOk(after, v)
    requires forall fd :: fd in s.open ==> fd in after.open && after.open[fd] == s.open[fd]
    ensures SlotsInv(after)
  {
    hide PcInv;
    forall j | 0 <= j < |s.slots| ensures SlotOk(after, after.slots[j]) {
      assert SlotOk(s, s.slots[j]);
      if j != i && s.slots[j].Active? {
        SlotOkKept(s, after, s.slots[j]);
      }
    }
  }

  lemma SlotOkKept(s: State, after: State, slot: Slot)
    requires slot.Active? && SlotOk(s, slot) && after.requests == s.requests
    requires forall fd :: fd in s.open ==> fd in after.open && after.open[fd] == s.open[fd]
    ensures SlotOk(after, slot)
  {
    hide PcInv;
    assert slot.client in after.open;
    if slot.backend.Some? {
      var b := slot.backend.value;
      assert b in s.open && b in after.open;
    }
  }

  lemma StepKeepsSlots(cfg: Config, s: State, l: Label)
    requires Configured(cfg) && AllocInv(cfg, s) && SlotsInv(s) && AcceptorInv(s) && Step(cfg, s, l).Some?
    ensures SlotsInv(Step(cfg, s, l).value)
  {
    hide AllocInv, AcceptorInv, Busy, CountActive, CountIp;
    var after := Step(cfg, s, l).value;
    match l {
      case Arrival(_, _, _, _) => SlotsAfterArrival(cfg, s, l);
      case Dropping => SlotsAfterDrop(cfg, s);
      case Owner(i, ok, fd) =>
        var slot := s.slots[i];
        EffectKeepsPc(slot, ok, fd, Busy(s, i));
        var e := OwnerEffect(slot, ok, fd, Busy(s, i));
        FinishFrees(slot);
        OpenBackendTakes(slot, ok, fd, Busy(s, i));
        hide OwnerEffect, AfterEffect, PcInv;
        if e == Finish {
          SlotsAfterFinish(cfg, s, after, i);
        } else {
          SlotsAfterUpdate(cfg, s, after, i, AfterEffect(slot, e));
        }
      case PumpEnds(_) =>
    }
  }

  lemma OpenBackendTakes(slot: Slot, ok: bool, fd: Fd, busy: bool)
    requires slot.Active?
    ensures var e := OwnerEffect(slot, ok, fd, busy);
            e.OpenBackend? ==> e.fd == fd && AfterEffect(slot, e).Active? && AfterEffect(slot, e).backend == Some(fd)
  {
  }

  /** The owner never enters the acceptor's part of the program. */
  lemma EffectLeavesAccept(slot: Slot, ok: bool, fd: Fd, busy: bool)
    requires slot.Active?
    ensures var e := OwnerEffect(slot, ok, fd, busy);
            var after := AfterEffect(slot, e);
            && (after.Active? && AtAccept(after.pc) ==> AtAccept(slot.pc) && e != Advance(Start))
            && (after.Active? ==> !after.pc.AcceptWant?)
  {
  }

  lemma AcceptorAfterArrival(cfg: Config, s: State, l: Label)
    requires SlotsInv(s) && AcceptorInv(s) && l.Arrival? && Step(cfg, s, l).Some?
    ensures AcceptorInv(Step(cfg, s, l).value)
  {
    hide PcInv, SessionLimitExceeded;
    assert forall i :: 0 <= i < |s.slots| ==> SlotOk(s, s.slots[i]);
  }

  lemma AcceptorAfterOwner(s: State, after: State, i: nat, v: Slot, e: Effect)
    requires SlotsInv(s) && AcceptorInv(s) && i < |s.slots| && s.slots[i].Active?
    requires after.slots == s.slots[i := v] && after.requests == s.requests
    requires after.acceptor == AcceptorAfter(s, i, s.slots[i], e)
    requires v.Active? ==> v.request == s.slots[i].request
    requires v.Free? <==> e == Finish
    requires v.Active? && AtAccept(v.pc) ==> AtAccept(s.slots[i].pc) && e != Advance(Start)
    requires s.acceptor.DropWant? || s.acceptor.DropDid? ==>
               s.acceptor.fd in after.open && s.acceptor.fd in s.open
               && after.open[s.acceptor.fd] == s.open[s.acceptor.fd]
    ensures AcceptorInv(after)
  {
    hide PcInv, SlotOk;
  }

  /** An owner's step leaves a descriptor that is about to be dropped alone. */
  lemma DropFdSurvives(cfg: Config, s: State, i: nat, ok: bool, fd: Fd)
    requires SlotsInv(s) && AcceptorInv(s) && (s.acceptor.DropWant? || s.acceptor.DropDid?)
    requires OwnerStep(cfg, s, i, ok, fd).Some?
    ensures var after := OwnerStep(cfg, s, i, ok, fd).value;
            s.acceptor.fd in after.open && s.acceptor.fd in s.open
            && after.open[s.acceptor.fd] == s.open[s.acceptor.fd]
  {
    hide Busy, PcInv;
    assert SlotOk(s, s.slots[i]);
    var e := OwnerEffect(s.slots[i], ok, fd, Busy(s, i));
    OpenBackendTakes(s.slots[i], ok, fd, Busy(s, i));
    hide OwnerEffect, AfterEffect, AcceptorAfter, ReturnToFree;
  }

  lemma StepKeepsAcceptor(cfg: Config, s: State, l: Label)
    requires Configured(cfg) && SlotsInv(s) && AcceptorInv(s) && Step(cfg, s, l).Some?
    ensures AcceptorInv(Step(cfg, s, l).value)
  {
    var after := Step(cfg, s, l).value;
    match l {
      case Arrival(_, _, _, _) => AcceptorAfterArrival(cfg, s, l);
      case Dropping => hide SlotsInv;
      case Owner(i, ok, fd) =>
        hide Busy, AcceptorInv;
        var slot := s.slots[i];
        assert SlotOk(s, slot);
        EffectKeepsPc(slot, ok, fd, Busy(s, i));
        var e := OwnerEffect(slot, ok, fd, Busy(s, i));
        FinishFrees(slot);
        EffectLeavesAccept(slot, ok, fd, Busy(s, i));
        if s.acceptor.DropWant? || s.acceptor.DropDid? {
          DropFdSurvives(cfg, s, i, ok, fd);
        }
        hide OwnerEffect, AfterEffect, PcInv, SlotsInv, CloseFds, AcceptorAfter, ReturnToFree;
        AcceptorAfterOwner(s, after, i, AfterEffect(slot, e), e);
      case PumpEnds(_) => hide SlotsInv;
    }
  }

  // -- pumps

  lemma PumpsAfterUpdate(s: State, after: State, i: nat, v: Slot, e: Effect, ok: bool, fd: Fd)
    requires SlotsInv(s) && PumpsInv(s) && i < |s.slots| && s.slots[i].Active?
    requires e == OwnerEffect(s.slots[i], ok, fd, Busy(s, i)) && v == AfterEffect(s.slots[i], e) && e != Blocked
    requires after.slots == s.slots[i := v] && after.alive == s.alive
    ensures PumpsInv(after)
  {
    var slot := s.slots[i];
    assert SlotOk(s, slot);
    EffectKeepsPc(slot, ok, fd, Busy(s, i));
    EffectAndPumps(slot, ok, fd, Busy(s, i));
    OpenBackendIsEarly(slot, ok, fd, Busy(s, i));
    hide OwnerEffect, AfterEffect, PcInv, SlotsInv;
    forall p | p in s.alive ensures PumpOk(after, p) {
      assert PumpOk(s, p);
      if p.slot == i {
        assert Busy(s, i);
      }
    }
  }

  lemma OpenBackendIsEarly(slot: Slot, ok: bool, fd: Fd, busy: bool)
    requires slot.Active?
    ensures OwnerEffect(slot, ok, fd, busy).OpenBackend? ==> !PumpingPc(slot.pc)
  {
  }

  lemma PumpsAfterSpawn(s: State, after: State, i: nat, v: Slot, p: Pump)
    requires i < |s.slots| && PumpsInv(s.(slots := s.slots[i := v]))
    requires after.slots == s.slots[i := v] && after.alive == s.alive + {p}
    requires v.Active? && PumpingPc(v.pc) && v.backend.Some?
    requires p.slot == i && p.request == v.request
    requires if p.upstream then p.src == v.client && p.dst == v.backend.value
             else p.src == v.backend.value && p.dst == v.client
    ensures PumpsInv(after)
  {
    var mid := s.(slots := s.slots[i := v]);
    forall q | q in after.alive ensures PumpOk(after, q) {
      if q in s.alive {
        assert PumpOk(mid, q);
      }
    }
  }

  lemma PumpsAfterOwner(cfg: Config, s: State, i: nat, ok: bool, fd: Fd)
    requires SlotsInv(s) && PumpsInv(s) && OwnerStep(cfg, s, i, ok, fd).Some?
    ensures PumpsInv(OwnerStep(cfg, s, i, ok, fd).value)
  {
    hide Busy;
    var after := OwnerStep(cfg, s, i, ok, fd).value;
    var slot := s.slots[i];
    var e := OwnerEffect(slot, ok, fd, Busy(s, i));
    var v := AfterEffect(slot, e);
    assert SlotOk(s, slot);
    EffectKeepsPc(slot, ok, fd, Busy(s, i));
    EffectAndPumps(slot, ok, fd, Busy(s, i));
    var mid := s.(slots := s.slots[i := v]);
    PumpsAfterUpdate(s, mid, i, v, e, ok, fd);
    hide OwnerEffect, AfterEffect, PcInv, SlotsInv, PumpOk, CloseFds, ReturnToFree;
    if e.Spawn? {
      var p :| after.alive == s.alive + {p} && p.slot == i && p.request == slot.request
               && (if p.upstream then p.src == slot.client && p.dst == slot.backend.value
                   else p.src == slot.backend.value && p.dst == slot.client);
      PumpsAfterSpawn(s, after, i, v, p);
    } else {
      PumpsSame(mid, after);
    }
  }

  lemma PumpsSame(s: State, after: State)
    requires PumpsInv(s) && after.slots == s.slots && after.alive <= s.alive
    ensures PumpsInv(after)
  {
    forall p | p in after.alive ensures PumpOk(after, p) {
      assert PumpOk(s, p);
    }
  }

  lemma StepKeepsPumps(cfg: Config, s: State, l: Label)
    requires AllocInv(cfg, s) && SlotsInv(s) && PumpsInv(s) && Step(cfg, s, l).Some?
    ensures PumpsInv(Step(cfg, s, l).value)
  {
    var after := Step(cfg, s, l).value;
    match l {
      case Arrival(_, _, _, _) =>
        if after.acceptor.Assigning? {
          PopIsFree(cfg, s);
        }
        hide AllocInv, SlotsInv, CountActive, CountIp;
        assert forall p :: p in s.alive ==> PumpOk(s, p);
      case Owner(i, ok, fd) =>
        hide OwnerStep;
        PumpsAfterOwner(cfg, s, i, ok, fd);
      case _ =>
        PumpsSame(s, after);
    }
  }
}
