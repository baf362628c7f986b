/**
 What the audit trail says about requests, over every run of the session machine: request
 numbers arrive in order and without gaps, and every request's own events form one of five
 words, of which an unfinished request shows a prefix.
 */
module Lifecycle {
  import opened Bytes
  import opened Sessions

  // -- words

  /** A session was given a slot, ended in one of four ways, and was closed once. */
  predicate Complete(w: seq<Kind>) {
    || w == [Dropped]
    || w == [Accepted, Failed(true), Closed]
    || w == [Accepted, Failed(false), Closed]
    || w == [Accepted, Connected, Closed]
    || w == [Accepted, Connected, Failed(false), Closed]
  }

  /** The request is still held by a slot. */
  ghost predicate Held(s: State, r: nat) {
    exists i :: 0 <= i < |s.slots| && s.slots[i].Active? && s.slots[i].request == r
  }

  /** The request is being dropped by the acceptor. */
  predicate InDrop(s: State, r: nat) {
    (s.acceptor.DropWant? || s.acceptor.DropDid?) && s.acceptor.request == r
  }

  /** A request that the code is done with. */
  ghost predicate Ended(s: State, r: nat) {
    1 <= r <= s.requests && !Held(s, r) && !InDrop(s, r)
  }

  /** What the trail must show of one request. */
  ghost predicate TraceOk(s: State, r: nat) {
    var w := Project(s.trace, r);
    && (r == 0 || r > s.requests ==> w == [])
    && (forall i :: 0 <= i < |s.slots| && s.slots[i].Active? && s.slots[i].request == r ==> w == History(s.slots[i]))
    && (InDrop(s, r) ==> w == if s.acceptor.DropWant? then [] else [Dropped])
    && (Ended(s, r) ==> Complete(w))
  }

  ghost predicate TraceInv(s: State) {
    forall r :: TraceOk(s, r)
  }

  lemma ProjectAppend(trace: seq<Event>, e: Event, r: nat)
    ensures Project(trace + [e], r) == Project(trace, r) + (if e.request == r then [e.kind] else [])
  {
    assert (trace + [e])[..|trace|] == trace;
  }

  /** A session's word is complete exactly when its close has been recorded. */
  lemma FinishedHistory(slot: Slot)
    requires slot.Active? && PcInv(slot)
    ensures Complete(History(slot)) <==> slot.pc.CloseDid?
  {
    var w := History(slot);
    assert Complete(w) ==> w[|w| - 1] == Dropped || w[|w| - 1] == Closed;
  }

  lemma TraceAfterArrival(cfg: Config, s: State, l: Label, r: nat)
    requires AllocInv(cfg, s) && SlotsInv(s) && TraceInv(s) && l.Arrival? && Step(cfg, s, l).Some?
    ensures TraceOk(Step(cfg, s, l).value, r)
  {
    assert TraceOk(s, r);
    var after := Step(cfg, s, l).value;
    assert forall i :: 0 <= i < |s.slots| ==> SlotOk(s, s.slots[i]);
    hide AllocInv, SlotsInv, CountActive, CountIp, PcInv, Project, SessionLimitExceeded, Complete, TraceInv;
    if after.acceptor.Assigning? {
      PopIsFree(cfg, s);
      TraceAfterAssign(s, after, l.ip, l.fd, after.acceptor.slot, r);
    } else {
      assert after.slots == s.slots;
      assert Held(after, r) <==> Held(s, r);
    }
  }

  lemma TraceAfterAssign(s: State, after: State, ip: string, fd: Fd, idx: nat, r: nat)
    requires TraceOk(s, r) && idx < |s.slots| && s.slots[idx].Free? && s.acceptor == Idle
    requires forall i :: 0 <= i < |s.slots| && s.slots[i].Active? ==> s.slots[i].request <= s.requests
    requires after.slots == s.slots[idx := Active(s.requests + 1, ip, fd, None, AcceptWant, false, None)]
    requires after.requests == s.requests + 1 && after.acceptor == Assigning(idx) && after.trace == s.trace
    ensures TraceOk(after, r)
  {
    hide Project, Complete;
    assert after.slots[idx].request == s.requests + 1;
    assert Held(after, s.requests + 1);
    if Held(s, r) {
      var i :| 0 <= i < |s.slots| && s.slots[i].Active? && s.slots[i].request == r;
      assert after.slots[i] == s.slots[i];
    }
  }

  lemma TraceAfterDrop(cfg: Config, s: State, r: nat)
    requires AcceptorInv(s) && TraceInv(s) && DropStep(s).Some?
    ensures TraceOk(DropStep(s).value, r)
  {
    hide History;
    assert TraceOk(s, r);
    var after := DropStep(s).value;
    if s.acceptor.DropWant? {
      ProjectAppend(s.trace, Event(s.acceptor.request, Dropped), r);
    }
    hide Project;
    assert Held(after, r) <==> Held(s, r);
  }

  lemma TraceAfterFinish(s: State, after: State, i: nat, r: nat)
    requires SlotsInv(s) && TraceInv(s) && i < |s.slots| && s.slots[i].Active? && s.slots[i].pc.CloseDid?
    requires after.slots == s.slots[i := Slot.Free] && after.trace == s.trace && after.requests == s.requests
    requires !InDrop(s, s.slots[i].request)
    requires after.acceptor == s.acceptor || (s.acceptor.Assigning? && after.acceptor == Idle)
    ensures TraceOk(after, r)
  {
    assert TraceOk(s, r) && SlotOk(s, s.slots[i]);
    FinishedHistory(s.slots[i]);
    hide History, Project, PcInv, Complete;
    if Held(s, r) && s.slots[i].request != r {
      var j :| 0 <= j < |s.slots| && s.slots[j].Active? && s.slots[j].request == r;
      assert after.slots[j] == s.slots[j];
    }
  }

  /** The request whose slot moved: its word grows with its history. */
  lemma TraceOfMoved(s: State, after: State, i: nat, v: Slot, recorded: Option<Kind>)
    requires SlotsInv(s) && TraceInv(s) && i < |s.slots| && s.slots[i].Active?
    requires v.Active? && v.request == s.slots[i].request && after.slots == s.slots[i := v]
    requires after.requests == s.requests && !InDrop(after, v.request)
    requires after.trace == s.trace + (if recorded.Some? then [Event(v.request, recorded.value)] else [])
    requires History(v) == History(s.slots[i]) + (if recorded.Some? then [recorded.value] else [])
    ensures TraceOk(after, v.request)
  {
    assert TraceOk(s, v.request) && SlotOk(s, s.slots[i]);
    assert forall j :: 0 <= j < |s.slots| && s.slots[j].Active? && s.slots[j].request == v.request ==> j == i;
    hide SlotsInv, TraceInv, History, Complete, PcInv;
    if recorded.Some? {
      ProjectAppend(s.trace, Event(v.request, recorded.value), v.request);
    } else {
      assert after.trace == s.trace;
    }
    hide Project;
    assert after.slots[i].request == v.request;
    assert Held(after, v.request);
  }

  /** Any other request: nothing about it changed. */
  lemma TraceOfOther(s: State, after: State, i: nat, v: Slot, recorded: Option<Kind>, r: nat)
    requires TraceOk(s, r) && i < |s.slots| && s.slots[i].Active?
    requires v.Active? && v.request == s.slots[i].request != r && after.slots == s.slots[i := v]
    requires after.requests == s.requests
    requires after.acceptor == s.acceptor || (s.acceptor.Assigning? && after.acceptor == Idle)
    requires after.trace == s.trace + (if recorded.Some? then [Event(v.request, recorded.value)] else [])
    ensures TraceOk(after, r)
  {
    hide History, Complete;
    if recorded.Some? {
      ProjectAppend(s.trace, Event(v.request, recorded.value), r);
    } else {
      assert after.trace == s.trace;
    }
    assert Project(after.trace, r) == Project(s.trace, r);
    hide Project;
    forall j | 0 <= j < |s.slots| && after.slots[j].Active? && after.slots[j].request == r
      ensures after.slots[j] == s.slots[j]
    {
    }
    if Held(s, r) {
      var j :| 0 <= j < |s.slots| && s.slots[j].Active? && s.slots[j].request == r;
      assert after.slots[j] == s.slots[j];
    }
  }

  lemma TraceAfterOwner(cfg: Config, s: State, i: nat, ok: bool, fd: Fd, r: nat)
    requires SlotsInv(s) && AcceptorInv(s) && TraceInv(s) && OwnerStep(cfg, s, i, ok, fd).Some?
    ensures TraceOk(OwnerStep(cfg, s, i, ok, fd).value, r)
  {
    hide Busy, TraceOk, Held;
    var after := OwnerStep(cfg, s, i, ok, fd).value;
    var slot := s.slots[i];
    assert SlotOk(s, slot);
    EffectKeepsPc(slot, ok, fd, Busy(s, i));
    EffectRecordsHistory(slot, ok, fd, Busy(s, i));
    FinishFrees(slot);
    assert !InDrop(s, slot.request);
    var e := OwnerEffect(slot, ok, fd, Busy(s, i));
    hide OwnerEffect, AfterEffect, PcInv, SlotsInv, History, CloseFds, ReturnToFree, AcceptorInv;
    if e == Finish {
      TraceAfterFinish(s, after, i, r);
    } else {
      var recorded := if e.Record? then Some(e.kind) else None;
      if !e.Record? {
        assert after.trace == s.trace + [];
      }
      if r == slot.request {
        TraceOfMoved(s, after, i, AfterEffect(slot, e), recorded);
      } else {
        assert TraceOk(s, r);
        TraceOfOther(s, after, i, AfterEffect(slot, e), recorded, r);
      }
    }
  }

  lemma StepKeepsTrace(cfg: Config, s: State, l: Label)
    requires Configured(cfg) && AllocInv(cfg, s) && SlotsInv(s) && AcceptorInv(s) && TraceInv(s)
    requires Step(cfg, s, l).Some?
    ensures TraceInv(Step(cfg, s, l).value)
  {
    hide AllocInv, SlotsInv, AcceptorInv, Arrive, OwnerStep, DropStep;
    var after := Step(cfg, s, l).value;
    forall r ensures TraceOk(after, r) {
      match l
      case Arrival(_, _, _, _) => TraceAfterArrival(cfg, s, l, r);
      case Dropping => TraceAfterDrop(cfg, s, r);
      case Owner(i, ok, fd) => TraceAfterOwner(cfg, s, i, ok, fd, r);
      case PumpEnds(_) =>
        hide Project, History;
        assert TraceOk(s, r);
        assert Held(after, r) <==> Held(s, r);
    }
  }

  // -- arrivals

  /** The numbers of the requests that were accepted or dropped, in trail order. */
  function Arrivals(trace: seq<Event>): seq<nat> {
    if trace == [] then []
    else
      var e := trace[|trace| - 1];
      Arrivals(trace[..|trace| - 1]) + (if e.kind.Accepted? || e.kind.Dropped? then [e.request] else [])
  }

  function UpTo(n: nat): seq<nat> {
    if n == 0 then [] else UpTo(n - 1) + [n]
  }

  /** The newest request has a number but no event yet. */
  ghost predicate Unrecorded(s: State) {
    s.acceptor.DropWant?
    || (s.acceptor.Assigning? && s.acceptor.slot < |s.slots| && s.slots[s.acceptor.slot].Active?
        && s.slots[s.acceptor.slot].pc.AcceptWant?)
  }

  ghost predicate ArrivalInv(s: State) {
    && (Unrecorded(s) ==> s.requests > 0)
    && Arrivals(s.trace) == UpTo(if Unrecorded(s) && s.requests > 0 then s.requests - 1 else s.requests)
  }

  lemma ArrivalsAppend(trace: seq<Event>, e: Event)
    ensures Arrivals(trace + [e]) == Arrivals(trace) + (if e.kind.Accepted? || e.kind.Dropped? then [e.request] else [])
  {
    assert (trace + [e])[..|trace|] == trace;
  }

  /** `Accepted` is recorded by a slot in the acceptor's hands, and by nothing else. */
  lemma EffectAndAccept(slot: Slot, ok: bool, fd: Fd, busy: bool)
    requires slot.Active?
    ensures var e := OwnerEffect(slot, ok, fd, busy);
            && (slot.pc.AcceptWant? <==> e.Record? && e.kind == Accepted)
            && !(e.Record? && e.kind == Dropped)
            && (slot.pc.AcceptWant? ==> e != Advance(Start) && e != Finish)
            && (AfterEffect(slot, e).Active? ==> !AfterEffect(slot, e).pc.AcceptWant?)
  {
  }

  lemma ArrivalsAfterUpdate(s: State, after: State, i: nat, v: Slot, recorded: Option<Kind>)
    requires AcceptorInv(s) && ArrivalInv(s) && i < |s.slots| && s.slots[i].Active?
    requires after.slots == s.slots[i := v] && after.requests == s.requests
    requires v.Active? ==> !v.pc.AcceptWant?
    requires after.acceptor == s.acceptor || (s.acceptor == Assigning(i) && after.acceptor == Idle)
    requires s.slots[i].pc.AcceptWant? <==> recorded == Some(Accepted)
    requires recorded != Some(Dropped)
    requires after.trace == s.trace + (if recorded.Some? then [Event(s.slots[i].request, recorded.value)] else [])
    ensures ArrivalInv(after)
  {
    if recorded.Some? {
      ArrivalsAppend(s.trace, Event(s.slots[i].request, recorded.value));
    } else {
      assert after.trace == s.trace;
    }
    hide Arrivals, BeingDropped;
    if s.slots[i].pc.AcceptWant? {
      assert AtAccept(s.slots[i].pc);
      assert s.acceptor == Assigning(i);
    }
  }

  lemma ArrivalsAfterOwner(cfg: Config, s: State, i: nat, ok: bool, fd: Fd)
    requires AcceptorInv(s) && ArrivalInv(s) && OwnerStep(cfg, s, i, ok, fd).Some?
    ensures ArrivalInv(OwnerStep(cfg, s, i, ok, fd).value)
  {
    hide Busy, AcceptorInv, ArrivalInv;
    var after := OwnerStep(cfg, s, i, ok, fd).value;
    var slot := s.slots[i];
    EffectAndAccept(slot, ok, fd, Busy(s, i));
    var e := OwnerEffect(slot, ok, fd, Busy(s, i));
    hide OwnerEffect, AfterEffect, CloseFds, ReturnToFree;
    var recorded := if e.Record? then Some(e.kind) else None;
    if !e.Record? {
      assert after.trace == s.trace + [];
    }
    ArrivalsAfterUpdate(s, after, i, AfterEffect(slot, e), recorded);
  }

  lemma ArrivalsAfterArrival(cfg: Config, s: State, l: Label)
    requires AcceptorInv(s) && ArrivalInv(s) && l.Arrival? && Step(cfg, s, l).Some?
    ensures ArrivalInv(Step(cfg, s, l).value)
  {
    hide SessionLimitExceeded, Arrivals, UpTo;
    assert !Unrecorded(s);
    hide AcceptorInv;
    assert Unrecorded(Step(cfg, s, l).value);
  }

  lemma ArrivalsAfterDrop(s: State)
    requires AcceptorInv(s) && ArrivalInv(s) && DropStep(s).Some?
    ensures ArrivalInv(DropStep(s).value)
  {
    if s.acceptor.DropWant? {
      ArrivalsAppend(s.trace, Event(s.acceptor.request, Dropped));
    }
    hide Arrivals;
  }

  lemma StepKeepsArrivals(cfg: Config, s: State, l: Label)
    requires AcceptorInv(s) && ArrivalInv(s) && Step(cfg, s, l).Some?
    ensures ArrivalInv(Step(cfg, s, l).value)
  {
    hide Arrive, OwnerStep, DropStep, AcceptorInv, Arrivals;
    match l {
      case Owner(i, ok, fd) => ArrivalsAfterOwner(cfg, s, i, ok, fd);
      case Dropping => ArrivalsAfterDrop(s);
      case Arrival(_, _, _, _) => ArrivalsAfterArrival(cfg, s, l);
      case PumpEnds(_) =>
    }
  }

  // -- the per-address cap

  ghost predicate CapInv(cfg: Config, s: State) {
    cfg.ipLimit > 0 ==> forall ip :: ip != "" ==> CountIp(s.slots, ip) <= cfg.ipLimit
  }

  lemma CapAfterArrival(cfg: Config, s: State, l: Label, ip: string)
    requires AllocInv(cfg, s) && CapInv(cfg, s) && l.Arrival? && Step(cfg, s, l).Some?
    requires ip != "" && cfg.ipLimit > 0
    ensures CountIp(Step(cfg, s, l).value.slots, ip) <= cfg.ipLimit
  {
    var after := Step(cfg, s, l).value;
    if after.acceptor.Assigning? {
      PopIsFree(cfg, s);
      hide AllocInv, CountIp;
      CountIpUpdate(s.slots, after.acceptor.slot, after.slots[after.acceptor.slot], ip);
    }
  }

  lemma CapAfterOwner(cfg: Config, s: State, l: Label, ip: string)
    requires SlotsInv(s) && CapInv(cfg, s) && l.Owner? && Step(cfg, s, l).Some?
    requires ip != "" && cfg.ipLimit > 0
    ensures CountIp(Step(cfg, s, l).value.slots, ip) <= cfg.ipLimit
  {
    hide Busy;
    var after := Step(cfg, s, l).value;
    var slot := s.slots[l.i];
    assert SlotOk(s, slot);
    EffectKeepsPc(slot, l.ok, l.fd, Busy(s, l.i));
    FinishFrees(slot);
    hide OwnerEffect, AfterEffect, PcInv, SlotsInv, CloseFds, ReturnToFree, CountIp;
    CountIpUpdate(s.slots, l.i, after.slots[l.i], ip);
  }

  lemma StepKeepsCap(cfg: Config, s: State, l: Label)
    requires AllocInv(cfg, s) && SlotsInv(s) && CapInv(cfg, s) && Step(cfg, s, l).Some?
    ensures CapInv(cfg, Step(cfg, s, l).value)
  {
    hide AllocInv, SlotsInv, Arrive, OwnerStep, CountIp;
    var after := Step(cfg, s, l).value;
    forall ip | ip != "" && cfg.ipLimit > 0 ensures CountIp(after.slots, ip) <= cfg.ipLimit {
      match l
      case Arrival(_, _, _, _) => CapAfterArrival(cfg, s, l, ip);
      case Owner(_, _, _) => CapAfterOwner(cfg, s, l, ip);
      case _ => assert after.slots == s.slots;
    }
  }

  // -- every run

  ghost predicate Inv(cfg: Config, s: State) {
    AllocInv(cfg, s) && SlotsInv(s) && AcceptorInv(s) && PumpsInv(s) && TraceInv(s) && ArrivalInv(s) && CapInv(cfg, s)
  }

  lemma InitialInv(cfg: Config)
    requires Configured(cfg)
    ensures Inv(cfg, Initial(cfg))
  {
    InitialAlloc(cfg);
    NoneActive(Initial(cfg).slots);
    hide AllocInv;
  }

  lemma {:induction false} RunKeepsInv(cfg: Config, labels: seq<Label>)
    requires Configured(cfg) && Run(cfg, labels).Some?
    ensures Inv(cfg, Run(cfg, labels).value)
  {
    hide Step, AllocInv, SlotsInv, AcceptorInv, PumpsInv, TraceInv, ArrivalInv, CapInv, Initial;
    if labels == [] {
      InitialInv(cfg);
    } else {
      var before := labels[..|labels| - 1];
      RunKeepsInv(cfg, before);
      var s, l := Run(cfg, before).value, labels[|labels| - 1];
      StepKeepsAlloc(cfg, s, l);
      StepKeepsSlots(cfg, s, l);
      StepKeepsAcceptor(cfg, s, l);
      StepKeepsPumps(cfg, s, l);
      StepKeepsTrace(cfg, s, l);
      StepKeepsArrivals(cfg, s, l);
      StepKeepsCap(cfg, s, l);
    }
  }

  // -- what a reader of the system may rely on

  /** At every scheduling point the stack is exactly the free slots, and nothing leaks. */
  lemma NoSlotLostOrShared(cfg: Config, labels: seq<Label>)
    requires Configured(cfg) && Run(cfg, labels).Some?
    ensures var s := Run(cfg, labels).value;
            && |s.free| + CountActive(s.slots) == cfg.maxClients == |s.slots|
            && Distinct(s.free)
            && (forall i: nat :: i in s.free <==> i < cfg.maxClients && s.slots[i].Free?)
  {
    RunKeepsInv(cfg, labels);
    var s := Run(cfg, labels).value;
    hide Run, SlotsInv, AcceptorInv, PumpsInv, TraceInv, ArrivalInv, CapInv;
  }

  /** A running pump's slot is still its own session's, and its descriptors are open and its own. */
  lemma PumpsNeverTouchWhatIsGone(cfg: Config, labels: seq<Label>, p: Pump)
    requires Configured(cfg) && Run(cfg, labels).Some? && p in Run(cfg, labels).value.alive
    ensures var s := Run(cfg, labels).value;
            && p.slot < |s.slots| && s.slots[p.slot].Active? && s.slots[p.slot].request == p.request
            && p.slot !in s.free
            && p.src in s.open && s.open[p.src] == Holder(p.request, p.upstream)
            && p.dst in s.open && s.open[p.dst] == Holder(p.request, !p.upstream)
            && (forall q :: q in s.alive && q.slot == p.slot && q.upstream == p.upstream ==> q == p)
  {
    RunKeepsInv(cfg, labels);
    var s := Run(cfg, labels).value;
    hide Run, AcceptorInv, TraceInv, ArrivalInv, CapInv;
    assert PumpOk(s, p);
    assert SlotOk(s, s.slots[p.slot]);
    hide PcInv, SlotsInv;
    assert p.slot !in s.free;
    forall q | q in s.alive && q.slot == p.slot && q.upstream == p.upstream ensures q == p {
      assert PumpOk(s, q);
    }
  }

  /** Request numbers are handed out in order; only the newest may not be on the trail yet. */
  lemma RequestsAreNumberedInOrder(cfg: Config, labels: seq<Label>)
    requires Configured(cfg) && Run(cfg, labels).Some?
    ensures var s := Run(cfg, labels).value;
            Arrivals(s.trace) == UpTo(s.requests) || (s.requests > 0 && Arrivals(s.trace) == UpTo(s.requests - 1))
  {
    RunKeepsInv(cfg, labels);
    hide Run, AllocInv, SlotsInv, AcceptorInv, PumpsInv, TraceInv, CapInv;
  }

  predicate IsPrefix(w: seq<Kind>, whole: seq<Kind>) {
    |w| <= |whole| && whole[..|w|] == w
  }

  lemma HistoryIsPrefix(slot: Slot) returns (whole: seq<Kind>)
    requires slot.Active? && PcInv(slot)
    ensures Complete(whole) && IsPrefix(History(slot), whole)
  {
    if slot.failed.Some? {
      whole := if slot.connected then [Accepted, Connected, Failed(false), Closed]
               else if slot.failed.value then [Accepted, Failed(true), Closed]
               else [Accepted, Failed(false), Closed];
    } else if slot.connected || !EndingPc(slot.pc) {
      whole := [Accepted, Connected, Closed];
    } else {
      whole := [Accepted, Failed(false), Closed];
    }
  }

  /** The request's event trail is over and only its descriptors and slot are left to release. */
  ghost predicate Closing(s: State, r: nat) {
    (s.acceptor.DropDid? && s.acceptor.request == r)
    || exists i :: 0 <= i < |s.slots| && s.slots[i].Active? && s.slots[i].request == r && s.slots[i].pc.CloseDid?
  }

  /**
   The life of every request: its events are a prefix of a complete word, and exactly a
   complete word once the code is done with it.  So an accepted request is closed exactly
   once, a request that failed its preface never has a backend connection, and nothing is
   recorded under a number that was not handed out.
   */
  lemma EveryRequestLivesOneLife(cfg: Config, labels: seq<Label>, r: nat)
    requires Configured(cfg) && Run(cfg, labels).Some?
    ensures var s := Run(cfg, labels).value;
            var w := Project(s.trace, r);
            && (exists whole :: Complete(whole) && IsPrefix(w, whole))
            && (Ended(s, r) ==> Complete(w))
            && (Complete(w) ==> Ended(s, r) || Closing(s, r))
            && (Failed(true) in w ==> Connected !in w)
            && (r == 0 || r > s.requests ==> w == [])
  {
    RunKeepsInv(cfg, labels);
    var s := Run(cfg, labels).value;
    hide Run, AllocInv, AcceptorInv, PumpsInv, ArrivalInv, CapInv;
    assert TraceOk(s, r);
    var w := Project(s.trace, r);
    hide Project;
    if Held(s, r) {
      var i :| 0 <= i < |s.slots| && s.slots[i].Active? && s.slots[i].request == r;
      assert SlotOk(s, s.slots[i]);
      var whole := HistoryIsPrefix(s.slots[i]);
      FinishedHistory(s.slots[i]);
    } else if InDrop(s, r) || r == 0 || r > s.requests {
      assert IsPrefix(w, [Dropped]);
    } else {
      assert IsPrefix(w, w);
    }
  }

  /** No address ever holds more sessions than its cap. */
  lemma SessionCapHolds(cfg: Config, labels: seq<Label>, ip: string)
    requires Configured(cfg) && Run(cfg, labels).Some? && cfg.ipLimit > 0 && ip != ""
    ensures CountIp(Run(cfg, labels).value.slots, ip) <= cfg.ipLimit
  {
    RunKeepsInv(cfg, labels);
    hide Run, AllocInv, SlotsInv, AcceptorInv, PumpsInv, TraceInv, ArrivalInv, CountIp;
  }

  // -- who gets a slot

  /** The slots that an address holds. */
  ghost function HeldBy(slots: seq<Slot>, ip: string): set<nat> {
    set i: nat | i < |slots| && slots[i].Active? && slots[i].ip == ip
  }

  lemma {:induction false} CountIsHeldBy(slots: seq<Slot>, ip: string)
    ensures CountIp(slots, ip) == |HeldBy(slots, ip)|
  {
    if slots == [] {
      assert HeldBy(slots, ip) == {};
    } else {
      var n := |slots| - 1;
      CountIsHeldBy(slots[..n], ip);
      var mine: set<nat> := if slots[n].Active? && slots[n].ip == ip then {n} else {};
      assert HeldBy(slots, ip) == HeldBy(slots[..n], ip) + mine;
    }
  }

  /** One slot that was free now belongs to the new client, with its address and descriptor. */
  ghost predicate GivenSlot(s: State, after: State, ip: string, fd: Fd) {
    && after.acceptor.Assigning? && after.acceptor.slot < |s.slots| && s.slots[after.acceptor.slot].Free?
    && after.slots == s.slots[after.acceptor.slot := Active(s.requests + 1, ip, fd, None, AcceptWant, false, None)]
  }

  /**
   In every reachable state in which the acceptor is free, a client that arrives is numbered,
   and gets a slot exactly when rate and setup allow it, some slot is free, and its address has
   a name and a cap only if it holds fewer sessions than the cap; otherwise it is dropped.
   */
  lemma WhoGetsASlot(cfg: Config, labels: seq<Label>, ip: string, fd: Fd, rateOk: bool, setupOk: bool)
    requires Configured(cfg) && Run(cfg, labels).Some?
    ensures var s := Run(cfg, labels).value;
            var after := Step(cfg, s, Arrival(ip, fd, rateOk, setupOk));
            var served := && rateOk && setupOk && (exists i :: 0 <= i < |s.slots| && s.slots[i].Free?)
                          && (cfg.ipLimit == 0 || ip == "" || |HeldBy(s.slots, ip)| < cfg.ipLimit);
            && (after.Some? <==> s.acceptor == Idle && fd !in s.open && s.requests < REQUEST_MAX)
            && (after.Some? ==>
                  && after.value.requests == s.requests + 1
                  && after.value.open == s.open[fd := Holder(s.requests + 1, true)]
                  && (served ==> GivenSlot(s, after.value, ip, fd))
                  && (!served ==> after.value.acceptor == DropWant(s.requests + 1, fd) && after.value.slots == s.slots))
  {
    RunKeepsInv(cfg, labels);
    var s := Run(cfg, labels).value;
    CountIsHeldBy(s.slots, ip);
    hide Run, SlotsInv, AcceptorInv, PumpsInv, TraceInv, ArrivalInv, CapInv, CountIp, HeldBy, CountActive;
    if s.free != [] {
      PopIsFree(cfg, s);
      assert s.slots[s.free[|s.free| - 1]].Free?;
    }
  }

  // -- descriptors

  /** The descriptor is the client's or the backend's of an open session. */
  ghost predicate SlotHolds(s: State, i: nat, fd: Fd, h: Holder) {
    && i < |s.slots| && s.slots[i].Active? && h.request == s.slots[i].request
    && (if h.client then s.slots[i].client == fd else s.slots[i].backend == Some(fd))
  }

  ghost predicate Accounted(s: State, fd: Fd) {
    && fd in s.open
    && (|| (exists i :: SlotHolds(s, i, fd, s.open[fd]))
        || ((s.acceptor.DropWant? || s.acceptor.DropDid?) && s.acceptor.fd == fd
            && s.open[fd] == Holder(s.acceptor.request, true)))
  }

  ghost predicate FdInv(s: State) {
    forall fd :: fd in s.open ==> Accounted(s, fd)
  }

  lemma FdsAfterArrival(cfg: Config, s: State, l: Label)
    requires AllocInv(cfg, s) && FdInv(s) && l.Arrival? && Step(cfg, s, l).Some?
    ensures FdInv(Step(cfg, s, l).value)
  {
    hide AllocInv, SessionLimitExceeded;
    var after := Step(cfg, s, l).value;
    if after.acceptor.Assigning? {
      PopIsFree(cfg, s);
      assert SlotHolds(after, after.acceptor.slot, l.fd, Holder(after.requests, true));
    }
    forall fd | fd in s.open ensures Accounted(after, fd) {
      assert Accounted(s, fd);
      var i :| SlotHolds(s, i, fd, s.open[fd]);
      assert SlotHolds(after, i, fd, after.open[fd]);
    }
  }

  lemma FdsAfterDrop(s: State)
    requires FdInv(s) && DropStep(s).Some?
    ensures FdInv(DropStep(s).value)
  {
    var after := DropStep(s).value;
    forall fd | fd in after.open ensures Accounted(after, fd) {
      assert Accounted(s, fd);
      if i :| SlotHolds(s, i, fd, s.open[fd]) {
        assert SlotHolds(after, i, fd, after.open[fd]);
      }
    }
  }

  /** A slot that stays open, with a new backend perhaps, still holds what it held. */
  lemma FdsAfterUpdate(s: State, after: State, i: nat, v: Slot)
    requires FdInv(s) && i < |s.slots| && s.slots[i].Active? && v.Active? && after.slots == s.slots[i := v]
    requires v.request == s.slots[i].request && v.client == s.slots[i].client
    requires s.slots[i].backend.Some? ==> v.backend == s.slots[i].backend && after.open == s.open
    requires s.slots[i].backend.None? ==>
               if v.backend.None? then after.open == s.open
               else v.backend.value !in s.open && after.open == s.open[v.backend.value := Holder(v.request, false)]
    requires after.acceptor == s.acceptor || (s.acceptor.Assigning? && after.acceptor == Idle)
    ensures FdInv(after)
  {
    forall fd | fd in after.open ensures Accounted(after, fd) {
      if fd in s.open {
        assert Accounted(s, fd);
        if j :| SlotHolds(s, j, fd, s.open[fd]) {
          assert SlotHolds(after, j, fd, after.open[fd]);
        }
      } else {
        assert SlotHolds(after, i, fd, after.open[fd]);
      }
    }
  }

  /** Closing takes both of the session's descriptors away, and no others. */
  lemma FdsAfterFinish(s: State, after: State, i: nat)
    requires FdInv(s) && i < |s.slots| && s.slots[i].Active? && after.slots == s.slots[i := Slot.Free]
    requires after.open == CloseFds(s.open, s.slots[i])
    requires after.acceptor == s.acceptor || (s.acceptor.Assigning? && after.acceptor == Idle)
    ensures FdInv(after)
  {
    forall fd | fd in after.open ensures Accounted(after, fd) {
      assert Accounted(s, fd);
      if j :| SlotHolds(s, j, fd, s.open[fd]) {
        assert j != i;
        assert SlotHolds(after, j, fd, after.open[fd]);
      }
    }
  }

  lemma FdsAfterOwner(cfg: Config, s: State, i: nat, ok: bool, fd: Fd)
    requires SlotsInv(s) && FdInv(s) && OwnerStep(cfg, s, i, ok, fd).Some?
    ensures FdInv(OwnerStep(cfg, s, i, ok, fd).value)
  {
    hide Busy, FdInv, ReturnToFree, CloseFds;
    var after, slot := OwnerStep(cfg, s, i, ok, fd).value, s.slots[i];
    assert SlotOk(s, slot);
    EffectKeepsPc(slot, ok, fd, Busy(s, i));
    OpenBackendTakes(slot, ok, fd, Busy(s, i));
    OpeningHadNone(slot, ok, fd, Busy(s, i));
    FinishFrees(slot);
    var e := OwnerEffect(slot, ok, fd, Busy(s, i));
    hide OwnerEffect, AfterEffect, PcInv, SlotsInv;
    if e == Finish {
      FdsAfterFinish(s, after, i);
    } else {
      FdsAfterUpdate(s, after, i, AfterEffect(slot, e));
    }
  }

  lemma OpeningHadNone(slot: Slot, ok: bool, fd: Fd, busy: bool)
    requires slot.Active? && PcInv(slot)
    ensures OwnerEffect(slot, ok, fd, busy).OpenBackend? ==> slot.backend.None?
  {
  }

  /**
   No descriptor leaks: in every reachable state each open one is the client's or the
   backend's of an open session of its own request, or the client's that the acceptor is dropping.
   */
  lemma {:induction false} NoDescriptorLeaks(cfg: Config, labels: seq<Label>)
    requires Configured(cfg) && Run(cfg, labels).Some?
    ensures FdInv(Run(cfg, labels).value)
  {
    hide Inv, FdInv, Arrive, DropStep, OwnerStep;
    if labels == [] {
      NothingOpen(cfg);
    } else {
      var before, l := labels[..|labels| - 1], labels[|labels| - 1];
      NoDescriptorLeaks(cfg, before);
      RunKeepsInv(cfg, before);
      var s := Run(cfg, before).value;
      InvParts(cfg, s);
      hide AllocInv, SlotsInv, AcceptorInv, PumpsInv, TraceInv;
      match l
      case Arrival(_, _, _, _) => FdsAfterArrival(cfg, s, l);
      case Dropping => FdsAfterDrop(s);
      case Owner(i, ok, fd) => FdsAfterOwner(cfg, s, i, ok, fd);
      case PumpEnds(p) => FdsSame(s, s.(alive := s.alive - {p}));
    }
  }

  /** Once the code is done with a request, none of its descriptors is open. */
  lemma EndedHoldsNothing(cfg: Config, labels: seq<Label>, r: nat)
    requires Configured(cfg) && Run(cfg, labels).Some? && Ended(Run(cfg, labels).value, r)
    ensures var s := Run(cfg, labels).value;
            forall fd :: fd in s.open ==> s.open[fd].request != r
  {
    hide Run;
    NoDescriptorLeaks(cfg, labels);
    var s := Run(cfg, labels).value;
    forall fd | fd in s.open ensures s.open[fd].request != r {
      assert Accounted(s, fd);
    }
  }

  lemma NothingOpen(cfg: Config)
    ensures FdInv(Initial(cfg))
  {
  }

  lemma FdsSame(s: State, after: State)
    requires FdInv(s) && after == s.(alive := after.alive)
    ensures FdInv(after)
  {
    forall fd | fd in s.open ensures Accounted(after, fd) {
      assert Accounted(s, fd);
      if i :| SlotHolds(s, i, fd, s.open[fd]) {
        assert SlotHolds(after, i, fd, after.open[fd]);
      }
    }
  }

  lemma InvParts(cfg: Config, s: State)
    requires Inv(cfg, s)
    ensures AllocInv(cfg, s) && SlotsInv(s) && AcceptorInv(s) && PumpsInv(s) && TraceInv(s)
  {
    hide AllocInv, SlotsInv, AcceptorInv, PumpsInv, TraceInv, ArrivalInv, CapInv;
  }
}
