/**
 How a session's calls go decides what the trail shows of it: the owner's program as a
 straight list of steps with one way out, against the state machine of `Sessions`.
 */
module Outcomes {
  import opened Bytes
  import opened Sessions
  import opened Lifecycle

  // -- the program, written down a second time

  /** Step `k` of a session for which everything goes well. */
  function Straight(k: nat): Pc
    requires k < STEPS
  {
    if k == 0 then AcceptWant else if k == 1 then AcceptDid else if k == 2 then Start else if k == PREFACE then Preface
    else if k == 4 then OpenSocket else if k == 5 then SetupBackend else if k == 6 then Connecting
    else if k == 7 then Flushing else if k == CONNECTED then ConnectWant else if k == 9 then ConnectDid
    else if k == 10 then SetupClient else if k == 11 then MakeGroup else if k == FIRST_PUMP then SpawnFirst
    else if k == SECOND_PUMP then SpawnSecond else if k == 14 then JoinBoth else if k == CLOSED then CloseWant
    else CloseDid
  }

  const PREFACE: nat := 3
  const CONNECTED: nat := 8
  const FIRST_PUMP: nat := 12
  const SECOND_PUMP: nat := 13
  const CLOSED: nat := 15
  const STEPS: nat := 17

  /** The steps that are calls which can fail; the others record, join or finish. */
  predicate IsCall(k: nat) {
    1 <= k < CONNECTED || 10 <= k <= SECOND_PUMP
  }

  /** The first call that failed, if the owner has come to one. */
  function FirstFailure(oks: seq<bool>): (f: Option<nat>)
    ensures f.Some? ==> f.value < |oks| && IsCall(f.value) && !oks[f.value]
    ensures f.Some? ==> forall j :: 0 <= j < f.value && IsCall(j) ==> oks[j]
    ensures f.None? ==> forall j :: 0 <= j < |oks| && IsCall(j) ==> oks[j]
  {
    if oks == [] then None
    else
      var n := |oks| - 1;
      var f := FirstFailure(oks[..n]);
      if f.Some? then f else if IsCall(n) && !oks[n] then Some(n) else None
  }

  /** The step at which a failure at `k` is recorded: a lone pump is joined first. */
  function FailsAt(k: nat): nat {
    if k == SECOND_PUMP then k + 2 else k + 1
  }

  /** What the trail shows of a session whose owner's steps went like this. */
  function Tale(oks: seq<bool>): seq<Kind> {
    var n := |oks|;
    match FirstFailure(oks)
    case None =>
      (if n > 0 then [Accepted] else []) + (if n > CONNECTED then [Connected] else [])
      + (if n > CLOSED then [Closed] else [])
    case Some(k) =>
      [Accepted] + (if k > CONNECTED then [Connected] else [])
      + (if n > FailsAt(k) then [Failed(k == PREFACE)] else [])
      + (if n > FailsAt(k) + 2 then [Closed] else [])
  }

  predicate Finished(oks: seq<bool>) {
    match FirstFailure(oks)
    case None => |oks| == STEPS
    case Some(k) => |oks| == FailsAt(k) + 4
  }

  /** The owner has spawned the pump of this direction. */
  predicate Reached(oks: seq<bool>, upstream: bool) {
    var k, f := if upstream then FIRST_PUMP else SECOND_PUMP, FirstFailure(oks);
    |oks| > k && (f.None? || f.value > k)
  }

  /** The acceptor itself still holds the session, or has to close it because no task took it. */
  predicate WithAcceptor(oks: seq<bool>) {
    |oks| < 2 || !oks[1]
  }

  // -- the owner's steps, read off a run

  ghost predicate Owns(s: State, i: nat, r: nat) {
    i < |s.slots| && s.slots[i].Active? && s.slots[i].request == r
  }

  /** How the steps of request `r`'s own session went, in order. */
  ghost function OutcomesOf(cfg: Config, labels: seq<Label>, r: nat): seq<bool> {
    if labels == [] then []
    else
      var before, l := labels[..|labels| - 1], labels[|labels| - 1];
      var s := Run(cfg, before);
      OutcomesOf(cfg, before, r) + (if l.Owner? && s.Some? && Owns(s.value, l.i, r) then [l.ok] else [])
  }

  ghost predicate Runs(s: State, r: nat, upstream: bool) {
    exists p :: p in s.alive && p.request == r && p.upstream == upstream
  }

  /** A pump of this direction ran for the request at some point. */
  ghost predicate EverRan(cfg: Config, labels: seq<Label>, r: nat, upstream: bool) {
    var s := Run(cfg, labels);
    || (s.Some? && Runs(s.value, r, upstream))
    || (labels != [] && EverRan(cfg, labels[..|labels| - 1], r, upstream))
  }

  // -- one step of the program

  lemma FailureAfter(oks: seq<bool>, ok: bool)
    ensures var f := FirstFailure(oks);
            FirstFailure(oks + [ok]) == if f.Some? then f
                                        else if IsCall(|oks|) && !ok then Some(|oks|) else None
  {
    assert (oks + [ok])[..|oks|] == oks;
  }

  /** Where the owner stands after these steps. */
  function Place(oks: seq<bool>): Option<Pc> {
    var n := |oks|;
    match FirstFailure(oks)
    case None => if n < STEPS then Some(Straight(n)) else None
    case Some(k) =>
      if n < FailsAt(k) then Some(JoinHalf)
      else if n == FailsAt(k) then Some(FailWant(k == PREFACE))
      else if n == FailsAt(k) + 1 then Some(FailDid)
      else if n == FailsAt(k) + 2 then Some(CloseWant)
      else if n == FailsAt(k) + 3 then Some(CloseDid)
      else None
  }

  predicate Follows(slot: Slot, oks: seq<bool>)
    requires slot.Active?
  {
    var n, f := |oks|, FirstFailure(oks);
    && Place(oks) == Some(slot.pc)
    && (slot.connected <==> n > CONNECTED && (f.None? || f.value > CONNECTED))
    && slot.failed == if f.Some? && n > FailsAt(f.value) then Some(f.value == PREFACE) else None
  }

  lemma FollowsTale(slot: Slot, oks: seq<bool>)
    requires slot.Active? && Follows(slot, oks)
    ensures History(slot) == Tale(oks)
  {
    hide FirstFailure;
  }

  lemma FollowStraight(slot: Slot, oks: seq<bool>, ok: bool, fd: Fd, busy: bool)
    requires slot.Active? && Follows(slot, oks) && FirstFailure(oks).None? && !slot.pc.CloseDid?
    requires OwnerEffect(slot, ok, fd, busy) != Blocked
    ensures var e := OwnerEffect(slot, ok, fd, busy);
            e != Finish && AfterEffect(slot, e).Active? && Follows(AfterEffect(slot, e), oks + [ok])
  {
    hide FirstFailure, Tale, History;
    FailureAfter(oks, ok);
  }

  lemma FollowFailure(slot: Slot, oks: seq<bool>, ok: bool, fd: Fd, busy: bool)
    requires slot.Active? && Follows(slot, oks) && FirstFailure(oks).Some? && !slot.pc.CloseDid?
    requires OwnerEffect(slot, ok, fd, busy) != Blocked
    ensures var e := OwnerEffect(slot, ok, fd, busy);
            e != Finish && AfterEffect(slot, e).Active? && Follows(AfterEffect(slot, e), oks + [ok])
  {
    hide FirstFailure, Tale, History;
    FailureAfter(oks, ok);
  }

  lemma FollowToTheEnd(slot: Slot, oks: seq<bool>, ok: bool, fd: Fd, busy: bool)
    requires slot.Active? && Follows(slot, oks) && slot.pc.CloseDid?
    ensures OwnerEffect(slot, ok, fd, busy) == Finish
    ensures Finished(oks + [ok]) && Tale(oks + [ok]) == Tale(oks)
  {
    hide FirstFailure, History;
    FailureAfter(oks, ok);
  }

  /** The state machine's step is the program's next one. */
  lemma FollowStep(slot: Slot, oks: seq<bool>, ok: bool, fd: Fd, busy: bool)
    requires slot.Active? && Follows(slot, oks) && OwnerEffect(slot, ok, fd, busy) != Blocked
    ensures var e := OwnerEffect(slot, ok, fd, busy);
            if e == Finish then Finished(oks + [ok]) && Tale(oks + [ok]) == Tale(oks)
            else AfterEffect(slot, e).Active? && Follows(AfterEffect(slot, e), oks + [ok])
  {
    hide OwnerEffect, AfterEffect, Follows, FirstFailure, Tale, Finished;
    if slot.pc.CloseDid? {
      FollowToTheEnd(slot, oks, ok, fd, busy);
    } else if FirstFailure(oks).None? {
      FollowStraight(slot, oks, ok, fd, busy);
    } else {
      FollowFailure(slot, oks, ok, fd, busy);
    }
  }

  // -- every run

  /** The request's slot stands where its outcomes say, and its word at the end is their tale. */
  ghost predicate Told(s: State, oks: seq<bool>, r: nat) {
    && (forall i: nat :: Owns(s, i, r) ==>
          Follows(s.slots[i], oks) && (s.acceptor == Assigning(i) <==> WithAcceptor(oks)))
    && (Ended(s, r) ==> || (oks == [] && Project(s.trace, r) == [Dropped])
                        || (Finished(oks) && Project(s.trace, r) == Tale(oks)))
    && (InDrop(s, r) || r == 0 || r > s.requests ==> oks == [])
  }

  lemma HeldIsOwned(s: State, r: nat)
    ensures Held(s, r) <==> exists i: nat :: Owns(s, i, r)
  {
    if Held(s, r) {
      var i :| 0 <= i < |s.slots| && s.slots[i].Active? && s.slots[i].request == r;
      assert Owns(s, i, r);
    }
  }

  /** A new request, with a slot or without, has no outcomes yet; the others are not touched. */
  lemma ToldAfterNew(s: State, after: State, oks: seq<bool>, r: nat)
    requires Told(s, oks, r) && after.requests == s.requests + 1 && after.trace == s.trace && s.acceptor == Idle
    requires forall i: nat :: Owns(after, i, r) && r != after.requests ==> Owns(s, i, r) && after.slots[i] == s.slots[i]
    requires forall i: nat :: Owns(s, i, r) ==> Owns(after, i, r) && r != after.requests
                                                && after.acceptor != Assigning(i)
    requires forall i: nat :: Owns(after, i, after.requests) ==>
               Follows(after.slots[i], []) && after.acceptor == Assigning(i)
    requires (exists i: nat :: Owns(after, i, after.requests)) || InDrop(after, after.requests)
    requires InDrop(after, r) ==> r == after.requests
    ensures Told(after, oks, r)
  {
    hide Follows, Tale, Finished, Project, Owns;
    HeldIsOwned(s, r);
    HeldIsOwned(after, r);
    HeldIsOwned(after, after.requests);
  }

  lemma ToldAfterArrival(cfg: Config, s: State, l: Label, oks: seq<bool>, r: nat)
    requires AllocInv(cfg, s) && SlotsInv(s) && Told(s, oks, r) && l.Arrival? && Step(cfg, s, l).Some?
    ensures Told(Step(cfg, s, l).value, oks, r)
  {
    hide AllocInv, SessionLimitExceeded, PcInv, Told;
    var after := Step(cfg, s, l).value;
    assert forall i :: 0 <= i < |s.slots| ==> SlotOk(s, s.slots[i]);
    hide SlotsInv;
    if after.acceptor.Assigning? {
      var k := after.acceptor.slot;
      PopIsFree(cfg, s);
      FirstPlace(after.slots[k]);
      hide Follows;
      assert Owns(after, k, after.requests);
    }
    hide Follows;
    ToldAfterNew(s, after, oks, r);
  }

  lemma FirstPlace(slot: Slot)
    requires slot.Active? && slot.pc.AcceptWant? && !slot.connected && slot.failed.None?
    ensures Follows(slot, [])
  {
  }

  lemma ToldAfterDrop(s: State, oks: seq<bool>, r: nat)
    requires AcceptorInv(s) && TraceInv(s) && Told(s, oks, r) && DropStep(s).Some?
    ensures Told(DropStep(s).value, oks, r)
  {
    hide Follows, Tale, Finished, History;
    var after := DropStep(s).value;
    assert TraceOk(s, r);
    if s.acceptor.DropWant? {
      ProjectAppend(s.trace, Event(s.acceptor.request, Dropped), r);
    }
    hide Project;
    HeldIsOwned(s, r);
    HeldIsOwned(after, r);
    forall i: nat | Owns(after, i, r) ensures Owns(s, i, r) {
    }
    forall i: nat | Owns(s, i, r) ensures Owns(after, i, r) {
    }
  }

  lemma ToldStill(s: State, after: State, i: nat, v: Slot, oks: seq<bool>, more: seq<bool>)
    requires SlotsInv(s) && i < |s.slots| && s.slots[i].Active? && Told(s, oks, s.slots[i].request)
    requires v.Active? && v.request == s.slots[i].request && after.slots == s.slots[i := v]
    requires Follows(v, more) && after.requests == s.requests && 1 <= v.request <= s.requests
    requires !InDrop(after, v.request) && (after.acceptor == Assigning(i) <==> WithAcceptor(more))
    ensures Told(after, more, v.request)
  {
    assert forall j: nat :: Owns(s, j, v.request) ==> j == i;
    hide SlotsInv, Follows, Tale, Finished, Project, WithAcceptor;
    assert Owns(after, i, v.request);
    HeldIsOwned(after, v.request);
    assert forall j: nat :: Owns(after, j, v.request) ==> j == i || Owns(s, j, v.request);
  }

  lemma ToldFinished(s: State, after: State, i: nat, oks: seq<bool>, more: seq<bool>)
    requires SlotsInv(s) && i < |s.slots| && s.slots[i].Active? && after.slots == s.slots[i := Slot.Free]
    requires after.requests == s.requests && 1 <= s.slots[i].request <= s.requests
    requires !InDrop(after, s.slots[i].request)
    requires Finished(more) && Project(after.trace, s.slots[i].request) == Tale(more)
    ensures Told(after, more, s.slots[i].request)
  {
    var r := s.slots[i].request;
    assert forall j: nat :: Owns(s, j, r) ==> j == i;
    hide SlotsInv, Follows, Tale, Finished, Project, WithAcceptor;
    HeldIsOwned(after, r);
    assert forall j: nat :: Owns(after, j, r) ==> j != i && Owns(s, j, r);
  }

  /** The request whose owner moved. */
  lemma ToldOfMoved(cfg: Config, s: State, oks: seq<bool>, i: nat, ok: bool, fd: Fd)
    requires SlotsInv(s) && AcceptorInv(s) && TraceInv(s) && OwnerStep(cfg, s, i, ok, fd).Some?
    requires Told(s, oks, s.slots[i].request)
    ensures Told(OwnerStep(cfg, s, i, ok, fd).value, oks + [ok], s.slots[i].request)
  {
    hide Busy, Told, Follows, Tale, Finished, History, Project, SlotsInv, TraceInv, AcceptorInv, WithAcceptor,
         OwnerEffect, AfterEffect, CloseFds, ReturnToFree, InDrop, PcInv;
    var after, slot := OwnerStep(cfg, s, i, ok, fd).value, s.slots[i];
    OwnedFacts(s, oks, i);
    EffectKeepsPc(slot, ok, fd, Busy(s, i));
    FollowStep(slot, oks, ok, fd, Busy(s, i));
    FollowsTale(slot, oks);
    FinishFrees(slot);
    StartIsSecond(slot, oks, ok, fd, Busy(s, i));
    var e := OwnerEffect(slot, ok, fd, Busy(s, i));
    NotDropping(s, after, slot.request);
    if e == Finish {
      ToldFinished(s, after, i, oks, oks + [ok]);
    } else {
      ToldStill(s, after, i, AfterEffect(slot, e), oks, oks + [ok]);
    }
  }

  lemma OwnedFacts(s: State, oks: seq<bool>, i: nat)
    requires SlotsInv(s) && AcceptorInv(s) && TraceInv(s) && i < |s.slots| && s.slots[i].Active?
    requires Told(s, oks, s.slots[i].request)
    ensures var slot := s.slots[i];
            && PcInv(slot) && 1 <= slot.request <= s.requests && !InDrop(s, slot.request)
            && Follows(slot, oks) && (s.acceptor == Assigning(i) <==> WithAcceptor(oks))
            && Project(s.trace, slot.request) == History(slot)
  {
    hide Follows, Tale, Finished, History, Project, WithAcceptor, PcInv;
    assert SlotOk(s, s.slots[i]) && Owns(s, i, s.slots[i].request) && TraceOk(s, s.slots[i].request);
  }

  lemma NotDropping(s: State, after: State, r: nat)
    requires !InDrop(s, r) && (after.acceptor == s.acceptor || after.acceptor == Idle)
    ensures !InDrop(after, r)
  {
  }

  /** Only a second step that goes well takes a session out of the acceptor's hands. */
  lemma StartIsSecond(slot: Slot, oks: seq<bool>, ok: bool, fd: Fd, busy: bool)
    requires slot.Active? && Follows(slot, oks)
    ensures var e := OwnerEffect(slot, ok, fd, busy);
            && (e == Advance(Start) <==> |oks| == 1 && ok)
            && (e != Finish && WithAcceptor(oks) ==> (WithAcceptor(oks + [ok]) <==> e != Advance(Start)))
            && (!WithAcceptor(oks) ==> !WithAcceptor(oks + [ok]))
  {
    hide Tale;
    if FirstFailure(oks).None? {
      assert |oks| >= 2 ==> IsCall(1) && oks[1];
    }
    hide FirstFailure;
  }

  /** Any other request is not touched. */
  lemma ToldElsewhere(s: State, after: State, i: nat, v: Slot, oks: seq<bool>, r: nat)
    requires Told(s, oks, r) && i < |s.slots| && s.slots[i].Active? && s.slots[i].request != r
    requires after.slots == s.slots[i := v] && (v.Active? ==> v.request != r) && after.requests == s.requests
    requires after.acceptor == s.acceptor || (s.acceptor == Assigning(i) && after.acceptor == Idle)
    requires Project(after.trace, r) == Project(s.trace, r)
    ensures Told(after, oks, r)
  {
    hide Follows, Tale, Finished, Project, WithAcceptor;
    HeldIsOwned(s, r);
    HeldIsOwned(after, r);
    assert forall j: nat :: Owns(s, j, r) <==> Owns(after, j, r);
    assert forall j: nat :: Owns(s, j, r) ==> after.slots[j] == s.slots[j] && j != i;
  }

  lemma ToldOfOther(cfg: Config, s: State, oks: seq<bool>, i: nat, ok: bool, fd: Fd, r: nat)
    requires SlotsInv(s) && OwnerStep(cfg, s, i, ok, fd).Some?
    requires s.slots[i].request != r && Told(s, oks, r)
    ensures Told(OwnerStep(cfg, s, i, ok, fd).value, oks, r)
  {
    hide Busy, Told, OwnerEffect, AfterEffect, PcInv, SlotsInv, CloseFds, ReturnToFree, Project;
    var after, slot := OwnerStep(cfg, s, i, ok, fd).value, s.slots[i];
    SlotIsOk(s, i);
    EffectKeepsPc(slot, ok, fd, Busy(s, i));
    FinishFrees(slot);
    var e := OwnerEffect(slot, ok, fd, Busy(s, i));
    if e.Record? {
      ProjectAppend(s.trace, Event(slot.request, e.kind), r);
    }
    ToldElsewhere(s, after, i, AfterEffect(slot, e), oks, r);
  }

  lemma SlotIsOk(s: State, i: nat)
    requires SlotsInv(s) && i < |s.slots| && s.slots[i].Active?
    ensures PcInv(s.slots[i])
  {
    hide PcInv;
    assert SlotOk(s, s.slots[i]);
  }

  lemma ToldAfterPump(s: State, p: Pump, oks: seq<bool>, r: nat)
    requires Told(s, oks, r)
    ensures Told(s.(alive := s.alive - {p}), oks, r)
  {
    hide Follows, Tale, Finished, Project;
    var after := s.(alive := s.alive - {p});
    HeldIsOwned(s, r);
    HeldIsOwned(after, r);
    assert forall i: nat :: Owns(after, i, r) <==> Owns(s, i, r);
  }

  lemma NothingTold(cfg: Config, r: nat)
    ensures Told(Initial(cfg), [], r)
  {
  }

  lemma {:induction false} RunIsTold(cfg: Config, labels: seq<Label>, r: nat)
    requires Configured(cfg) && Run(cfg, labels).Some?
    ensures Told(Run(cfg, labels).value, OutcomesOf(cfg, labels, r), r)
  {
    hide Inv, Told, Arrive, OwnerStep, DropStep, Initial;
    if labels == [] {
      NothingTold(cfg, r);
    } else {
      var before, l := labels[..|labels| - 1], labels[|labels| - 1];
      RunIsTold(cfg, before, r);
      RunKeepsInv(cfg, before);
      var s, oks := Run(cfg, before).value, OutcomesOf(cfg, before, r);
      InvParts(cfg, s);
      hide AllocInv, SlotsInv, AcceptorInv, PumpsInv, TraceInv;
      assert oks + [] == oks;
      match l
      case Arrival(_, _, _, _) => ToldAfterArrival(cfg, s, l, oks, r);
      case Dropping => ToldAfterDrop(s, oks, r);
      case Owner(i, ok, fd) =>
        StepperIsActive(cfg, s, i, ok, fd);
        if s.slots[i].request == r {
          ToldOfMoved(cfg, s, oks, i, ok, fd);
        } else {
          ToldOfOther(cfg, s, oks, i, ok, fd, r);
        }
      case PumpEnds(p) => ToldAfterPump(s, p, oks, r);
    }
  }

  // -- pumps

  /** A step that spawns is the one that reaches the pump. */
  lemma SpawnReaches(slot: Slot, oks: seq<bool>, ok: bool, fd: Fd, busy: bool)
    requires slot.Active? && Follows(slot, oks)
    ensures var e := OwnerEffect(slot, ok, fd, busy);
            && (e.Spawn? ==> !Reached(oks, e.upstream))
            && forall up :: Reached(oks + [ok], up) <==> Reached(oks, up) || (e.Spawn? && e.upstream == up)
  {
    FailureAfter(oks, ok);
    hide FirstFailure, Tale;
  }

  lemma RunsAfterOwner(cfg: Config, s: State, i: nat, ok: bool, fd: Fd, r: nat, upstream: bool)
    requires i < |s.slots| && s.slots[i].Active? && OwnerStep(cfg, s, i, ok, fd).Some?
    ensures var e := OwnerEffect(s.slots[i], ok, fd, Busy(s, i));
            Runs(OwnerStep(cfg, s, i, ok, fd).value, r, upstream)
            <==> Runs(s, r, upstream) || (e.Spawn? && e.upstream == upstream && s.slots[i].request == r)
  {
    hide OwnerEffect, AfterEffect, Busy, CloseFds, ReturnToFree, AcceptorAfter;
    var after, e := OwnerStep(cfg, s, i, ok, fd).value, OwnerEffect(s.slots[i], ok, fd, Busy(s, i));
    if Runs(s, r, upstream) {
      var p :| p in s.alive && p.request == r && p.upstream == upstream;
      assert p in after.alive;
    }
    if e.Spawn? && e.upstream == upstream && s.slots[i].request == r {
      var b, c := s.slots[i].backend.value, s.slots[i].client;
      assert Pump(i, r, upstream, if upstream then c else b, if upstream then b else c) in after.alive;
    }
  }

  lemma RunsAfterOthers(cfg: Config, s: State, l: Label, r: nat, upstream: bool)
    requires !l.Owner? && Step(cfg, s, l).Some? && Runs(Step(cfg, s, l).value, r, upstream)
    ensures Runs(s, r, upstream)
  {
    hide SessionLimitExceeded;
  }

  /** A pump of a direction has run for a request exactly when its owner got as far as spawning it. */
  lemma {:induction false} PumpsAreLaunched(cfg: Config, labels: seq<Label>, r: nat, upstream: bool)
    requires Configured(cfg) && Run(cfg, labels).Some?
    ensures EverRan(cfg, labels, r, upstream) <==> Reached(OutcomesOf(cfg, labels, r), upstream)
  {
    hide Step, Runs, Reached, Told, Inv, Initial;
    if labels == [] {
      NothingRuns(cfg, r, upstream);
    } else {
      var before, l := labels[..|labels| - 1], labels[|labels| - 1];
      PumpsAreLaunched(cfg, before, r, upstream);
      RunIsTold(cfg, before, r);
      RunKeepsInv(cfg, before);
      LaunchStep(cfg, Run(cfg, before).value, l, OutcomesOf(cfg, before, r), r, upstream);
    }
  }

  lemma NothingRuns(cfg: Config, r: nat, upstream: bool)
    ensures !Runs(Initial(cfg), r, upstream) && !Reached([], upstream)
  {
  }

  lemma LaunchStep(cfg: Config, s: State, l: Label, oks: seq<bool>, r: nat, upstream: bool)
    requires Step(cfg, s, l).Some? && Told(s, oks, r) && (Runs(s, r, upstream) ==> Reached(oks, upstream))
    ensures var more := oks + (if l.Owner? && Owns(s, l.i, r) then [l.ok] else []);
            && (Reached(oks, upstream) ==> Reached(more, upstream))
            && (Runs(Step(cfg, s, l).value, r, upstream) ==> Reached(more, upstream))
            && (Reached(more, upstream) ==> Reached(oks, upstream) || Runs(Step(cfg, s, l).value, r, upstream))
  {
    hide OwnerStep, Arrive, DropStep, Runs, Reached, Follows, OwnerEffect, Busy, Project, Tale, Finished;
    assert oks + [] == oks;
    match l
    case Owner(i, ok, fd) =>
      StepperIsActive(cfg, s, i, ok, fd);
      RunsAfterOwner(cfg, s, i, ok, fd, r, upstream);
      if Owns(s, i, r) {
        SpawnReaches(s.slots[i], oks, ok, fd, Busy(s, i));
      }
    case _ =>
      if Runs(Step(cfg, s, l).value, r, upstream) {
        RunsAfterOthers(cfg, s, l, r, upstream);
      }
  }

  // -- what a reader of the trail may rely on

  /**
   The trail of every request is the tale of its own session's outcomes, at every point of
   every run; a request without a session shows at most a drop.
   */
  lemma TrailFollowsOutcomes(cfg: Config, labels: seq<Label>, r: nat)
    requires Configured(cfg) && Run(cfg, labels).Some?
    ensures var s, oks := Run(cfg, labels).value, OutcomesOf(cfg, labels, r);
            var w := Project(s.trace, r);
            && (w == Tale(oks) || (oks == [] && w == [Dropped]))
            && (Ended(s, r) ==> w == [Dropped] || Finished(oks))
  {
    RunIsTold(cfg, labels, r);
    RunKeepsInv(cfg, labels);
    var s := Run(cfg, labels).value;
    InvParts(cfg, s);
    hide Run, OutcomesOf, AllocInv, SlotsInv, AcceptorInv, PumpsInv, Project, Inv, Follows, History;
    assert TraceOk(s, r);
    if Held(s, r) {
      HeldIsOwned(s, r);
      var i: nat :| Owns(s, i, r);
      FollowsTale(s.slots[i], OutcomesOf(cfg, labels, r));
    }
  }

  /**
   A recorded failure has its cause: the first call of that session that failed, and it is
   marked as the preface's exactly when that call was the preface.
   */
  lemma FailureHasItsCause(cfg: Config, labels: seq<Label>, r: nat, preface: bool)
    requires Configured(cfg) && Run(cfg, labels).Some?
    requires Failed(preface) in Project(Run(cfg, labels).value.trace, r)
    ensures var oks := OutcomesOf(cfg, labels, r);
            exists k :: && 0 <= k < |oks| && IsCall(k) && !oks[k] && (preface <==> Straight(k) == Preface)
                        && forall j :: 0 <= j < k && IsCall(j) ==> oks[j]
  {
    hide Run, OutcomesOf, Project, Ended, Tale, Finished, Straight;
    TrailFollowsOutcomes(cfg, labels, r);
    FailureInTale(OutcomesOf(cfg, labels, r), preface);
  }

  lemma FailureInTale(oks: seq<bool>, preface: bool)
    requires Failed(preface) in Tale(oks)
    ensures exists k :: && 0 <= k < |oks| && IsCall(k) && !oks[k] && (preface <==> Straight(k) == Preface)
                        && forall j :: 0 <= j < k && IsCall(j) ==> oks[j]
  {
    var f := FirstFailure(oks);
    hide FirstFailure;
    assert f.Some? && preface == (f.value == PREFACE);
    hide Tale;
    PrefaceIsFourth(f.value);
    hide Straight;
    var k := f.value;
    assert 0 <= k < |oks| && IsCall(k) && !oks[k];
  }

  lemma PrefaceIsFourth(k: nat)
    requires k < STEPS
    ensures Straight(k) == Preface <==> k == PREFACE
  {
  }

  /**
   A session whose calls all go well connects, runs both pumps and closes: when the code is
   done with it the trail shows exactly that.
   */
  lemma GoodSessionsConnect(cfg: Config, labels: seq<Label>, r: nat)
    requires Configured(cfg) && Run(cfg, labels).Some?
    requires Ended(Run(cfg, labels).value, r)
    requires forall k :: 0 <= k < |OutcomesOf(cfg, labels, r)| && IsCall(k) ==> OutcomesOf(cfg, labels, r)[k]
    ensures var w := Project(Run(cfg, labels).value.trace, r);
            || w == [Dropped]
            || (w == [Accepted, Connected, Closed] && EverRan(cfg, labels, r, true) && EverRan(cfg, labels, r, false))
  {
    TrailFollowsOutcomes(cfg, labels, r);
    PumpsAreLaunched(cfg, labels, r, true);
    PumpsAreLaunched(cfg, labels, r, false);
    hide Run, OutcomesOf, Project, Ended, EverRan;
  }

  /** In no reachable state is an owner stuck: it waits only for its own pumps, or for a fresh descriptor. */
  lemma OwnersMove(cfg: Config, labels: seq<Label>, i: nat, ok: bool, fd: Fd)
    requires Configured(cfg) && Run(cfg, labels).Some?
    requires i < |Run(cfg, labels).value.slots| && Run(cfg, labels).value.slots[i].Active?
    ensures var s := Run(cfg, labels).value;
            var pc := s.slots[i].pc;
            OwnerStep(cfg, s, i, ok, fd).None?
            <==> ((pc.JoinHalf? || pc.JoinBoth?) && Busy(s, i)) || (pc.OpenSocket? && ok && fd in s.open)
  {
    hide Run, Inv, Busy, AllocInv, SlotsInv, AcceptorInv, PumpsInv, TraceInv, OwnerEffect, AfterEffect, PcInv, CloseFds,
         ReturnToFree, AcceptorAfter;
    RunKeepsInv(cfg, labels);
    var s := Run(cfg, labels).value;
    InvParts(cfg, s);
    SlotIsOk(s, i);
    WhenBlocked(s.slots[i], ok, fd, Busy(s, i));
  }

  lemma WhenBlocked(slot: Slot, ok: bool, fd: Fd, busy: bool)
    requires slot.Active? && PcInv(slot)
    ensures var e := OwnerEffect(slot, ok, fd, busy);
            && (e == Blocked <==> (slot.pc.JoinHalf? || slot.pc.JoinBoth?) && busy)
            && (e.OpenBackend? <==> slot.pc.OpenSocket? && ok)
            && (e.Spawn? ==> slot.backend.Some?)
  {
  }

  lemma StepperIsActive(cfg: Config, s: State, i: nat, ok: bool, fd: Fd)
    requires OwnerStep(cfg, s, i, ok, fd).Some?
    ensures i < |s.slots| && s.slots[i].Active?
  {
    hide OwnerEffect, AfterEffect, Busy;
  }
}
