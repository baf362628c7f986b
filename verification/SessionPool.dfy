/**
 The slot array and the free stack as the code updates them in place, tied to the
 allocator of `Sessions`.
 */
module SessionPool {
  import opened Bytes
  import opened Sessions

  class Pool {
    const maxClients: nat
    const sessions: array<Slot>
    const free: array<nat>
    var freeCount: nat

    ghost predicate Shaped()
      reads this
    {
      && 0 < maxClients <= MAX_CLIENTS && sessions.Length == MAX_CLIENTS && free.Length == MAX_CLIENTS
      && freeCount <= maxClients
    }

    ghost function Slots(): seq<Slot>
      requires Shaped()
      reads this, sessions
    {
      sessions[..maxClients]
    }

    ghost function Stack(): seq<nat>
      requires Shaped()
      reads this, free
    {
      free[..freeCount]
    }

    /** The allocator's invariant, on this pool's slots and stack. */
    ghost predicate Valid()
      reads this, sessions, free
    {
      Shaped() && AllocInv(Config(maxClients, 0), State(Slots(), Stack(), map[], {}, 0, Idle, []))
    }

    constructor (max: nat)
      requires 0 < max <= MAX_CLIENTS
      ensures Valid() && fresh(sessions) && fresh(free) && maxClients == max
      ensures Slots() == Initial(Config(max, 0)).slots && Stack() == Initial(Config(max, 0)).free
    {
      maxClients := max;
      sessions := new Slot[MAX_CLIENTS](i => Slot.Free);
      free := new nat[MAX_CLIENTS](i => 0);
      freeCount := max;
      new;
      for i := 0 to max
        invariant Shaped() && freeCount == max == maxClients
        invariant forall k :: 0 <= k < MAX_CLIENTS ==> sessions[k].Free?
        invariant forall k :: 0 <= k < i ==> free[k] == max - 1 - k
      {
        free[i] := max - 1 - i;
      }
      var cfg := Config(max, 0);
      assert Slots() == Initial(cfg).slots;
      assert Stack() == Initial(cfg).free;
      InitialAlloc(cfg);
    }

    method FreeListContains(id: nat) returns (found: bool)
      requires Shaped()
      ensures found <==> id in Stack()
    {
      for i := 0 to freeCount
        invariant id !in free[..i]
      {
        if free[i] == id {
          assert Stack()[i] == id;
          return true;
        }
      }
      return false;
    }

    /** Pushes a slot unless one of the three guards refuses it. */
    method ReturnToFreelist(id: nat)
      requires Shaped()
      modifies this`freeCount, free
      ensures Shaped() && Stack() == ReturnToFree(old(Stack()), id, maxClients)
    {
      if id >= maxClients {
        return;
      }
      var found := FreeListContains(id);
      if found || freeCount >= maxClients {
        return;
      }
      free[freeCount] := id;
      freeCount := freeCount + 1;
    }

    /**
     Pops a free slot.  Neither guard of the loop can fire, so the first entry is taken
     and the pool is full exactly when no slot is free.
     */
    method FindFree() returns (idx: Option<nat>)
      requires Valid()
      modifies this`freeCount
      ensures Shaped()
      ensures idx.None? <==> old(Stack()) == []
      ensures idx.None? <==> CountActive(Slots()) == maxClients
      ensures idx.Some? ==> idx.value < maxClients && Slots()[idx.value].Free?
                            && old(Stack()) == Stack() + [idx.value] && idx.value !in Stack()
      ensures idx.None? ==> Stack() == old(Stack())
    {
      ghost var s := State(Slots(), Stack(), map[], {}, 0, Idle, []);
      // The source's loop body always ends in a return: its `continue`s leave only the
      // guard macro they stand in, so one attempt is all there ever is.
      if freeCount > 0 {
        PopIsFree(Config(maxClients, 0), s);
        freeCount := freeCount - 1;
        var next := free[freeCount];
        assert s.free[|s.free| - 1] == next;
        if next >= maxClients {
          assert false;
        }
        if !sessions[next].Free? {
          assert false;
        }
        assert old(Stack()) == Stack() + [next];
        return Some(next);
      }
      return None;
    }

    /** Gives a client a slot, or reports that the pool is full and changes nothing. */
    method Assign(v: Slot) returns (idx: Option<nat>)
      requires Valid() && v.Active?
      modifies this`freeCount, sessions
      ensures Valid()
      ensures idx.None? <==> CountActive(old(Slots())) == maxClients
      ensures idx.None? ==> Slots() == old(Slots()) && Stack() == old(Stack())
      ensures idx.Some? ==> idx.value < maxClients && old(Slots())[idx.value].Free?
                            && Slots() == old(Slots())[idx.value := v]
                            && old(Stack()) == Stack() + [idx.value]
    {
      ghost var s := State(Slots(), Stack(), map[], {}, 0, Idle, []);
      idx := FindFree();
      assert Slots() == s.slots;
      if idx.Some? {
        sessions[idx.value] := v;
        assert Slots() == s.slots[idx.value := v];
        AllocAfterPop(Config(maxClients, 0), s, State(Slots(), Stack(), map[], {}, 0, Idle, []), v);
      }
    }

    /** Closing twice is closing once: a free slot is not pushed again. */
    method Close(id: nat)
      requires Valid() && id < maxClients
      modifies this`freeCount, sessions, free
      ensures Valid() && Slots() == old(Slots())[id := Slot.Free]
      ensures old(Slots()[id].Free?) ==> Slots() == old(Slots()) && Stack() == old(Stack())
      ensures old(Slots()[id].Active?) ==> Stack() == old(Stack()) + [id]
                                           && CountActive(Slots()) == old(CountActive(Slots())) - 1
    {
      ghost var cfg := Config(maxClients, 0);
      ghost var s := State(Slots(), Stack(), map[], {}, 0, Idle, []);
      var wasFree := sessions[id].Free?;
      sessions[id] := Slot.Free;
      assert Slots() == s.slots[id := Slot.Free];
      assert Stack() == s.free;
      if !wasFree {
        ReturnToFreelist(id);
        PushIsAccepted(cfg, s, id);
        CountActiveUpdate(s.slots, id, Slot.Free);
        AllocAfterPush(cfg, s, State(Slots(), Stack(), map[], {}, 0, Idle, []), id);
      } else {
        assert Slots() == s.slots;
      }
    }

    /** Counts the open sessions of an address and compares with the cap. */
    method LimitExceeded(ip: string, limit: nat) returns (exceeded: bool, active: nat)
      requires Shaped()
      ensures exceeded <==> SessionLimitExceeded(Slots(), ip, limit)
      ensures limit != 0 && ip != "" ==> active == CountIp(Slots(), ip)
    {
      active := 0;
      if limit == 0 || ip == "" {
        return false, active;
      }
      for i := 0 to maxClients
        invariant active == CountIp(sessions[..i], ip)
      {
        assert sessions[..i + 1][..i] == sessions[..i];
        if sessions[i].Active? && sessions[i].ip == ip {
          active := active + 1;
        }
      }
      return active >= limit, active;
    }
  }
}
