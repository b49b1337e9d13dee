/** What every run of the session registry keeps. */
module SessionSafety {
  import opened SessionModel

  // --- The invariant --------------------------------------------------------------------------------------

  /** Numbers are given out once; a slot is registered under one id only, that of its handles. */
  ghost predicate Numbers(s: State) {
    && (forall id | id in s.inner :: s.inner[id] < s.nextSlot)
    && (forall id, id' | id in s.inner && id' in s.inner && id != id' :: s.inner[id] != s.inner[id'])
    && (forall h | h in s.handles :: h < s.nextHandle && s.handles[h].slot < s.nextSlot)
    && (forall slot | slot in s.occupied :: slot < s.nextSlot)
    && (forall h, id | h in s.handles && id in s.inner && s.inner[id] == s.handles[h].slot :: id == s.handles[h].id)
  }

  ghost predicate Locks(s: State) {
    forall slot | slot in s.locks :: Usable(s, s.locks[slot]) && s.handles[s.locks[slot]].slot == slot
  }

  /** The handle was made with the id's registered slot, and the id was not removed since. */
  ghost predicate Current(s: State, h: nat) {
    Usable(s, h) && s.handles[h].attached && s.handles[h].epoch == Removals(s, s.handles[h].id)
  }

  ghost predicate Attachments(s: State) {
    && (forall h | h in s.handles :: s.handles[h].epoch <= Removals(s, s.handles[h].id))
    && (forall h | Current(s, h) :: Registers(s, h))
    && (forall h, k | SameLife(s, h, k) :: s.handles[h].slot == s.handles[k].slot)
  }

  /** Two handles found or created the registered slot of the same id with no removal of it between them. */
  ghost predicate SameLife(s: State, h: nat, k: nat) {
    && Usable(s, h) && Usable(s, k) && s.handles[h].attached && s.handles[k].attached
    && s.handles[h].id == s.handles[k].id && s.handles[h].epoch == s.handles[k].epoch
  }

  /** Every registered pool was registered for the slot that its id has now. */
  ghost predicate PoolsOwned(s: State) {
    forall id | id in s.pools :: id in s.inner && s.pools[id].slot == s.inner[id]
  }

  ghost predicate Inv(s: State) {
    Numbers(s) && Locks(s) && Attachments(s) && PoolsOwned(s)
  }

  // --- Counting holders -----------------------------------------------------------------------------------

  lemma CardinalityOne<T>(a: set<T>, x: T)
    requires x in a && |a| == 1
    ensures a == {x}
  {
    assert |a - {x}| == 0;
    assert a - {x} == {};
  }

  /** With the registry and one handle the count is 2 exactly when there is no other handle. */
  lemma CountIsTwo(s: State, h: nat)
    requires Numbers(s) && h in s.handles && Registers(s, h)
    ensures StrongCount(s, s.handles[h].slot) == 2 <==> Holders(s, s.handles[h].slot) == {h}
  {
    var slot := s.handles[h].slot;
    assert Entries(s, slot) == {s.handles[h].id};
    assert h in Holders(s, slot);
    if |Holders(s, slot)| == 1 {
      CardinalityOne(Holders(s, slot), h);
    }
  }

  /** What `remove_if_empty` may remove is held by no other handle. */
  lemma OnlyHolder(s: State, h: nat, k: nat)
    requires Numbers(s) && h in s.handles && CanRemove(s, h) && k in s.handles && s.handles[k].slot == s.handles[h].slot
    ensures k == h
  {
    CountIsTwo(s, h);
    assert k in Holders(s, s.handles[h].slot);
  }

  // --- Every step keeps it --------------------------------------------------------------------------------

  /** A new handle on a registered slot. */
  lemma NewHandleKeeps(s: State, id: string, kind: Kind)
    requires Inv(s) && id in s.inner
    ensures Inv(WithHandle(s, id, s.inner[id], kind, true))
  {
    var t := WithHandle(s, id, s.inner[id], kind, true);
    var n := s.nextHandle;
    forall h, k | SameLife(t, h, k) ensures t.handles[h].slot == t.handles[k].slot {
      if h != n && k != n {
        assert SameLife(s, h, k);
      } else if h != n {
        assert Current(s, h);
      } else if k != n {
        assert Current(s, k);
      }
    }
    forall h | Current(t, h) ensures Registers(t, h) {
      if h != n {
        assert Current(s, h);
      }
    }
  }

  /** A new slot that is not registered, or that its handle's maker takes out of the registry. */
  lemma DetachedHandleKeeps(s: State, id: string, slot: nat, kind: Kind)
    requires Inv(s) && slot < s.nextSlot && forall i | i in s.inner :: s.inner[i] != slot
    ensures Inv(WithHandle(s, id, slot, kind, false))
  {
    var t := WithHandle(s, id, slot, kind, false);
    forall h, k | SameLife(t, h, k) ensures t.handles[h].slot == t.handles[k].slot {
      assert SameLife(s, h, k);
    }
    forall h | Current(t, h) ensures Registers(t, h) {
      assert Current(s, h);
    }
  }

  /** Where the handles and the removals stay, so does what they say about each other. */
  lemma SameHandlesKeep(s: State, t: State)
    requires Inv(s) && t.handles == s.handles && t.removals == s.removals && Numbers(t) && Locks(t) && PoolsOwned(t)
    requires forall h | h in s.handles && Registers(s, h) :: Registers(t, h)
    ensures Inv(t)
  {
    forall h | Current(t, h) ensures Registers(t, h) {
      assert Current(s, h);
    }
    forall h, k | SameLife(t, h, k) ensures t.handles[h].slot == t.handles[k].slot {
      assert SameLife(s, h, k);
    }
  }

  lemma FreshSlotKeeps(s: State)
    requires Inv(s)
    ensures Inv(s.(nextSlot := s.nextSlot + 1)) && forall id | id in s.inner :: s.inner[id] != s.nextSlot
  {
    hide Current, SameLife, Attachments;
    SameHandlesKeep(s, s.(nextSlot := s.nextSlot + 1));
  }

  /** A new slot is registered under an id that has none. */
  lemma RegisterSlotKeeps(s: State, id: string)
    requires Inv(s)
    ensures Inv(Registered(s, id))
  {
    hide Current, SameLife, Attachments;
    if id !in s.inner {
      NewSlotIsNew(s, id);
      SameHandlesKeep(s, Registered(s, id));
    }
  }

  lemma NewSlotIsNew(s: State, id: string)
    requires Numbers(s) && Locks(s) && PoolsOwned(s) && id !in s.inner
    ensures Numbers(Registered(s, id)) && Locks(Registered(s, id)) && PoolsOwned(Registered(s, id))
  {
  }

  lemma LookupKeeps(s: State, id: string)
    requires Inv(s)
    ensures Inv(DoLookup(s, id))
  {
    hide Inv;
    if id in s.inner {
      NewHandleKeeps(s, id, Lookup);
    } else {
      FreshSlotKeeps(s);
      DetachedHandleKeeps(s.(nextSlot := s.nextSlot + 1), id, s.nextSlot, Lookup);
    }
  }

  lemma CreateKeeps(s: State, id: string, kind: Kind)
    requires Inv(s)
    ensures Inv(DoCreate(s, id, kind))
  {
    hide Inv;
    RegisterSlotKeeps(s, id);
    NewHandleKeeps(Registered(s, id), id, kind);
  }

  /** Taking an id out of the registry, and counting it. */
  lemma UnregisterKeeps(s: State, id: string)
    requires Inv(s)
    ensures Inv(CountRemoval(s, id).(inner := s.inner - {id}, pools := s.pools - {id}))
  {
    var t := CountRemoval(s, id).(inner := s.inner - {id}, pools := s.pools - {id});
    forall h | Current(t, h) ensures Registers(t, h) {
      assert s.handles[h].epoch <= Removals(s, s.handles[h].id);
      assert s.handles[h].id != id;
      assert Current(s, h);
    }
    assert forall h, k :: SameLife(t, h, k) <==> SameLife(s, h, k);
  }

  lemma RemoveKeeps(s: State, id: string)
    requires Inv(s)
    ensures Inv(DoRemove(s, id))
  {
    var t := CountRemoval(s, id).(inner := s.inner - {id}, pools := s.pools - {id});
    UnregisterKeeps(s, id);
    var u := t.(cancelled := s.cancelled + if id in s.pools then {s.pools[id].pool} else {});
    CancelKeeps(t, u.cancelled);
    if id in s.inner {
      DetachedHandleKeeps(u, id, s.inner[id], Raw);
    }
  }

  lemma CancelKeeps(s: State, cancelled: set<nat>)
    requires Inv(s)
    ensures Inv(s.(cancelled := cancelled))
  {
    hide Current, SameLife, Attachments;
    SameHandlesKeep(s, s.(cancelled := cancelled));
  }

  lemma RegisterKeeps(s: State, h: nat, pool: nat)
    requires Inv(s) && h in s.handles
    ensures Inv(DoRegister(s, h, pool))
  {
    hide Current, SameLife, Attachments;
    SameHandlesKeep(s, DoRegister(s, h, pool));
  }

  lemma LockingKeeps(s: State, e: Event)
    requires Inv(s) && Enabled(s, e) && (e.Lock? || e.Unlock? || e.Occupy? || e.Vacate?)
    ensures Inv(Step(s, e))
  {
    hide Current, SameLife, Attachments, CanRemove, DoRemove, DoRegister, RemoveIfEmpty, CountRemoval, Registered;
    SameHandlesKeep(s, Step(s, e));
  }

  lemma CleanUpKeeps(s: State, h: nat)
    requires Inv(s) && Enabled(s, CleanUp(h))
    ensures Inv(Step(s, CleanUp(h)))
  {
    hide Inv, CanRemove;
    if CanRemove(s, h) {
      UnregisterKeeps(s, s.handles[h].id);
    }
  }

  /** Marking a handle as closing, or releasing it, makes no handle current. */
  lemma FewerHandlesKeep(s: State, t: State)
    requires Inv(s) && t.removals == s.removals && Numbers(t) && Locks(t) && PoolsOwned(t)
    requires forall k | k in t.handles :: k in s.handles && SameBut(s.handles[k], t.handles[k])
    requires forall k | k in t.handles && Usable(t, k) && Registers(s, k) :: Registers(t, k)
    ensures Inv(t)
  {
    forall k | Current(t, k) ensures Registers(t, k) {
      assert Current(s, k);
    }
    forall k, l | SameLife(t, k, l) ensures t.handles[k].slot == t.handles[l].slot {
      assert SameLife(s, k, l);
    }
  }

  predicate SameBut(a: Handle, b: Handle) {
    b == a || b == a.(closing := true)
  }

  /** The slot that is removed has no other handle. */
  lemma RemovalKeepsOthers(s: State, h: nat)
    requires Inv(s) && h in s.handles
    ensures forall k | k in s.handles && k != h && Registers(s, k) :: Registers(RemoveIfEmpty(s, h), k)
  {
    hide Current, SameLife, Attachments, Locks, StrongCount;
    forall k | k in s.handles && k != h && Registers(s, k) ensures Registers(RemoveIfEmpty(s, h), k) {
      if CanRemove(s, h) && s.handles[k].id == s.handles[h].id {
        OnlyHolder(s, h, k);
      }
    }
  }

  lemma RemovalKeepsNumbers(s: State, h: nat)
    requires Numbers(s) && Locks(s) && PoolsOwned(s) && h in s.handles
    ensures var t := RemoveIfEmpty(s, h);
      && Numbers(t) && Locks(t) && PoolsOwned(t)
      && t.handles == s.handles && t.locks == s.locks && t.removals == s.removals
  {
    hide CanRemove;
  }

  lemma ClosingKeepsNumbers(s: State, h: nat)
    requires Numbers(s) && Locks(s) && PoolsOwned(s) && h in s.handles && !HoldsLock(s, h)
    ensures var t := s.(handles := s.handles[h := s.handles[h].(closing := true)]);
      Numbers(t) && Locks(t) && PoolsOwned(t)
  {
  }

  lemma BeginDropIs(s: State, h: nat)
    requires Enabled(s, BeginDrop(h))
    ensures var t := RemoveIfEmpty(s, h);
      Step(s, BeginDrop(h)) == t.(handles := t.handles[h := t.handles[h].(closing := true)])
    ensures h in s.handles && !HoldsLock(s, h)
  {
    hide CanRemove;
  }

  /** One handle is closing; what the others registered stays. */
  lemma ClosingKeeps(s: State, t: State, h: nat)
    requires Inv(s) && h in s.handles && !HoldsLock(s, h)
    requires t.handles == s.handles && t.locks == s.locks && t.removals == s.removals
    requires Numbers(t) && Locks(t) && PoolsOwned(t)
    requires forall k | k in s.handles && k != h && Registers(s, k) :: Registers(t, k)
    ensures Inv(t.(handles := t.handles[h := t.handles[h].(closing := true)]))
  {
    hide Current, SameLife, Attachments;
    ClosingKeepsNumbers(t, h);
    FewerHandlesKeep(s, t.(handles := t.handles[h := t.handles[h].(closing := true)]));
  }

  lemma BeginDropKeeps(s: State, h: nat)
    requires Inv(s) && Enabled(s, BeginDrop(h))
    ensures Inv(Step(s, BeginDrop(h)))
  {
    hide Attachments, RemoveIfEmpty, Numbers, Locks, PoolsOwned, Step, Enabled, Registers;
    BeginDropIs(s, h);
    RemovalKeepsNumbers(s, h);
    RemovalKeepsOthers(s, h);
    ClosingKeeps(s, RemoveIfEmpty(s, h), h);
  }

  lemma EndDropKeeps(s: State, h: nat)
    requires Inv(s) && Enabled(s, EndDrop(h))
    ensures Inv(Step(s, EndDrop(h)))
  {
    hide Current, SameLife, Attachments;
    FewerHandlesKeep(s, Step(s, EndDrop(h)));
  }

  lemma StepKeeps(s: State, e: Event)
    requires Inv(s) && Enabled(s, e)
    ensures Inv(Step(s, e))
  {
    match e
    case LookupSlot(id) => LookupKeeps(s, id);
    case GetOrCreate(id) => CreateKeeps(s, id, Lookup);
    case SlotFor(id) => CreateKeeps(s, id, Raw);
    case GetExisting(id) => NewHandleKeeps(s, id, Raw);
    case Remove(id) => RemoveKeeps(s, id);
    case RegisterPool(h, pool) => RegisterKeeps(s, h, pool);
    case CleanUp(h) => CleanUpKeeps(s, h);
    case BeginDrop(h) => BeginDropKeeps(s, h);
    case EndDrop(h) => EndDropKeeps(s, h);
    case _ => LockingKeeps(s, e);
  }
}
