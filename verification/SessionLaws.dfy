/** What each step of the session registry changes, and what it leaves alone: which ids are registered, who holds which
    slot, and which pools are attached and cancelled. */
module SessionLaws {
  import opened SessionModel
  import opened SessionSafety
  import opened SessionRuns

  // --- Which ids are registered -----------------------------------------------------------------------------

  /** The id's slot is empty and free, and nobody but the holder `h` has it. */
  ghost predicate Forsaken(s: State, h: nat, id: string) {
    && id in s.inner && h in s.handles && s.handles[h].slot == s.inner[id]
    && s.inner[id] !in s.occupied && s.inner[id] !in s.locks
    && forall k | k in s.handles && s.handles[k].slot == s.inner[id] :: k == h
  }

  lemma OnlyHolderIs(s: State, h: nat)
    requires h in s.handles
    ensures Holders(s, s.handles[h].slot) == {h} <==>
      forall k | k in s.handles && s.handles[k].slot == s.handles[h].slot :: k == h
  {
    var holders := Holders(s, s.handles[h].slot);
    assert h in holders;
    if holders == {h} {
      forall k | k in s.handles && s.handles[k].slot == s.handles[h].slot ensures k == h {
        assert k in holders;
      }
    }
  }

  lemma ForsakenCanBeRemoved(s: State, h: nat, id: string)
    requires Inv(s) && h in s.handles
    ensures CanRemove(s, h) && s.handles[h].id == id <==> Forsaken(s, h, id)
  {
    if Registers(s, h) {
      CountIsTwo(s, h);
      OnlyHolderIs(s, h);
    }
  }

  /** The step takes the id out: it is removed, or cleaned up when its slot is forsaken. */
  ghost predicate TakesOut(s: State, e: Event, id: string) {
    match e
    case Remove(x) => x == id
    case CleanUp(h) => Forsaken(s, h, id)
    case BeginDrop(h) => Forsaken(s, h, id)
    case _ => false
  }

  predicate Creates(e: Event, id: string) {
    e == GetOrCreate(id) || e == SlotFor(id)
  }

  lemma CleaningTakesOut(s: State, h: nat, id: string)
    requires Inv(s) && h in s.handles
    ensures id in RemoveIfEmpty(s, h).inner <==> id in s.inner && !Forsaken(s, h, id)
    ensures id in RemoveIfEmpty(s, h).inner ==> RemoveIfEmpty(s, h).inner[id] == s.inner[id]
  {
    hide StrongCount, Inv;
    ForsakenCanBeRemoved(s, h, id);
  }

  /** An id is registered after a step exactly if the step creates it, or it was registered and is not taken out; and
      as long as it is, its slot stays the same. */
  lemma Registration(s: State, e: Event, id: string)
    requires Inv(s) && Enabled(s, e)
    ensures id in Step(s, e).inner <==> Creates(e, id) || (id in s.inner && !TakesOut(s, e, id))
    ensures id in s.inner && id in Step(s, e).inner ==> Step(s, e).inner[id] == s.inner[id]
  {
    hide Inv, Step, Enabled, Forsaken, RemoveIfEmpty;
    if e.CleanUp? || e.BeginDrop? {
      CleanersHold(s, e);
      CleaningTakesOut(s, e.h, id);
    } else {
      OthersRegister(s, e, id);
    }
  }

  lemma CleanersHold(s: State, e: Event)
    requires Enabled(s, e) && (e.CleanUp? || e.BeginDrop?)
    ensures e.h in s.handles && Step(s, e).inner == RemoveIfEmpty(s, e.h).inner
  {
    if e.CleanUp? {
      CleanUpIs(s, e.h);
    }
  }

  lemma OthersRegister(s: State, e: Event, id: string)
    requires Enabled(s, e) && !e.CleanUp? && !e.BeginDrop?
    ensures id in Step(s, e).inner <==> Creates(e, id) || (id in s.inner && !TakesOut(s, e, id))
    ensures id in s.inner && id in Step(s, e).inner ==> Step(s, e).inner[id] == s.inner[id]
  {
    hide Forsaken, RemoveIfEmpty, DoCreate, DoRemove, DoLookup, DoRegister;
    match e
    case LookupSlot(x) => MethodsRegister(s, x, Lookup);
    case GetOrCreate(x) => MethodsRegister(s, x, Lookup);
    case SlotFor(x) => MethodsRegister(s, x, Raw);
    case Remove(x) => RemoveRegisters(s, x);
    case RegisterPool(h, pool) => PoolsRegisterNothing(s, h, pool);
    case _ =>
  }

  lemma MethodsRegister(s: State, id: string, kind: Kind)
    ensures DoLookup(s, id).inner == s.inner
    ensures DoCreate(s, id, kind).inner == if id in s.inner then s.inner else s.inner[id := s.nextSlot]
  {
    hide Removals;
  }

  lemma RemoveRegisters(s: State, id: string)
    ensures DoRemove(s, id).inner == s.inner - {id}
  {
    hide Removals;
  }

  lemma PoolsRegisterNothing(s: State, h: nat, pool: nat)
    requires h in s.handles
    ensures DoRegister(s, h, pool).inner == s.inner
  {
  }

  lemma CleanUpIs(s: State, h: nat)
    requires Enabled(s, CleanUp(h))
    ensures Step(s, CleanUp(h)).inner == RemoveIfEmpty(s, h).inner
    ensures Step(s, CleanUp(h)).pools == RemoveIfEmpty(s, h).pools
    ensures Step(s, CleanUp(h)).cancelled == s.cancelled && Step(s, CleanUp(h)).handles == s.handles
  {
  }

  /** A slot with a session in it leaves the registry by `remove` only. */
  lemma OccupiedSlotsStay(s: State, e: Event, id: string)
    requires Inv(s) && Enabled(s, e) && id in s.inner && s.inner[id] in s.occupied && e != Remove(id)
    ensures id in Step(s, e).inner && Step(s, e).inner[id] == s.inner[id]
  {
    Registration(s, e, id);
  }

  // --- Who holds which slot ---------------------------------------------------------------------------------

  /** Nobody holds the slot, and it is neither registered nor occupied. */
  ghost predicate Unknown(s: State, slot: nat) {
    && (forall id | id in s.inner :: s.inner[id] != slot)
    && (forall h | h in s.handles :: s.handles[h].slot != slot)
    && slot !in s.occupied
  }

  /** What the new handle `h` of a step must be. */
  ghost predicate IsNewHandle(s: State, e: Event, t: State, h: nat)
    requires h in t.handles
  {
    var slot, kind := t.handles[h].slot, t.handles[h].kind;
    match e
    case LookupSlot(id) =>
      && kind == Lookup && t.inner == s.inner
      && if id in s.inner then slot == s.inner[id] else Unknown(s, slot)
    case GetOrCreate(id) =>
      && kind == Lookup && id in t.inner && slot == t.inner[id]
      && (id !in s.inner ==> Unknown(s, slot))
    case SlotFor(id) =>
      && kind == Raw && id in t.inner && slot == t.inner[id]
      && (id !in s.inner ==> Unknown(s, slot))
    case GetExisting(id) => kind == Raw && id in s.inner && slot == s.inner[id]
    case Remove(id) => kind == Raw && id in s.inner && slot == s.inner[id]
    case _ => false
  }

  lemma RemoveHandsOut(s: State, id: string, h: nat)
    requires h in DoRemove(s, id).handles && h !in s.handles
    ensures id in s.inner && DoRemove(s, id).handles[h].slot == s.inner[id] && DoRemove(s, id).handles[h].kind == Raw
  {
    hide Removals;
  }

  lemma CreateHandsOut(s: State, id: string, kind: Kind, h: nat)
    requires Numbers(s) && h in DoCreate(s, id, kind).handles && h !in s.handles
    ensures var t := DoCreate(s, id, kind);
      && id in t.inner && t.handles[h].slot == t.inner[id] && t.handles[h].kind == kind
      && (id !in s.inner ==> Unknown(s, t.inner[id]))
  {
    hide Removals;
  }

  lemma LookupHandsOut(s: State, id: string, h: nat)
    requires Numbers(s) && h in DoLookup(s, id).handles && h !in s.handles
    ensures var t := DoLookup(s, id);
      && t.inner == s.inner && t.handles[h].kind == Lookup
      && if id in s.inner then t.handles[h].slot == s.inner[id] else Unknown(s, t.handles[h].slot)
  {
    hide Removals;
  }

  /** New handles are those that the methods hand out. */
  lemma NewHandlesAre(s: State, e: Event, h: nat)
    requires Inv(s) && Enabled(s, e) && h in Step(s, e).handles && h !in s.handles
    ensures IsNewHandle(s, e, Step(s, e), h)
  {
    hide Locks, Attachments, PoolsOwned, Numbers, CanRemove, Registers, DoRemove, DoCreate, DoLookup, Unknown, Removals;
    assert Numbers(s);
    match e
    case LookupSlot(id) => LookupHandsOut(s, id, h);
    case GetOrCreate(id) => CreateHandsOut(s, id, Lookup, h);
    case SlotFor(id) => CreateHandsOut(s, id, Raw, h);
    case Remove(id) => RemoveHandsOut(s, id, h);
    case _ =>
  }

  /** The others stay, with their slots, until they are dropped. */
  lemma OldHandlesStay(s: State, e: Event, h: nat)
    requires Inv(s) && Enabled(s, e) && h in s.handles
    ensures h in Step(s, e).handles <==> e != EndDrop(h)
    ensures h in Step(s, e).handles ==>
      Step(s, e).handles[h].slot == s.handles[h].slot && Step(s, e).handles[h].kind == s.handles[h].kind
  {
    hide Step, Enabled, Numbers, Locks, Attachments, PoolsOwned;
    if MakesHandle(e) {
      MakingKeepsHandles(s, e, h);
    } else {
      OtherStepsKeepHandles(s, e, h);
      if e == EndDrop(h) {
        DroppedIsGone(s, h);
      }
    }
    if h in Step(s, e).handles {
      SameHandle(s, e, h);
    }
  }

  lemma DroppedIsGone(s: State, h: nat)
    requires Enabled(s, EndDrop(h))
    ensures h !in Step(s, EndDrop(h)).handles
  {
  }

  // --- Pools ------------------------------------------------------------------------------------------------

  /** The step attaches `pool` to the id: it is registered through a holder of the slot that the id has. */
  ghost predicate Attaches(s: State, e: Event, id: string, pool: nat) {
    && e.RegisterPool? && e.pool == pool && e.h in s.handles && s.handles[e.h].id == id
    && id in s.inner && s.inner[id] == s.handles[e.h].slot
  }

  ghost predicate AttachesAny(s: State, e: Event, id: string) {
    e.RegisterPool? && Attaches(s, e, id, e.pool)
  }

  lemma CleaningDropsPool(s: State, h: nat, id: string)
    requires Inv(s) && h in s.handles
    ensures id in RemoveIfEmpty(s, h).pools <==> id in s.pools && !Forsaken(s, h, id)
    ensures id in RemoveIfEmpty(s, h).pools ==> RemoveIfEmpty(s, h).pools[id] == s.pools[id]
    ensures RemoveIfEmpty(s, h).cancelled == s.cancelled
  {
    hide StrongCount;
    ForsakenCanBeRemoved(s, h, id);
  }

  /** An id has a pool after a step exactly if the step attaches one, or it had one and is not taken out. */
  lemma PoolsAre(s: State, e: Event, id: string)
    requires Inv(s) && Enabled(s, e)
    ensures id in Step(s, e).pools <==> AttachesAny(s, e, id) || (id in s.pools && !TakesOut(s, e, id))
    ensures id in Step(s, e).pools ==>
      Step(s, e).pools[id].pool == if AttachesAny(s, e, id) then e.pool else s.pools[id].pool
  {
    hide Inv, CanRemove, Forsaken, RemoveIfEmpty;
    match e
    case CleanUp(h) =>
      CleaningDropsPool(s, h, id);
      CleanUpIs(s, h);
    case BeginDrop(h) =>
      CleaningDropsPool(s, h, id);
    case _ =>
  }

  /** Pools are cancelled by `remove`, and by nothing else. */
  lemma CancelledAre(s: State, e: Event, pool: nat)
    requires Enabled(s, e)
    ensures pool in Step(s, e).cancelled <==>
      pool in s.cancelled || (e.Remove? && e.id in s.pools && s.pools[e.id].pool == pool)
  {
    hide CanRemove, Removals;
  }

  /** Between two steps the id is not taken out and gets no other pool. */
  ghost predicate Undisturbed(states: seq<State>, events: seq<Event>, i: nat, j: nat, id: string)
    requires IsRun(states, events) && i <= j <= |events|
  {
    forall k | i <= k < j :: !TakesOut(states[k], events[k], id) && !AttachesAny(states[k], events[k], id)
  }

  lemma {:induction false} PoolStays(states: seq<State>, events: seq<Event>, i: nat, j: nat, id: string, pool: nat)
    requires IsRun(states, events) && i <= j <= |events| && Undisturbed(states, events, i, j, id)
    requires id in states[i].pools && states[i].pools[id].pool == pool
    ensures id in states[j].pools && states[j].pools[id].pool == pool
    decreases j
  {
    if i < j {
      PoolStays(states, events, i, j - 1, id, pool);
      RunKeeps(states, events, j - 1);
      assert Takes(states, events, j - 1);
      PoolsAre(states[j - 1], events[j - 1], id);
    }
  }

  /** A pool that was attached to an id is cancelled when the id is removed, unless a cleanup or another pool came
      first. */
  lemma RemoveCancelsThePool(states: seq<State>, events: seq<Event>, i: nat, j: nat, id: string, pool: nat)
    requires IsRun(states, events) && i < j < |events|
    requires Attaches(states[i], events[i], id, pool) && Undisturbed(states, events, i + 1, j, id)
    requires events[j] == Remove(id)
    ensures pool in states[j + 1].cancelled && id !in states[j + 1].pools
  {
    RunKeeps(states, events, i);
    RunKeeps(states, events, j);
    assert Takes(states, events, i) && Takes(states, events, j);
    PoolsAre(states[i], events[i], id);
    PoolStays(states, events, i + 1, j, id, pool);
    PoolsAre(states[j], events[j], id);
    CancelledAre(states[j], events[j], pool);
  }
}
