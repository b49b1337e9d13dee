/** The session registry of `src-tauri/src/session.rs` as a system of steps. The registry's methods run under
    its mutexes, so each is one step; an `Arc` is a number, and its strong count is the number of its holders. */
module SessionModel {
  /** A `SessionLookup` cleans up when it is dropped; a raw `SessionSlot` handle does not. */
  datatype Kind = Lookup | Raw

  /** A holder of `slot`. Dropping a `SessionLookup` first cleans up and then releases the slot; between the
      two it is `closing`. `attached`: the slot was registered under `id` when the handle was made, after
      `epoch` removals of that id. */
  datatype Handle = Handle(id: string, slot: nat, kind: Kind, closing: bool, attached: bool, epoch: nat)

  /** A pool and the slot it was registered for. */
  datatype Pool = Pool(pool: nat, slot: nat)

  datatype State = State(
    inner: map<string, nat>,
    pools: map<string, Pool>,
    cancelled: set<nat>,
    handles: map<nat, Handle>,
    occupied: set<nat>,
    locks: map<nat, nat>,
    nextSlot: nat,
    nextHandle: nat,
    removals: map<string, nat>)

  const INITIAL := State(map[], map[], {}, map[], {}, map[], 0, 0, map[])

  datatype Event =
    | LookupSlot(id: string)
    | GetOrCreate(id: string)
    | GetExisting(id: string)
    | SlotFor(id: string)
    | Remove(id: string)
    | RegisterPool(h: nat, pool: nat)
    | Lock(h: nat)
    | Unlock(h: nat)
    | Occupy(h: nat)
    | Vacate(h: nat)
    | CleanUp(h: nat)
    | BeginDrop(h: nat)
    | EndDrop(h: nat)

  function Removals(s: State, id: string): nat {
    if id in s.removals then s.removals[id] else 0
  }

  function Holders(s: State, slot: nat): set<nat> {
    set h | h in s.handles && s.handles[h].slot == slot
  }

  function Entries(s: State, slot: nat): set<string> {
    set id | id in s.inner && s.inner[id] == slot
  }

  function StrongCount(s: State, slot: nat): nat {
    |Holders(s, slot)| + |Entries(s, slot)|
  }

  predicate Usable(s: State, h: nat) {
    h in s.handles && !s.handles[h].closing
  }

  predicate HoldsLock(s: State, h: nat) {
    h in s.handles && s.handles[h].slot in s.locks && s.locks[s.handles[h].slot] == h
  }

  /** A guard borrows the handle it was taken through, so a handle is not dropped while it holds the lock. */
  predicate Enabled(s: State, e: Event) {
    match e
    case LookupSlot(_) => true
    case GetOrCreate(_) => true
    case GetExisting(id) => id in s.inner
    case SlotFor(_) => true
    case Remove(_) => true
    case RegisterPool(h, _) => Usable(s, h)
    case Lock(h) => Usable(s, h) && s.handles[h].slot !in s.locks
    case Unlock(h) => HoldsLock(s, h)
    case Occupy(h) => HoldsLock(s, h)
    case Vacate(h) => HoldsLock(s, h)
    case CleanUp(h) => Usable(s, h) && !HoldsLock(s, h)
    case BeginDrop(h) => Usable(s, h) && s.handles[h].kind == Lookup && !HoldsLock(s, h)
    case EndDrop(h) => h in s.handles && !HoldsLock(s, h) && (s.handles[h].kind == Lookup ==> s.handles[h].closing)
  }

  function WithHandle(s: State, id: string, slot: nat, kind: Kind, attached: bool): State {
    s.(handles := s.handles[s.nextHandle := Handle(id, slot, kind, false, attached, Removals(s, id))],
       nextHandle := s.nextHandle + 1)
  }

  /** Missing lookups get an empty slot of their own, which is not registered. */
  function DoLookup(s: State, id: string): State {
    if id in s.inner then WithHandle(s, id, s.inner[id], Lookup, true)
    else WithHandle(s.(nextSlot := s.nextSlot + 1), id, s.nextSlot, Lookup, false)
  }

  /** A missing slot is made and registered. */
  function Registered(s: State, id: string): State {
    if id in s.inner then s else s.(inner := s.inner[id := s.nextSlot], nextSlot := s.nextSlot + 1)
  }

  function DoCreate(s: State, id: string, kind: Kind): State {
    WithHandle(Registered(s, id), id, Registered(s, id).inner[id], kind, true)
  }

  function CountRemoval(s: State, id: string): State {
    s.(removals := s.removals[id := Removals(s, id) + 1])
  }

  /** `remove` cancels the pool and hands the slot to its caller. */
  function DoRemove(s: State, id: string): State {
    var t := CountRemoval(s, id).(
      inner := s.inner - {id}, pools := s.pools - {id},
      cancelled := s.cancelled + if id in s.pools then {s.pools[id].pool} else {});
    if id in s.inner then WithHandle(t, id, s.inner[id], Raw, false) else t
  }

  predicate Registers(s: State, h: nat)
    requires h in s.handles
  {
    s.handles[h].id in s.inner && s.inner[s.handles[h].id] == s.handles[h].slot
  }

  function DoRegister(s: State, h: nat, pool: nat): State
    requires h in s.handles
  {
    if Registers(s, h) then s.(pools := s.pools[s.handles[h].id := Pool(pool, s.handles[h].slot)]) else s
  }

  /** The test of `remove_if_empty`: the registered slot is this one, only the registry and the caller hold
      it, nobody has it locked, and it is empty. */
  predicate CanRemove(s: State, h: nat)
    requires h in s.handles
  {
    var slot := s.handles[h].slot;
    Registers(s, h) && StrongCount(s, slot) == 2 && slot !in s.locks && slot !in s.occupied
  }

  function RemoveIfEmpty(s: State, h: nat): State
    requires h in s.handles
  {
    var id := s.handles[h].id;
    if CanRemove(s, h) then s.(inner := s.inner - {id}, pools := s.pools - {id}) else s
  }

  function Step(s: State, e: Event): State
    requires Enabled(s, e)
  {
    match e
    case LookupSlot(id) => DoLookup(s, id)
    case GetOrCreate(id) => DoCreate(s, id, Lookup)
    case GetExisting(id) => WithHandle(s, id, s.inner[id], Raw, true)
    case SlotFor(id) => DoCreate(s, id, Raw)
    case Remove(id) => DoRemove(s, id)
    case RegisterPool(h, pool) => DoRegister(s, h, pool)
    case Lock(h) => s.(locks := s.locks[s.handles[h].slot := h])
    case Unlock(h) => s.(locks := s.locks - {s.handles[h].slot})
    case Occupy(h) => s.(occupied := s.occupied + {s.handles[h].slot})
    case Vacate(h) => s.(occupied := s.occupied - {s.handles[h].slot})
    case CleanUp(h) =>
      if CanRemove(s, h) then CountRemoval(RemoveIfEmpty(s, h), s.handles[h].id) else s
    case BeginDrop(h) =>
      var t := RemoveIfEmpty(s, h);
      t.(handles := t.handles[h := t.handles[h].(closing := true)])
    case EndDrop(h) => s.(handles := s.handles - {h})
  }

  ghost predicate Takes(states: seq<State>, events: seq<Event>, i: nat)
    requires i < |events| && |states| == |events| + 1
  {
    Enabled(states[i], events[i]) && states[i + 1] == Step(states[i], events[i])
  }

  ghost predicate IsRun(states: seq<State>, events: seq<Event>) {
    |states| == |events| + 1 && states[0] == INITIAL && forall i | 0 <= i < |events| :: Takes(states, events, i)
  }
}
