/** The promises of the session registry over every interleaving of lookups, connects, disconnects and drops. */
module SessionRuns {
  import opened Options
  import opened SessionModel
  import opened SessionSafety

  lemma {:induction false} RunKeeps(states: seq<State>, events: seq<Event>, i: nat)
    requires IsRun(states, events) && i < |states|
    ensures Inv(states[i])
    decreases i
  {
    if i > 0 {
      RunKeeps(states, events, i - 1);
      assert Takes(states, events, i - 1);
      StepKeeps(states[i - 1], events[i - 1]);
    }
  }

  // --- Slots are not split ------------------------------------------------------------------------------

  /** Two live handles that found or created the registered slot of an id, with no removal of the id between
      them, share the slot; and while the id was not removed since, it is the slot registered now. */
  lemma LiveLookupsShareTheSlot(states: seq<State>, events: seq<Event>, i: nat, h: nat, k: nat)
    requires IsRun(states, events) && i < |states| && SameLife(states[i], h, k)
    ensures states[i].handles[h].slot == states[i].handles[k].slot
    ensures Current(states[i], h) ==> Registers(states[i], h)
  {
    RunKeeps(states, events, i);
  }

  // --- Slots and pools do not come back -----------------------------------------------------------------

  /** The slot has been given out and is registered under no id. */
  ghost predicate Retired(s: State, slot: nat) {
    slot < s.nextSlot && forall id | id in s.inner :: s.inner[id] != slot
  }

  lemma StepRetires(s: State, e: Event, slot: nat)
    requires Enabled(s, e) && Retired(s, slot)
    ensures Retired(Step(s, e), slot)
  {
  }

  lemma {:induction false} RetiredForGood(states: seq<State>, events: seq<Event>, i: nat, j: nat, slot: nat)
    requires IsRun(states, events) && i <= j < |states| && Retired(states[i], slot)
    ensures Retired(states[j], slot)
    decreases j
  {
    if i < j {
      RetiredForGood(states, events, i, j - 1, slot);
      assert Takes(states, events, j - 1);
      StepRetires(states[j - 1], events[j - 1], slot);
    }
  }

  /** After an id was removed, nobody who holds its old slot can register a pool any more, not even under a
      new slot of the same id; and every pool that is registered belongs to the slot that its id has. */
  lemma RemovedSlotsTakeNoPool(states: seq<State>, events: seq<Event>, i: nat, j: nat, id: string, h: nat, pool: nat)
    requires IsRun(states, events) && i < j < |states|
    requires events[i] == Remove(id) && id in states[i].inner
    requires h in states[j].handles && states[j].handles[h].slot == states[i].inner[id]
    ensures DoRegister(states[j], h, pool) == states[j]
    ensures PoolsOwned(states[j])
  {
    RunKeeps(states, events, i);
    RunKeeps(states, events, j);
    assert Takes(states, events, i);
    RemoveRetires(states[i], id);
    RetiredForGood(states, events, i + 1, j, states[i].inner[id]);
  }

  /** After an id was removed, nobody who holds its old slot can take out of the registry what stands there under
      the id: a late teardown never deletes a replacement. */
  lemma RemovedSlotsRemoveNothing(states: seq<State>, events: seq<Event>, i: nat, j: nat, id: string, h: nat)
    requires IsRun(states, events) && i < j < |states|
    requires events[i] == Remove(id) && id in states[i].inner
    requires h in states[j].handles && states[j].handles[h].slot == states[i].inner[id]
    ensures RemoveIfEmpty(states[j], h) == states[j]
    ensures Enabled(states[j], CleanUp(h)) ==> Step(states[j], CleanUp(h)) == states[j]
  {
    RunKeeps(states, events, i);
    assert Takes(states, events, i);
    RemoveRetires(states[i], id);
    RetiredForGood(states, events, i + 1, j, states[i].inner[id]);
  }

  lemma RemoveRetires(s: State, id: string)
    requires Inv(s) && id in s.inner
    ensures Retired(DoRemove(s, id), s.inner[id])
    ensures id in s.pools ==> s.pools[id].pool in DoRemove(s, id).cancelled
    ensures id !in DoRemove(s, id).pools
  {
  }

  // --- Slots are not leaked -----------------------------------------------------------------------------

  /** Some lookup that is not being dropped holds the slot. */
  ghost predicate LookedUp(s: State, slot: nat) {
    exists h :: h in s.handles && IsLookupOf(s, h, slot)
  }

  predicate IsLookupOf(s: State, h: nat, slot: nat)
    requires h in s.handles
  {
    s.handles[h].slot == slot && s.handles[h].kind == Lookup && !s.handles[h].closing
  }

  /** Every registered slot is occupied or held by a live lookup. */
  ghost predicate NoLeak(s: State) {
    forall id | id in s.inner :: s.inner[id] in s.occupied || LookedUp(s, s.inner[id])
  }

  /** No lookup other than `h` holds the slot. */
  ghost predicate LastLookup(s: State, h: nat)
    requires h in s.handles
  {
    forall k | k in s.handles && k != h :: !IsLookupOf(s, k, s.handles[h].slot)
  }

  /** The three ways to leak a registered slot: the last lookup of an empty slot is dropped while a raw handle or a
      lookup between the two halves of its drop still holds it; a raw handle empties a slot that no lookup holds;
      or a slot is made for a raw handle. */
  ghost predicate Leaks(s: State, e: Event)
    requires Enabled(s, e)
  {
    match e
    case BeginDrop(h) =>
      Registers(s, h) && s.handles[h].slot !in s.occupied && LastLookup(s, h) && Holders(s, s.handles[h].slot) != {h}
    case Vacate(h) =>
      Registers(s, h) && s.handles[h].kind == Raw && !LookedUp(s, s.handles[h].slot)
    case SlotFor(id) => id !in s.inner
    case _ => false
  }

  lemma AddedHandleLeaksNothing(s: State, t: State)
    requires Inv(s) && NoLeak(s) && s.occupied <= t.occupied
    requires forall h | h in s.handles :: h in t.handles && t.handles[h] == s.handles[h]
    requires forall id | id in t.inner :: (id in s.inner && t.inner[id] == s.inner[id]) || LookedUp(t, t.inner[id])
    ensures NoLeak(t)
  {
    forall id | id in t.inner ensures t.inner[id] in t.occupied || LookedUp(t, t.inner[id]) {
      if id in s.inner && t.inner[id] == s.inner[id] && LookedUp(s, s.inner[id]) {
        var h :| h in s.handles && IsLookupOf(s, h, s.inner[id]);
        assert IsLookupOf(t, h, t.inner[id]);
      }
    }
  }

  lemma CreatedIsLookedUp(s: State, id: string)
    ensures var t := DoCreate(s, id, Lookup); LookedUp(t, t.inner[id])
  {
    var t := DoCreate(s, id, Lookup);
    assert s.nextHandle in t.handles && IsLookupOf(t, s.nextHandle, t.inner[id]);
  }

  /** What making a slot and a handle leaves as it was. */
  lemma CreateAdds(s: State, id: string, kind: Kind)
    requires Inv(s)
    ensures var t := DoCreate(s, id, kind);
      && t.occupied == s.occupied
      && (forall h | h in s.handles :: h in t.handles && t.handles[h] == s.handles[h])
      && (forall i | i in t.inner && i != id :: i in s.inner && t.inner[i] == s.inner[i])
      && (id in s.inner ==> t.inner == s.inner)
  {
  }

  lemma CreateLeaksNothing(s: State, id: string)
    requires Inv(s) && NoLeak(s)
    ensures NoLeak(DoCreate(s, id, Lookup))
  {
    hide NoLeak, DoCreate, Inv, LookedUp;
    CreatedIsLookedUp(s, id);
    CreateAdds(s, id, Lookup);
    AddedHandleLeaksNothing(s, DoCreate(s, id, Lookup));
  }

  /** A slot made for a raw handle is empty, and no lookup holds it. */
  lemma SlotForLeaksExactly(s: State, id: string)
    requires Inv(s) && NoLeak(s)
    ensures NoLeak(Step(s, SlotFor(id))) <==> !Leaks(s, SlotFor(id))
  {
    CreateAdds(s, id, Raw);
    var t := Step(s, SlotFor(id));
    if id in s.inner {
      AddedHandleLeaksNothing(s, t);
    } else {
      assert t.inner[id] == s.nextSlot && s.nextSlot !in t.occupied;
      forall h | h in t.handles ensures !IsLookupOf(t, h, s.nextSlot) {
      }
    }
  }

  /** The first half of a drop leaks the slot exactly in the one case. */
  lemma DropLeaksExactly(s: State, h: nat)
    requires Inv(s) && NoLeak(s) && Enabled(s, BeginDrop(h))
    ensures NoLeak(Step(s, BeginDrop(h))) <==> !Leaks(s, BeginDrop(h))
  {
    var t, slot := Step(s, BeginDrop(h)), s.handles[h].slot;
    forall id | id in t.inner ensures (t.inner[id] in t.occupied || LookedUp(t, t.inner[id])) <==>
                                      !(t.inner[id] == slot && slot !in s.occupied && LastLookup(s, h))
    {
      LookedUpAfterDrop(s, h, id);
    }
    if Registers(s, h) {
      CountIsTwo(s, h);
      DropperHoldsNoLock(s, h);
    }
  }

  /** A slot that only the dropped handle holds is not locked. */
  lemma DropperHoldsNoLock(s: State, h: nat)
    requires Inv(s) && Enabled(s, BeginDrop(h))
    ensures Holders(s, s.handles[h].slot) == {h} ==> s.handles[h].slot !in s.locks
  {
    var slot := s.handles[h].slot;
    if slot in s.locks {
      assert s.locks[slot] in Holders(s, slot);
    }
  }

  /** The drop changes no handle but `h`, and takes at most the slot of `h` out of the registry. */
  lemma DropChanges(s: State, h: nat)
    requires Enabled(s, BeginDrop(h))
    ensures var t := Step(s, BeginDrop(h));
      && t.occupied == s.occupied && t.handles == s.handles[h := s.handles[h].(closing := true)]
      && forall id | id in t.inner :: id in s.inner && t.inner[id] == s.inner[id]
  {
    hide CanRemove;
  }

  /** After the drop another lookup holds the slot exactly if one did before. */
  lemma LookupsAfterDrop(s: State, h: nat, slot: nat)
    requires Enabled(s, BeginDrop(h))
    ensures LookedUp(Step(s, BeginDrop(h)), slot) <==> exists k :: k in s.handles && k != h && IsLookupOf(s, k, slot)
  {
    hide Step;
    DropChanges(s, h);
    var t := Step(s, BeginDrop(h));
    if LookedUp(t, slot) {
      var k :| k in t.handles && IsLookupOf(t, k, slot);
      assert k in s.handles && k != h && IsLookupOf(s, k, slot);
    }
    if k :| k in s.handles && k != h && IsLookupOf(s, k, slot) {
      assert k in t.handles && IsLookupOf(t, k, slot);
    }
  }

  lemma LookedUpAfterDrop(s: State, h: nat, id: string)
    requires NoLeak(s) && Enabled(s, BeginDrop(h)) && id in Step(s, BeginDrop(h)).inner
    ensures var t := Step(s, BeginDrop(h)); var slot := s.handles[h].slot;
      (t.inner[id] in t.occupied || LookedUp(t, t.inner[id])) <==>
      !(t.inner[id] == slot && slot !in s.occupied && LastLookup(s, h))
  {
    hide Step;
    DropChanges(s, h);
    var mine := s.inner[id];
    LookupsAfterDrop(s, h, mine);
    if LookedUp(s, mine) && mine != s.handles[h].slot {
      var k :| k in s.handles && IsLookupOf(s, k, mine);
      assert k != h;
    }
  }

  lemma VacateLeaksExactly(s: State, h: nat)
    requires Inv(s) && NoLeak(s) && Enabled(s, Vacate(h))
    ensures NoLeak(Step(s, Vacate(h))) <==> !Leaks(s, Vacate(h))
  {
    var t, slot := Step(s, Vacate(h)), s.handles[h].slot;
    assert Usable(s, h);
    forall x ensures LookedUp(t, x) <==> LookedUp(s, x) {
      LookedUpSame(s, t, x);
    }
    if s.handles[h].kind == Lookup {
      assert IsLookupOf(s, h, slot);
    }
    if exists id :: id in s.inner && s.inner[id] == slot {
      var id :| id in s.inner && s.inner[id] == slot;
      assert id == s.handles[h].id;
    }
  }

  lemma LookedUpSame(s: State, t: State, slot: nat)
    requires t.handles == s.handles
    ensures LookedUp(t, slot) <==> LookedUp(s, slot)
  {
    if LookedUp(s, slot) {
      var h :| h in s.handles && IsLookupOf(s, h, slot);
      assert IsLookupOf(t, h, slot);
    }
    if LookedUp(t, slot) {
      var h :| h in t.handles && IsLookupOf(t, h, slot);
      assert IsLookupOf(s, h, slot);
    }
  }

  lemma EndDropLeaksNothing(s: State, h: nat)
    requires Inv(s) && NoLeak(s) && Enabled(s, EndDrop(h))
    ensures NoLeak(Step(s, EndDrop(h)))
  {
    var t := Step(s, EndDrop(h));
    forall id | id in t.inner ensures t.inner[id] in t.occupied || LookedUp(t, t.inner[id]) {
      if LookedUp(s, s.inner[id]) {
        var k :| k in s.handles && IsLookupOf(s, k, s.inner[id]);
        assert k in t.handles && IsLookupOf(t, k, t.inner[id]);
      }
    }
  }

  lemma NewHolderLeaksNothing(s: State, e: Event)
    requires Inv(s) && NoLeak(s) && Enabled(s, e) && (e.LookupSlot? || e.GetExisting? || e.Remove?)
    ensures NoLeak(Step(s, e))
  {
    hide CanRemove, Registers, Removals, NoLeak, LookedUp, Locks, Attachments, PoolsOwned;
    AddedHandleLeaksNothing(s, Step(s, e));
  }

  lemma SameHoldersLeakNothing(s: State, e: Event)
    requires Inv(s) && NoLeak(s) && Enabled(s, e)
    requires (e.RegisterPool? || e.Lock? || e.Unlock? || e.Occupy? || e.CleanUp?)
    ensures NoLeak(Step(s, e))
  {
    hide Removals, NoLeak, LookedUp, Locks, Attachments, PoolsOwned;
    AddedHandleLeaksNothing(s, Step(s, e));
  }

  /** From a state without leaked slots, a step leaks one exactly when it is one of the three. */
  lemma StepLeaksExactly(s: State, e: Event)
    requires Inv(s) && NoLeak(s) && Enabled(s, e)
    ensures NoLeak(Step(s, e)) <==> !Leaks(s, e)
  {
    match e
    case BeginDrop(h) => DropLeaksExactly(s, h);
    case Vacate(h) => VacateLeaksExactly(s, h);
    case EndDrop(h) => EndDropLeaksNothing(s, h);
    case GetOrCreate(id) => CreateLeaksNothing(s, id);
    case SlotFor(id) => SlotForLeaksExactly(s, id);
    case LookupSlot(_) => NewHolderLeaksNothing(s, e);
    case GetExisting(_) => NewHolderLeaksNothing(s, e);
    case Remove(_) => NewHolderLeaksNothing(s, e);
    case _ => SameHoldersLeakNothing(s, e);
  }

  lemma {:induction false} NoSlotIsLeaked(states: seq<State>, events: seq<Event>, i: nat)
    requires IsRun(states, events) && i < |states|
    requires forall j | 0 <= j < i :: Takes(states, events, j) && !Leaks(states[j], events[j])
    ensures NoLeak(states[i])
    decreases i
  {
    if i > 0 {
      NoSlotIsLeaked(states, events, i - 1);
      RunKeeps(states, events, i - 1);
      assert Takes(states, events, i - 1);
      StepLeaksExactly(states[i - 1], events[i - 1]);
    }
  }

  // --- Drops in one step ----------------------------------------------------------------------------------

  /** The step hands out a raw handle on a registered slot. */
  predicate TakesRaw(e: Event) {
    e.GetExisting? || e.SlotFor?
  }

  /** Every drop runs to its end before anything else happens, and no raw handle is taken. */
  ghost predicate OneStepDrops(events: seq<Event>) {
    && (forall j | 0 <= j < |events| - 1 && events[j].BeginDrop? :: events[j + 1] == EndDrop(events[j].h))
    && (forall j | 0 <= j < |events| :: !TakesRaw(events[j]))
  }

  /** Raw handles hold slots that were taken out of the registry, and only the handle that the last step
      began to drop is closing. */
  ghost predicate Tidy(s: State, last: Option<Event>) {
    && (forall h | h in s.handles && s.handles[h].kind == Raw :: Retired(s, s.handles[h].slot))
    && (forall h | h in s.handles && s.handles[h].closing :: last == Some(BeginDrop(h)))
  }

  lemma RawStaysRetired(s: State, e: Event, h: nat)
    requires Inv(s) && Enabled(s, e) && !TakesRaw(e) && h in Step(s, e).handles && Step(s, e).handles[h].kind == Raw
    requires h in s.handles && s.handles[h].kind == Raw ==> Retired(s, s.handles[h].slot)
    ensures Retired(Step(s, e), Step(s, e).handles[h].slot)
  {
    hide Locks, Attachments, PoolsOwned, CanRemove, Registers, Retired;
    if h in s.handles {
      SameHandle(s, e, h);
      StepRetires(s, e, s.handles[h].slot);
    } else {
      assert e.Remove? && e.id in s.inner;
      RemoveRetires(s, e.id);
    }
  }

  /** The step makes a handle. */
  predicate MakesHandle(e: Event) {
    e.LookupSlot? || e.GetOrCreate? || e.GetExisting? || e.SlotFor? || e.Remove?
  }

  lemma RemoveKeepsHandles(s: State, id: string, h: nat)
    requires Numbers(s) && h in s.handles
    ensures h in DoRemove(s, id).handles && DoRemove(s, id).handles[h] == s.handles[h]
  {
    hide Removals;
  }

  lemma MakingKeepsHandles(s: State, e: Event, h: nat)
    requires Numbers(s) && Enabled(s, e) && MakesHandle(e) && h in s.handles
    ensures h in Step(s, e).handles && Step(s, e).handles[h] == s.handles[h]
  {
    hide Removals, CanRemove, Registers, DoRemove;
    if e.Remove? {
      RemoveKeepsHandles(s, e.id, h);
    }
  }

  lemma OtherStepsKeepHandles(s: State, e: Event, h: nat)
    requires Enabled(s, e) && !MakesHandle(e) && h in s.handles
    ensures h in Step(s, e).handles || e == EndDrop(h)
    ensures h in Step(s, e).handles && e != BeginDrop(h) ==> Step(s, e).handles[h] == s.handles[h]
    ensures e == BeginDrop(h) ==> Step(s, e).handles[h] == s.handles[h].(closing := true)
    ensures forall k | k in Step(s, e).handles :: k in s.handles
  {
    hide Removals, CanRemove, Registers;
  }

  lemma SameHandle(s: State, e: Event, h: nat)
    requires Numbers(s) && Enabled(s, e) && h in s.handles && h in Step(s, e).handles
    ensures Step(s, e).handles[h].slot == s.handles[h].slot && Step(s, e).handles[h].kind == s.handles[h].kind
  {
    hide Step, Enabled, Numbers;
    if MakesHandle(e) {
      MakingKeepsHandles(s, e, h);
    } else {
      OtherStepsKeepHandles(s, e, h);
    }
  }

  lemma MadeHandlesAreOpen(s: State, e: Event, h: nat)
    requires Enabled(s, e) && MakesHandle(e) && h in Step(s, e).handles && Step(s, e).handles[h].closing
    ensures h in s.handles && s.handles[h].closing
  {
    hide Removals, CanRemove, Registers, DoRemove;
    if e.Remove? {
      RemovedHandlesAreOpen(s, e.id, h);
    }
  }

  lemma RemovedHandlesAreOpen(s: State, id: string, h: nat)
    requires h in DoRemove(s, id).handles && DoRemove(s, id).handles[h].closing
    ensures h in s.handles && s.handles[h].closing
  {
    hide Removals;
  }

  /** Only the first half of a drop makes a handle closing. */
  lemma ClosingComesFromDrop(s: State, e: Event, h: nat)
    requires Enabled(s, e) && h in Step(s, e).handles && Step(s, e).handles[h].closing
    ensures e == BeginDrop(h) || (h in s.handles && s.handles[h].closing && e != EndDrop(h))
  {
    if MakesHandle(e) {
      MadeHandlesAreOpen(s, e, h);
    } else {
      ReleasedIsGone(s, h, e);
      hide Step, Enabled;
      if h in s.handles {
        OtherStepsKeepHandles(s, e, h);
      }
    }
  }

  lemma ReleasedIsGone(s: State, h: nat, e: Event)
    requires Enabled(s, e) && !MakesHandle(e) && h in Step(s, e).handles
    ensures h in s.handles && e != EndDrop(h)
  {
    hide Removals, CanRemove, Registers;
  }

  lemma StepTidies(s: State, last: Option<Event>, e: Event)
    requires Inv(s) && Tidy(s, last) && Enabled(s, e) && !TakesRaw(e)
    requires last.Some? && last.value.BeginDrop? ==> e == EndDrop(last.value.h)
    ensures Tidy(Step(s, e), Some(e))
  {
    hide Inv, Enabled, Step, Retired;
    var t := Step(s, e);
    forall h | h in t.handles && t.handles[h].kind == Raw ensures Retired(t, t.handles[h].slot) {
      RawStaysRetired(s, e, h);
    }
    forall h | h in t.handles && t.handles[h].closing ensures e == BeginDrop(h) {
      ClosingComesFromDrop(s, e, h);
    }
  }

  lemma TidyLeaksNothing(s: State, last: Option<Event>, e: Event)
    requires Inv(s) && Tidy(s, last) && Enabled(s, e) && !TakesRaw(e)
    requires last.Some? && last.value.BeginDrop? ==> e == EndDrop(last.value.h)
    ensures !Leaks(s, e)
  {
    if e.BeginDrop? && Registers(s, e.h) && LastLookup(s, e.h) {
      var slot := s.handles[e.h].slot;
      assert !Retired(s, slot);
      assert forall k | k in s.handles && s.handles[k].slot == slot :: IsLookupOf(s, k, slot);
      assert Holders(s, slot) == {e.h};
    }
  }

  lemma {:induction false} RunIsTidy(states: seq<State>, events: seq<Event>, i: nat)
    requires IsRun(states, events) && OneStepDrops(events) && i < |states|
    ensures Tidy(states[i], if i == 0 then None else Some(events[i - 1]))
    decreases i
  {
    if i > 0 {
      hide Inv, Tidy, Enabled, Step;
      RunIsTidy(states, events, i - 1);
      RunKeeps(states, events, i - 1);
      assert Takes(states, events, i - 1);
      assert i > 1 && events[i - 2].BeginDrop? ==> events[i - 2 + 1] == EndDrop(events[i - 2].h);
      StepTidies(states[i - 1], if i == 1 then None else Some(events[i - 2]), events[i - 1]);
    }
  }

  /** With every handle a lookup that is dropped in one step, every registered slot is occupied or held by a
      live lookup, in every state. */
  lemma OneStepDropsLeakNothing(states: seq<State>, events: seq<Event>, i: nat)
    requires IsRun(states, events) && OneStepDrops(events) && i < |states|
    ensures NoLeak(states[i])
  {
    forall j | 0 <= j < i ensures Takes(states, events, j) && !Leaks(states[j], events[j]) {
      RunIsTidy(states, events, j);
      RunKeeps(states, events, j);
      assert Takes(states, events, j);
      assert j > 0 && events[j - 1].BeginDrop? ==> events[j - 1 + 1] == EndDrop(events[j - 1].h);
      TidyLeaksNothing(states[j], if j == 0 then None else Some(events[j - 1]), events[j]);
    }
    NoSlotIsLeaked(states, events, i);
  }

  // --- Two drops at once ----------------------------------------------------------------------------------

  function OverlappingEvents(): seq<Event> {
    [GetOrCreate("a"), LookupSlot("a"), BeginDrop(0), BeginDrop(1), EndDrop(0), EndDrop(1)]
  }

  function OverlappingState(handles: map<nat, Handle>, made: nat): State {
    State(map["a" := 0], map[], {}, handles, {}, map[], 1, made, map[])
  }

  function OverlappingStates(): seq<State> {
    var live, closing := Handle("a", 0, Lookup, false, true, 0), Handle("a", 0, Lookup, true, true, 0);
    [ INITIAL,
      OverlappingState(map[0 := live], 1),
      OverlappingState(map[0 := live, 1 := live], 2),
      OverlappingState(map[0 := closing, 1 := live], 2),
      OverlappingState(map[0 := closing, 1 := closing], 2),
      OverlappingState(map[1 := closing], 2),
      OverlappingState(map[], 2) ]
  }

  lemma OverlappingMakes(i: nat)
    requires i < 2
    ensures Takes(OverlappingStates(), OverlappingEvents(), i)
  {
    var s, t, e := OverlappingStates()[i], OverlappingStates()[i + 1], OverlappingEvents()[i];
    assert Step(s, e).inner == t.inner && Step(s, e).handles == t.handles;
  }

  /** With two handles the count is 3, and the drop removes nothing. */
  lemma ThreeIsTooMany(s: State, h: nat)
    requires s.handles.Keys == {0, 1} && s.handles[0].slot == s.handles[1].slot == 0 && s.inner == map["a" := 0]
    requires Enabled(s, BeginDrop(h))
    ensures Step(s, BeginDrop(h)) == s.(handles := s.handles[h := s.handles[h].(closing := true)])
  {
    hide Enabled, Registers;
    assert Holders(s, 0) == {0, 1} && Entries(s, 0) == {"a"};
    assert StrongCount(s, 0) == 3;
  }

  lemma OverlappingBegins(i: nat)
    requires 2 <= i < 4
    ensures Takes(OverlappingStates(), OverlappingEvents(), i)
  {
    hide Step;
    var s, t, e := OverlappingStates()[i], OverlappingStates()[i + 1], OverlappingEvents()[i];
    assert s.handles.Keys == {0, 1};
    ThreeIsTooMany(s, e.h);
    assert Step(s, e).handles == t.handles;
  }

  lemma OverlappingEnds(i: nat)
    requires 4 <= i < 6
    ensures Takes(OverlappingStates(), OverlappingEvents(), i)
  {
    var s, t, e := OverlappingStates()[i], OverlappingStates()[i + 1], OverlappingEvents()[i];
    assert Step(s, e).handles == t.handles;
  }

  lemma OverlappingTakes(i: nat)
    requires i < 6
    ensures Takes(OverlappingStates(), OverlappingEvents(), i)
  {
    hide Takes;
    if i < 2 {
      OverlappingMakes(i);
    } else if i < 4 {
      OverlappingBegins(i);
    } else {
      OverlappingEnds(i);
    }
  }

  /** Two last lookups of an empty slot dropped at once each see the other's hold on it: the slot stays in the
      registry with nobody left to remove it. */
  lemma OverlappingDropsLeak()
    ensures IsRun(OverlappingStates(), OverlappingEvents())
    ensures var s := OverlappingStates()[6];
      "a" in s.inner && s.handles == map[] && s.occupied == {} && !NoLeak(s)
  {
    forall i | 0 <= i < |OverlappingEvents()| ensures Takes(OverlappingStates(), OverlappingEvents(), i) {
      OverlappingTakes(i);
    }
  }
}
