/** The registry `Sessions` as an object. Its methods run under the mutexes of the two maps, and take the
    steps of the model. */
module SessionRegistry {
  import opened Options
  import opened SessionModel

  class Sessions {
    var inner: map<string, nat>
    var pools: map<string, Pool>
    /** The slots' side: who holds each slot, which are occupied and which are locked. */
    var handles: map<nat, Handle>
    var occupied: set<nat>
    var locks: map<nat, nat>
    var nextSlot: nat
    var nextHandle: nat
    /** Records that no method reads: the pools that were cancelled, and how often each id was removed. */
    var cancelled: set<nat>
    var removals: map<string, nat>

    function View(): State
      reads this
    {
      State(inner, pools, cancelled, handles, occupied, locks, nextSlot, nextHandle, removals)
    }

    constructor ()
      ensures View() == INITIAL
    {
      inner, pools, handles, occupied, locks, nextSlot, nextHandle := map[], map[], map[], {}, map[], 0, 0;
      cancelled, removals := {}, map[];
    }

    /** A new holder of a slot; `attached` is whether the slot is the id's registered one. */
    method Hold(id: string, slot: nat, kind: Kind, attached: bool) returns (h: nat)
      modifies this
      ensures View() == WithHandle(old(View()), id, slot, kind, attached) && h == old(nextHandle)
    {
      h := nextHandle;
      handles := handles[h := Handle(id, slot, kind, false, attached, if id in removals then removals[id] else 0)];
      nextHandle := nextHandle + 1;
    }

    method NewSlot() returns (slot: nat)
      modifies this`nextSlot
      ensures slot == old(nextSlot) && nextSlot == old(nextSlot) + 1
    {
      slot := nextSlot;
      nextSlot := nextSlot + 1;
    }

    method LookupSlot(id: string) returns (h: nat)
      modifies this
      ensures View() == Step(old(View()), Event.LookupSlot(id)) && h == old(nextHandle)
    {
      if id in inner {
        h := Hold(id, inner[id], Lookup, true);
      } else {
        var detached := NewSlot();
        h := Hold(id, detached, Lookup, false);
      }
    }

    /** The body of `slot_for`: the id's slot, registered now if there was none. */
    method RegisteredSlot(id: string) returns (slot: nat)
      modifies this`inner, this`nextSlot
      ensures id in inner && slot == inner[id]
      ensures if id in old(inner) then inner == old(inner) && nextSlot == old(nextSlot)
              else inner == old(inner)[id := old(nextSlot)] && nextSlot == old(nextSlot) + 1
    {
      if id !in inner {
        var made := NewSlot();
        inner := inner[id := made];
      }
      slot := inner[id];
    }

    method GetOrCreate(id: string) returns (h: nat)
      modifies this
      ensures View() == Step(old(View()), Event.GetOrCreate(id)) && h == old(nextHandle)
    {
      var slot := RegisteredSlot(id);
      h := Hold(id, slot, Lookup, true);
    }

    /** `slot_for`, when its caller keeps the slot. */
    method SlotFor(id: string) returns (h: nat)
      modifies this
      ensures View() == Step(old(View()), Event.SlotFor(id)) && h == old(nextHandle)
    {
      var slot := RegisteredSlot(id);
      h := Hold(id, slot, Raw, true);
    }

    method GetExisting(id: string) returns (h: Option<nat>)
      modifies this
      ensures h.Some? <==> old(id in inner)
      ensures View() == if h.Some? then Step(old(View()), Event.GetExisting(id)) else old(View())
    {
      if id in inner {
        var taken := Hold(id, inner[id], Raw, true);
        h := Some(taken);
      } else {
        h := None;
      }
    }

    /** Takes the id out of both maps and cancels its pool; the caller gets the slot. */
    method Remove(id: string) returns (h: Option<nat>)
      modifies this
      ensures View() == Step(old(View()), Event.Remove(id)) && (h.Some? <==> old(id in inner))
    {
      hide Enabled, DoCreate, DoLookup, CanRemove, Registers;
      var slot := if id in inner then Some(inner[id]) else None;
      inner := inner - {id};
      if id in pools {
        cancelled := cancelled + {pools[id].pool};
      }
      pools := pools - {id};
      removals := removals[id := (if id in removals then removals[id] else 0) + 1];
      h := None;
      if slot.Some? {
        var taken := Hold(id, slot.value, Raw, false);
        h := Some(taken);
      }
    }

    method RegisterPool(h: nat, pool: nat) returns (registered: bool)
      requires Enabled(View(), Event.RegisterPool(h, pool))
      modifies this`pools
      ensures registered == Registers(old(View()), h)
      ensures View() == Step(old(View()), Event.RegisterPool(h, pool))
    {
      var id, slot := handles[h].id, handles[h].slot;
      if !(id in inner && inner[id] == slot) {
        return false;
      }
      pools := pools[id := Pool(pool, slot)];
      return true;
    }

    method RemoveIfEmpty(h: nat) returns (removed: bool)
      requires Usable(View(), h)
      modifies this`inner, this`pools
      ensures removed == CanRemove(old(View()), h)
      ensures View() == SessionModel.RemoveIfEmpty(old(View()), h)
    {
      var id, slot := handles[h].id, handles[h].slot;
      removed := id in inner && inner[id] == slot && StrongCount(View(), slot) == 2
        && slot !in locks && slot !in occupied;
      if removed {
        inner := inner - {id};
        pools := pools - {id};
      }
    }

    /** The body of `Drop::drop` of a lookup; the slot is released afterwards. */
    method BeginDrop(h: nat)
      requires Enabled(View(), Event.BeginDrop(h))
      modifies this
      ensures View() == Step(old(View()), Event.BeginDrop(h))
    {
      var removed := RemoveIfEmpty(h);
      handles := handles[h := handles[h].(closing := true)];
    }

    method EndDrop(h: nat)
      requires Enabled(View(), Event.EndDrop(h))
      modifies this`handles
      ensures View() == Step(old(View()), Event.EndDrop(h))
    {
      handles := handles - {h};
    }
  }
}
