/** The free-list slots of a thread and their undo log (lib/sivfs_allocator.h): a
    transaction overwrites slots freely, and an abort replays the saved values backwards. */
module FreeListUndo {
  import opened Types

  type SlotId = nat
  type Slots = map<SlotId, Option<nat>>

  /** Put back the saved values, the youngest first. */
  function Replay(slots: Slots, ptrs: seq<SlotId>, values: seq<Option<nat>>): Slots
    requires |ptrs| == |values|
    decreases |ptrs|
  {
    if ptrs == [] then slots
    else
      var n := |ptrs| - 1;
      Replay(slots[ptrs[n] := values[n]], ptrs[..n], values[..n])
  }

  /** Saving a slot's value and overwriting it does not change what a replay gives. */
  lemma ReplayAfterSet(slots: Slots, ptrs: seq<SlotId>, values: seq<Option<nat>>, slot: SlotId, list: Option<nat>)
    requires |ptrs| == |values| && slot in slots
    ensures Replay(slots[slot := list], ptrs + [slot], values + [slots[slot]]) == Replay(slots, ptrs, values)
  {
    assert (ptrs + [slot])[..|ptrs|] == ptrs && (values + [slots[slot]])[..|values|] == values;
    assert slots[slot := list][slot := slots[slot]] == slots;
  }

  class ThreadLists {
    var slots: Slots
    var ptrs: seq<SlotId>              // restore_old_free_list_ptrs
    var values: seq<Option<nat>>       // restore_old_free_list_values
    ghost var atStart: Slots           // the slots when the transaction began

    ghost predicate Valid()
      reads this
    {
      && |ptrs| == |values| && (forall i :: 0 <= i < |ptrs| ==> ptrs[i] in slots)
      && slots.Keys == atStart.Keys && Replay(slots, ptrs, values) == atStart
    }

    constructor (initial: Slots)
      ensures Valid() && slots == initial && atStart == initial
    {
      slots, ptrs, values, atStart := initial, [], [], initial;
    }

    /** sivfs_set_free_list. Without enough `memory` either push may fail; the first is then
        undone. */
    method SetFreeList(slot: SlotId, list: Option<nat>, memory: bool) returns (rc: Rc)
      requires Valid() && slot in slots
      modifies this`slots, this`ptrs, this`values
      ensures Valid()
      ensures if memory then rc == Ok else rc == Ok || rc == ENoMem
      ensures slots == if rc == Ok then old(slots)[slot := list] else old(slots)
      ensures rc != Ok ==> ptrs == old(ptrs) && values == old(values)
    {
      var outOfMemory: bool := *;
      if outOfMemory && !memory {
        return ENoMem;
      }
      ptrs := ptrs + [slot];
      outOfMemory := *;
      if outOfMemory && !memory {
        ptrs := ptrs[..|ptrs| - 1];
        assert ptrs == old(ptrs);
        return ENoMem;
      }
      ReplayAfterSet(slots, old(ptrs), values, slot, list);
      values := values + [slots[slot]];
      slots := slots[slot := list];
      rc := Ok;
    }

    /** sivfs_lib_allocation_on_commit: an abort restores every slot, a commit keeps them. */
    method OnCommit(aborted: bool)
      requires Valid()
      modifies this
      ensures Valid() && ptrs == [] && slots == atStart
      ensures slots == if aborted then old(atStart) else old(slots)
    {
      if aborted {
        var i := |ptrs|;
        assert ptrs[..i] == ptrs && values[..i] == values;
        while i > 0
          invariant 0 <= i <= |ptrs| == |values| && ptrs == old(ptrs) && values == old(values)
          invariant Replay(slots, ptrs[..i], values[..i]) == old(atStart)
          decreases i
        {
          i := i - 1;
          assert ptrs[..i + 1][..i] == ptrs[..i] && values[..i + 1][..i] == values[..i];
          slots := slots[ptrs[i] := values[i]];
        }
      }
      ptrs, values := [], [];
      atStart := slots;
    }
  }
}
