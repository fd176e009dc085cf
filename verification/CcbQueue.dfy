/** Openings and queued, held and active CCBs of a device (sys/cam/cam_queue.h, sys/cam/cam_queue.c). */
module CcbQueue {
  import opened CamHeap
  import opened CamKeys
  import opened CamQueue

  const CAM_ACTIVE_INDEX := -2

  class Ccbq {
    const queue: Camq
    var devqOpenings: int
    var devOpenings: int
    var devActive: int
    var held: int
    var active: seq<Pinfo>
    var resizeNeeded: bool
    var scheduled: bool

    /** How many CCBs the device may have in all. */
    ghost function Total(): int
      reads this
    {
      devOpenings + devActive
    }

    /** How many CCBs it has. */
    function Outstanding(): int
      reads this, queue`entries
    {
      held + queue.entries + devActive
    }

    function ArraySize(): nat
      reads queue
      requires queue.queue.Length > 0
    {
      queue.queue.Length - 1
    }

    /** Every opening is free, held, queued or active. */
    ghost predicate Balanced()
      reads this, queue
    {
      && queue.queue.Length > 0
      && devqOpenings + Outstanding() == Total()
      && held >= 0 && devActive == |active|
    }

    /** Every CCB, and every CCB there may be, has a slot in the array. */
    ghost predicate Roomy()
      reads this, queue
      requires queue.queue.Length > 0
    {
      Total() <= ArraySize() && Outstanding() <= ArraySize()
    }

    /** There is room, and a device that waits for a CCB has an opening for it. */
    ghost predicate Orderly()
      reads this, queue
      requires queue.queue.Length > 0
    {
      Roomy() && (scheduled ==> devqOpenings > 0)
    }

    /** In an orderly state a held CCB finds a free slot. */
    lemma RoomForHeld()
      requires Balanced() && Roomy() && held > 0
      ensures queue.entries < ArraySize()
    {
    }

    /** The queue links its entries, and an active CCB is in the active list once and not in the queue. */
    ghost predicate Listed()
      reads this, queue, queue.queue, queue.members, active
    {
      && queue.Linked(queue.entries)
      && (forall i :: 0 <= i < |active| ==> active[i].index == CAM_ACTIVE_INDEX && active[i] !in queue.members)
      && (forall i, j :: 0 <= i < j < |active| ==> active[i] != active[j])
    }

    constructor (openings: nat)
      ensures Balanced() && Listed() && Orderly() && !scheduled && !resizeNeeded
      ensures Total() == openings == ArraySize() == devqOpenings && active == [] && queue.entries == 0 && queue.members == {}
      ensures fresh(queue) && fresh(queue.queue)
    {
      queue := new Camq(openings);
      devqOpenings, devOpenings, devActive, held, active := openings, openings, 0, 0, [];
      resizeNeeded, scheduled := false, false;
    }

    /**
     xpt_schedule_dev_allocq: a device with a free opening waits for a CCB.  This
     is where openings are tested, and where a shrink that was put off is done.
     */
    method Schedule(memory: bool)
      requires Balanced() && Listed()
      modifies this, queue`queue
      ensures Balanced() && Listed() && active == old(active) && held == old(held) && Total() == old(Total())
      ensures queue.Slots(queue.entries) == old(queue.Slots(queue.entries)) && devqOpenings == old(devqOpenings)
      ensures queue.queue == old(queue.queue) || fresh(queue.queue)
      ensures scheduled == (old(scheduled) || devqOpenings > 0)
      ensures resizeNeeded == (old(resizeNeeded) && devqOpenings <= 0)
      ensures ArraySize() == if old(resizeNeeded) && devqOpenings > 0 && memory then Total() else old(ArraySize())
      ensures old(resizeNeeded) && devqOpenings > 0 && memory ==> Roomy()
      ensures old(Orderly()) ==> Orderly()
    {
      if devqOpenings > 0 {
        if resizeNeeded {
          var _ := Resize(devOpenings + devActive, memory);
          resizeNeeded := false;
        }
        scheduled := true;
      }
    }

    /**
     xpt_get_ccb for a device that was waiting: unless no CCB can be allocated, an
     opening is taken without looking whether one is still free.
     */
    method TakeOpening(memory: bool)
      requires Balanced() && Listed() && scheduled
      modifies this
      ensures Balanced() && Listed() && Total() == old(Total()) && active == old(active)
      ensures !scheduled && resizeNeeded == old(resizeNeeded)
      ensures held == (if memory then old(held) + 1 else old(held))
      ensures devqOpenings == (if memory then old(devqOpenings) - 1 else old(devqOpenings))
      ensures memory && old(Roomy()) ==> (Roomy() <==> old(Outstanding() < ArraySize()))
      ensures old(Orderly()) ==> Orderly()
    {
      scheduled := false;
      if memory {
        devqOpenings := devqOpenings - 1;
        held := held + 1;
      }
    }

    /** A held CCB joins the queue. */
    method InsertCcb(ccb: Pinfo)
      requires Balanced() && Listed() && held > 0 && queue.entries < ArraySize()
      requires ccb !in queue.members && ccb !in active
      modifies this, queue, queue.queue, queue.members`index, ccb`index
      ensures Balanced() && Listed() && Total() == old(Total()) && active == old(active)
      ensures held == old(held) - 1 && devqOpenings == old(devqOpenings) && queue.entries == old(queue.entries) + 1
      ensures scheduled == old(scheduled) && resizeNeeded == old(resizeNeeded)
      ensures queue.queue == old(queue.queue) && queue.members == old(queue.members) + {ccb}
      ensures queue.Slots(queue.entries) == Inserted(SlotCmp, old(queue.Slots(queue.entries)), Slot(ccb, Key(ccb.priority, ccb.generation)))
      ensures old(Orderly()) ==> Orderly()
    {
      held := held - 1;
      queue.Insert(ccb);
    }

    /** The head of the queue goes to the controller. */
    method SendHead() returns (ccb: Pinfo)
      requires Balanced() && Listed() && queue.entries > 0
      modifies this, queue, queue.queue, queue.members`index
      ensures Balanced() && Listed() && Total() == old(Total())
      ensures ccb == old(queue.Slots(queue.entries)[0].who) && active == old(active) + [ccb]
      ensures held == old(held) && devqOpenings == old(devqOpenings) && queue.entries == old(queue.entries) - 1
      ensures scheduled == old(scheduled) && resizeNeeded == old(resizeNeeded)
      ensures queue.queue == old(queue.queue) && queue.members == old(queue.members) - {ccb}
      ensures old(Orderly()) ==> Orderly()
      ensures queue.Slots(queue.entries) == Removed(SlotCmp, old(queue.Slots(queue.entries)), CAMQ_HEAD)
    {
      ccb := queue.queue[CAMQ_HEAD];
      var removed := queue.Remove(ccb.index);
      Send(ccb);
    }

    method Send(ccb: Pinfo)
      requires queue.Linked(queue.entries) && ccb !in queue.members && ccb !in active
      requires forall i :: 0 <= i < |active| ==> active[i].index == CAM_ACTIVE_INDEX && active[i] !in queue.members
      requires forall i, j :: 0 <= i < j < |active| ==> active[i] != active[j]
      modifies this, ccb`index
      ensures Listed() && active == old(active) + [ccb]
      ensures devActive == old(devActive) + 1 && devOpenings == old(devOpenings) - 1
      ensures held == old(held) && devqOpenings == old(devqOpenings)
      ensures scheduled == old(scheduled) && resizeNeeded == old(resizeNeeded)
      ensures queue.Slots(queue.entries) == old(queue.Slots(queue.entries))
    {
      active := active + [ccb];
      ccb.index := CAM_ACTIVE_INDEX;
      devActive := devActive + 1;
      devOpenings := devOpenings - 1;
    }

    /** An active CCB comes back; its opening is held again. */
    method CcbDone(n: nat)
      requires Balanced() && Listed() && n < |active|
      modifies this
      ensures Balanced() && Listed() && Total() == old(Total())
      ensures active == old(active)[..n] + old(active)[n + 1..] && held == old(held) + 1
      ensures devqOpenings == old(devqOpenings)
      ensures scheduled == old(scheduled) && resizeNeeded == old(resizeNeeded)
      ensures old(Orderly()) ==> Orderly()
    {
      active := active[..n] + active[n + 1..];
      devActive := devActive - 1;
      devOpenings := devOpenings + 1;
      held := held + 1;
    }

    /**
     XPT_ABORT of a queued CCB: it is taken off the queue and then completed as if
     it had been active.  One opening is lost, whatever the state was.
     */
    method AbortQueued(i: nat)
      requires Balanced() && queue.Linked(queue.entries) && 1 <= i <= queue.entries
      modifies this`devActive, this`devOpenings, this`held, queue, queue.queue, queue.members`index
      ensures queue.Linked(queue.entries) && queue.entries == old(queue.entries) - 1
      ensures queue.Slots(queue.entries) == Removed(SlotCmp, old(queue.Slots(queue.entries)), i)
      ensures held == old(held) + 1 && Total() == old(Total())
      ensures devqOpenings + Outstanding() == Total() - 1 && !Balanced()
    {
      var removed := queue.Remove(i);
      devActive := devActive - 1;
      devOpenings := devOpenings + 1;
      held := held + 1;
    }

    method ReleaseOpening()
      requires Balanced() && Listed() && held > 0
      modifies this
      ensures Balanced() && Listed() && Total() == old(Total()) && active == old(active)
      ensures held == old(held) - 1 && devqOpenings == old(devqOpenings) + 1
      ensures scheduled == old(scheduled) && resizeNeeded == old(resizeNeeded)
      ensures old(Orderly()) ==> Orderly()
    {
      held := held - 1;
      devqOpenings := devqOpenings + 1;
    }

    /**
     A new number of CCBs.  The array follows at once unless what is outstanding would not fit the smaller one;
     only an array that cannot be allocated makes the change fail.
     */
    method Resize(size: int, memory: bool) returns (ok: bool)
      requires Balanced() && Listed()
      modifies this`devqOpenings, this`devOpenings, queue`queue
      ensures Balanced() && Listed()
      ensures queue.Slots(queue.entries) == old(queue.Slots(queue.entries))
      ensures queue.queue == old(queue.queue) || fresh(queue.queue)
      ensures ok == (memory || size < Outstanding())
      ensures Total() == if ok then size else old(Total())
      ensures ArraySize() == if memory && size >= Outstanding() then size else old(ArraySize())
      ensures old(Roomy()) ==> Roomy()
    {
      var delta := size - (devActive + devOpenings);
      var space := size - queue.entries - held - devActive;
      ok := true;
      if space >= 0 {
        ok := queue.Resize(size, memory);
      }
      if ok {
        devqOpenings := devqOpenings + delta;
        devOpenings := devOpenings + delta;
      }
    }

    /**
     xpt_dev_ccbq_resize: a smaller number is noted, to be looked at again when
     the device is next scheduled.  A device that waits stays in order exactly
     when an opening is left for it.
     */
    method SetOpenings(size: int, memory: bool) returns (ok: bool)
      requires Balanced() && Listed()
      modifies this`devqOpenings, this`devOpenings, this`resizeNeeded, queue`queue
      ensures Balanced() && Listed()
      ensures queue.Slots(queue.entries) == old(queue.Slots(queue.entries))
      ensures queue.queue == old(queue.queue) || fresh(queue.queue)
      ensures ok == (memory || size < Outstanding())
      ensures Total() == if ok then size else old(Total())
      ensures ArraySize() == if memory && size >= Outstanding() then size else old(ArraySize())
      ensures resizeNeeded == (old(resizeNeeded) || (ok && size < old(Total())))
      ensures old(Orderly()) ==> (Orderly() <==> !ok || !scheduled || size > Outstanding())
    {
      var diff := size - (devActive + devOpenings);
      ok := Resize(size, memory);
      if ok && diff < 0 {
        resizeNeeded := true;
      }
    }
  }

  /** Two openings, one CCB active, the device waiting for another. */
  method Waiting(one: Pinfo) returns (c: Ccbq)
    modifies one`index
    ensures fresh(c) && fresh(c.queue) && fresh(c.queue.queue) && c.Balanced() && c.Listed() && c.Orderly() && c.scheduled
    ensures c.held == 0 && c.active == [one] && c.queue.entries == 0 && c.queue.members == {} && c.ArraySize() == 2 == c.Total()
  {
    c := new Ccbq(2);
    c.Schedule(true);
    c.TakeOpening(true);
    c.InsertCcb(one);
    var sent := c.SendHead();
    c.Schedule(true);
  }

  /**
   The openings are reduced to one while the device waits.  It takes a second
   CCB all the same, and when both CCBs are queued again there is no slot for one.
   */
  method TakenTwice(one: Pinfo, two: Pinfo) returns (c: Ccbq)
    requires one != two
    modifies one`index, two`index
    ensures c.Balanced() && c.Listed() && !c.Roomy()
    ensures c.held == 1 && c.queue.entries == c.ArraySize() == 1
  {
    c := Waiting(one);
    var ok := c.SetOpenings(1, true);
    c.TakeOpening(true);
    c.InsertCcb(two);
    c.CcbDone(0);
  }
}
