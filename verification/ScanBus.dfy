/** Scanning a bus: one lun walk per target, all at once or one after the other (sys/cam/cam_xpt.c). */
module ScanBus {
  const CAM_SCSI2_MAXLUN := 8

  /** The walk over the luns of one target. */
  datatype Walk = Waiting | Active(lun: nat) | Ended

  /**
   * What a probe of a lun shows: no device, with or without other devices on the target and a first device
   * that allows sparse high luns; or a device, with or without the quirk of having one lun, that allows high luns.
   */
  datatype Probe = Missing(others: bool, sparse: bool) | Found(noLuns: bool, dense: bool)

  /** The lun to look at next; the same one if there is none. */
  function NextLun(lun: nat, p: Probe): (n: nat)
    ensures n == lun || n == lun + 1
    ensures n == lun <==> (if p.Found? then p.noLuns else lun == 0 && !p.others)
                          || (lun >= CAM_SCSI2_MAXLUN - 1 && !(if p.Found? then p.dense else p.sparse))
  {
    match p
    case Missing(others, sparse) =>
      if (lun != 0 || others) && (lun < CAM_SCSI2_MAXLUN - 1 || sparse) then lun + 1 else lun
    case Found(noLuns, dense) =>
      if !noLuns && (lun < CAM_SCSI2_MAXLUN - 1 || dense) then lun + 1 else lun
  }

  /** How many of the first `n` targets, without the initiator, have not ended. */
  function Open(walks: seq<Walk>, initiator: nat, n: nat): (c: nat)
    requires n <= |walks|
    ensures c <= n
  {
    if n == 0 then 0
    else Open(walks, initiator, n - 1) + if n - 1 != initiator && walks[n - 1] != Ended then 1 else 0
  }

  /** How many probes the first `n` targets can still take. */
  function Left(walks: seq<Walk>, maxLun: nat, n: nat): nat
    requires n <= |walks|
  {
    if n == 0 then 0 else Left(walks, maxLun, n - 1) + LeftOf(walks[n - 1], maxLun)
  }

  function LeftOf(w: Walk, maxLun: nat): nat {
    match w
    case Waiting => maxLun + 1
    case Active(lun) => if lun <= maxLun then maxLun + 1 - lun else 0
    case Ended => 0
  }

  lemma {:induction false} OpenSame(x: seq<Walk>, y: seq<Walk>, initiator: nat, n: nat)
    requires n <= |x| && n <= |y| && forall t :: 0 <= t < n ==> x[t] == y[t]
    ensures Open(x, initiator, n) == Open(y, initiator, n)
  {
    if n > 0 {
      OpenSame(x, y, initiator, n - 1);
    }
  }

  lemma {:induction false} OpenChange(x: seq<Walk>, t: nat, w: Walk, initiator: nat, n: nat)
    requires t < n <= |x| && t != initiator && x[t] != Ended
    ensures Open(x[t := w], initiator, n) == Open(x, initiator, n) - if w == Ended then 1 else 0
  {
    if t < n - 1 {
      OpenChange(x, t, w, initiator, n - 1);
    } else {
      OpenSame(x[t := w], x, initiator, n - 1);
    }
  }

  lemma {:induction false} OpenZero(x: seq<Walk>, initiator: nat, n: nat)
    requires n <= |x|
    ensures Open(x, initiator, n) == 0 <==> forall t :: 0 <= t < n && t != initiator ==> x[t] == Ended
  {
    if n > 0 {
      OpenZero(x, initiator, n - 1);
    }
  }

  lemma {:induction false} OpenAll(x: seq<Walk>, initiator: nat, n: nat)
    requires n <= |x| && forall t :: 0 <= t < n ==> x[t] == Waiting
    ensures Open(x, initiator, n) == n - if initiator < n then 1 else 0
  {
    if n > 0 {
      OpenAll(x, initiator, n - 1);
    }
  }

  lemma {:induction false} LeftSame(x: seq<Walk>, y: seq<Walk>, maxLun: nat, n: nat)
    requires n <= |x| && n <= |y| && forall t :: 0 <= t < n ==> x[t] == y[t]
    ensures Left(x, maxLun, n) == Left(y, maxLun, n)
  {
    if n > 0 {
      LeftSame(x, y, maxLun, n - 1);
    }
  }

  lemma {:induction false} LeftChange(x: seq<Walk>, t: nat, w: Walk, maxLun: nat, n: nat)
    requires t < n <= |x|
    ensures Left(x[t := w], maxLun, n) == Left(x, maxLun, n) - LeftOf(x[t], maxLun) + LeftOf(w, maxLun)
  {
    if t < n - 1 {
      LeftChange(x, t, w, maxLun, n - 1);
    } else {
      LeftSame(x[t := w], x, maxLun, n - 1);
    }
  }

  class Scan {
    const sequential: bool
    const maxTarget: nat
    const initiator: nat
    const maxLun: nat
    var counter: int
    var next: nat
    var walks: seq<Walk>
    var started: seq<nat>
    var completed: nat

    /** The targets that are to be walked. */
    ghost predicate IsTarget(t: int) {
      0 <= t <= maxTarget && t != initiator
    }

    /** There is something to start with: the scan can finish. */
    predicate CanFinish() {
      if sequential then initiator != 0 else maxTarget > 0 || initiator != 0
    }

    /** The last target the first loop starts a walk on. */
    function Limit(): nat {
      if sequential then 0 else maxTarget
    }

    /** Walks stay within the luns of the bus, and each target has been started at most once. */
    ghost predicate Walking()
      reads `walks, `started
    {
      && |walks| == maxTarget + 1
      && (forall t {:trigger walks[t]} :: 0 <= t <= maxTarget ==>
            && (walks[t] != Waiting <==> t in started)
            && (walks[t].Active? ==> walks[t].lun <= maxLun)
            && (walks[t] != Waiting ==> IsTarget(t)))
      && (forall i, j :: 0 <= i < j < |started| ==> started[i] != started[j])
      && (forall t :: t in started ==> 0 <= t <= maxTarget)
    }

    /** One after the other: what is before the counter has ended, what is after it waits. */
    ghost predicate InSequence()
      reads `walks, `counter, `next, `completed
      requires |walks| == maxTarget + 1
    {
      && next <= 1 && counter >= 0
      && (next == 0 || !CanFinish() ==> counter == 0 && completed == 0 && forall t :: 0 <= t <= maxTarget ==> walks[t] == Waiting)
      && (next == 1 && CanFinish() ==>
            && counter != initiator && counter <= maxTarget + 2
            && (forall t {:trigger walks[t]} :: IsTarget(t) ==>
                  if t < counter then walks[t] == Ended else if t == counter then walks[t].Active? else walks[t] == Waiting)
            && completed == if counter > maxTarget then 1 else 0)
    }

    /** All at once: the counter is the number of targets that have not ended, started or not. */
    ghost predicate InParallel()
      reads `walks, `counter, `next, `completed
      requires |walks| == maxTarget + 1
    {
      && next <= maxTarget + 1
      && counter == Open(walks, initiator, maxTarget + 1)
      && (forall t {:trigger walks[t]} :: IsTarget(t) ==> (walks[t] == Waiting <==> t >= next))
      && completed == if counter == 0 && CanFinish() then 1 else 0
    }

    ghost predicate Valid()
      reads this
    {
      Walking() && if sequential then InSequence() else InParallel()
    }

    constructor (sequential: bool, maxTarget: nat, initiator: nat, maxLun: nat)
      ensures Valid() && next == 0 && completed == 0 && started == []
      ensures this.sequential == sequential && this.maxTarget == maxTarget && this.initiator == initiator && this.maxLun == maxLun
    {
      this.sequential, this.maxTarget, this.initiator, this.maxLun := sequential, maxTarget, initiator, maxLun;
      walks := seq(maxTarget + 1, _ => Waiting);
      next, started, completed := 0, [], 0;
      var c: int := 0;
      if !sequential {
        c := maxTarget + 1;
        if initiator < c {
          c := c - 1;
        }
      }
      counter := c;
      new;
      OpenAll(walks, initiator, maxTarget + 1);
    }

    /** One turn of the loop that starts walks. */
    method Launch()
      requires Valid() && next <= Limit()
      modifies `walks, `started, `next
      ensures Valid() && next == old(next) + 1
      ensures Left(walks, maxLun, |walks|) <= old(Left(walks, maxLun, |walks|))
    {
      if next != initiator {
        OpenChange(walks, next, Active(0), initiator, maxTarget + 1);
        LeftChange(walks, next, Active(0), maxLun, |walks|);
        walks := walks[next := Active(0)];
        started := started + [next];
      }
      next := next + 1;
    }

    /** A probe has come back: the walk goes on to the next lun, or ends. */
    method LunDone(t: nat, p: Probe, pathOk: bool)
      requires Valid() && t <= maxTarget && walks[t].Active?
      modifies `walks, `started, `counter, `completed
      ensures Valid()
      ensures Left(walks, maxLun, |walks|) < old(Left(walks, maxLun, |walks|))
    {
      var lun := NextLun(walks[t].lun, p);
      if lun == walks[t].lun || lun > maxLun || !pathOk {
        if sequential {
          var more, c := HopSequential(t);
          LeftChange(old(walks), t, Ended, maxLun, |walks|);
          if more {
            LeftChange(old(walks)[t := Ended], c, Active(0), maxLun, |walks|);
          }
        } else {
          HopParallel(t);
        }
      } else {
        OpenChange(walks, t, Active(lun), initiator, maxTarget + 1);
        LeftChange(walks, t, Active(lun), maxLun, |walks|);
        walks := walks[t := Active(lun)];
      }
    }

    /** A walk ends while others go on; the last one completes the request. */
    method HopParallel(t: nat)
      requires Valid() && !sequential && t <= maxTarget && walks[t].Active?
      modifies `walks, `counter, `completed
      ensures Valid()
      ensures Left(walks, maxLun, |walks|) < old(Left(walks, maxLun, |walks|))
    {
      OpenChange(walks, t, Ended, initiator, maxTarget + 1);
      OpenZero(walks, initiator, maxTarget + 1);
      LeftChange(walks, t, Ended, maxLun, |walks|);
      walks := walks[t := Ended];
      counter := counter - 1;
      if counter == 0 {
        completed := completed + 1;
      }
    }

    /** A walk ends and the next target is started; after the last one the request completes. */
    method HopSequential(t: nat) returns (more: bool, c: nat)
      requires Valid() && sequential && t <= maxTarget && walks[t].Active?
      modifies `walks, `started, `counter, `completed
      ensures Valid()
      ensures !more ==> walks == old(walks)[t := Ended]
      ensures more ==> c <= maxTarget && c != t && old(walks[c]) == Waiting && walks == old(walks)[t := Ended][c := Active(0)]
    {
      assert IsTarget(t) && t == counter;
      walks := walks[t := Ended];
      counter := counter + 1;
      if counter == initiator {
        counter := counter + 1;
      }
      c := counter;
      more := counter < maxTarget + 1;
      if !more {
        completed := completed + 1;
        return;
      }
      assert old(walks[c]) == Waiting;
      walks := walks[c := Active(0)];
      started := started + [c];
    }

    /** Some target whose walk is on, the one asked for if possible. */
    method PickActive(wish: nat) returns (found: bool, t: nat)
      requires |walks| == maxTarget + 1
      ensures found ==> t <= maxTarget && walks[t].Active?
      ensures !found ==> forall k :: 0 <= k <= maxTarget ==> !walks[k].Active?
    {
      if wish <= maxTarget && walks[wish].Active? {
        return true, wish;
      }
      for k := 0 to maxTarget + 1
        invariant forall j :: 0 <= j < k ==> !walks[j].Active?
      {
        if walks[k].Active? {
          return true, k;
        }
      }
      found, t := false, 0;
    }

    /** A whole scan: probes come back in any order, between the starts and after them, until none is out. */
    method Run(first: nat -> bool, wish: nat -> nat, probe: nat -> Probe, pathOk: nat -> bool) returns (steps: nat)
      requires Valid() && next == 0
      modifies this
      ensures Valid() && next == Limit() + 1 && forall t :: 0 <= t <= maxTarget ==> !walks[t].Active?
      ensures steps <= old(Left(walks, maxLun, |walks|))
    {
      var k := 0;
      steps := 0;
      var running := true;
      while running
        invariant Valid() && next <= Limit() + 1
        invariant steps + Left(walks, maxLun, |walks|) <= old(Left(walks, maxLun, |walks|))
        invariant !running ==> next == Limit() + 1 && forall t :: 0 <= t <= maxTarget ==> !walks[t].Active?
        decreases running, Left(walks, maxLun, |walks|), Limit() + 1 - next
      {
        var found, t := PickActive(wish(k));
        if found && (next > Limit() || !first(k)) {
          LunDone(t, probe(k), pathOk(k));
          steps := steps + 1;
        } else if next <= Limit() {
          Launch();
        } else {
          running := false;
        }
        k := k + 1;
      }
    }

    /** The request completes at most once, and only after every target has been walked to its end. */
    lemma CompletesAfterAll()
      requires Valid()
      ensures completed <= 1
      ensures completed == 1 ==> forall t :: IsTarget(t) ==> walks[t] == Ended
    {
      OpenZero(walks, initiator, maxTarget + 1);
    }

    /** When nothing is out any more the request has completed exactly if the scan could finish, with every target walked once. */
    lemma FinishedScan()
      requires Valid() && next == Limit() + 1 && forall t :: 0 <= t <= maxTarget ==> !walks[t].Active?
      ensures completed == 1 <==> CanFinish()
      ensures CanFinish() ==> forall t :: IsTarget(t) <==> t in started
      ensures forall i, j :: 0 <= i < j < |started| ==> started[i] != started[j]
    {
      OpenZero(walks, initiator, maxTarget + 1);
      if CanFinish() {
        AllEnded();
      }
      forall t | t in started ensures IsTarget(t) {
        assert walks[t] != Waiting;
      }
    }

    lemma AllEnded()
      requires Valid() && CanFinish() && next == Limit() + 1 && forall t :: 0 <= t <= maxTarget ==> !walks[t].Active?
      ensures forall t :: IsTarget(t) ==> walks[t] == Ended && t in started
    {
      if sequential && counter <= maxTarget {
        CounterWalks();
      }
    }

    lemma CounterWalks()
      requires Valid() && sequential && CanFinish() && next == 1 && counter <= maxTarget
      ensures walks[counter].Active?
    {
      assert IsTarget(counter);
    }
  }

  /** A scan takes at most one probe for each lun of each target. */
  lemma {:induction false} LeftAtStart(walks: seq<Walk>, maxLun: nat, n: nat)
    requires n <= |walks| && forall t :: 0 <= t < n ==> walks[t] == Waiting
    ensures Left(walks, maxLun, n) == n * (maxLun + 1)
  {
    if n > 0 {
      LeftAtStart(walks, maxLun, n - 1);
      assert n * (maxLun + 1) == (n - 1) * (maxLun + 1) + (maxLun + 1);
    }
  }

  /** A scan that never completes: one target after the other from an adapter whose own id is 0. */
  method StuckScan(probe: nat -> Probe) returns (completed: nat)
    ensures completed == 0
  {
    var scan := new Scan(true, 7, 0, 7);
    var _ := scan.Run(_ => true, _ => 0, probe, _ => true);
    scan.FinishedScan();
    scan.CompletesAfterAll();
    completed := scan.completed;
  }
}
