/** Resuming a match at the position saved for an item continues with exactly that item. */
module EdtResume {
  import opened EdtSpec

  /** Addresses are not null, differ within each list, and devices differ throughout the table. */
  ghost predicate Addressed(edt: Edt) {
    && (forall i :: 0 <= i < |edt.busses| ==> AddressedBus(edt.busses[i]))
    && (forall i, j :: 0 <= i < j < |edt.busses| ==> edt.busses[i].ptr != edt.busses[j].ptr)
    && (forall i, j :: 0 <= i < j < |edt.busses| ==> DisjointBusses(edt.busses[i], edt.busses[j]))
  }

  ghost predicate AddressedBus(b: Bus) {
    && b.ptr != 0
    && (forall i :: 0 <= i < |b.targets| ==> AddressedTarget(b.targets[i]))
    && (forall i, j :: 0 <= i < j < |b.targets| ==> b.targets[i].ptr != b.targets[j].ptr)
    && (forall i, j :: 0 <= i < j < |b.targets| ==> DisjointTargets(b.targets[i], b.targets[j]))
  }

  ghost predicate AddressedTarget(t: Target) {
    && t.ptr != 0
    && (forall i :: 0 <= i < |t.devices| ==> AddressedDevice(t.devices[i]))
    && (forall i, j :: 0 <= i < j < |t.devices| ==> t.devices[i].ptr != t.devices[j].ptr)
  }

  ghost predicate AddressedDevice(d: Device) {
    && d.ptr != 0
    && (forall i :: 0 <= i < |d.periphs| ==> d.periphs[i].ptr != 0)
    && (forall i, j :: 0 <= i < j < |d.periphs| ==> d.periphs[i].ptr != d.periphs[j].ptr)
  }

  ghost predicate DisjointTargets(t: Target, u: Target) {
    forall i, j :: 0 <= i < |t.devices| && 0 <= j < |u.devices| ==> t.devices[i].ptr != u.devices[j].ptr
  }

  ghost predicate DisjointBusses(b: Bus, c: Bus) {
    forall i, j :: 0 <= i < |b.targets| && 0 <= j < |c.targets| ==> DisjointTargets(b.targets[i], c.targets[j])
  }

  // ---- nodes that a position does not concern are traversed from their start ----

  ghost predicate DeviceClear(t: Target, pos: Pos, k: int) {
    pos.onDevice ==> forall j :: 0 <= k <= j < |t.devices| ==> t.devices[j].ptr != pos.device
  }

  lemma OneDeviceClear(ps: seq<Pattern>, edt: Edt, b: Bus, t: Target, d: Device, pos: Pos)
    requires pos.onDevice ==> d.ptr != pos.device
    ensures DeviceFrom(ps, edt, b, t, d, pos) == DeviceFrom(ps, edt, b, t, d, StartPos)
  {
  }

  lemma {:induction false} DevicesClear(ps: seq<Pattern>, edt: Edt, b: Bus, t: Target, k: int, pos: Pos)
    requires 0 <= k <= |t.devices| && DeviceClear(t, pos, k)
    ensures DevicesFrom(ps, edt, b, t, k, pos) == DevicesFrom(ps, edt, b, t, k, StartPos)
    decreases |t.devices| - k
  {
    if k < |t.devices| {
      var d := t.devices[k];
      OneDeviceClear(ps, edt, b, t, d, pos);
      DevicesClear(ps, edt, b, t, k + 1, pos);
      calc {
        DevicesFrom(ps, edt, b, t, k, pos);
        DeviceFrom(ps, edt, b, t, d, pos) + DevicesFrom(ps, edt, b, t, k + 1, pos);
        DeviceFrom(ps, edt, b, t, d, StartPos) + DevicesFrom(ps, edt, b, t, k + 1, StartPos);
        DevicesFrom(ps, edt, b, t, k, StartPos);
      }
    }
  }

  ghost predicate TargetClear(b: Bus, pos: Pos, k: int) {
    && (pos.onTarget ==> forall j :: 0 <= k <= j < |b.targets| ==> b.targets[j].ptr != pos.target || b.ptr != pos.bus)
    && (forall j :: 0 <= k <= j < |b.targets| ==> DeviceClear(b.targets[j], pos, 0))
  }

  lemma {:induction false} TargetsClear(ps: seq<Pattern>, edt: Edt, b: Bus, k: int, pos: Pos)
    requires 0 <= k <= |b.targets| && TargetClear(b, pos, k)
    ensures TargetsFrom(ps, edt, b, k, pos) == TargetsFrom(ps, edt, b, k, StartPos)
    decreases |b.targets| - k
  {
    if k < |b.targets| {
      DevicesClear(ps, edt, b, b.targets[k], 0, pos);
      TargetsClear(ps, edt, b, k + 1, pos);
    }
  }

  ghost predicate BusClear(edt: Edt, pos: Pos, k: int) {
    && (pos.onBus && pos.onTarget ==> forall j :: 0 <= k <= j < |edt.busses| ==> edt.busses[j].ptr != pos.bus)
    && (forall j :: 0 <= k <= j < |edt.busses| ==> TargetClear(edt.busses[j], pos, 0))
  }

  lemma {:induction false} BussesClear(ps: seq<Pattern>, edt: Edt, k: int, pos: Pos)
    requires 0 <= k <= |edt.busses| && BusClear(edt, pos, k)
    ensures BussesFrom(ps, edt, k, pos) == BussesFrom(ps, edt, k, StartPos)
    decreases |edt.busses| - k
  {
    if k < |edt.busses| {
      TargetsClear(ps, edt, edt.busses[k], 0, pos);
      BussesClear(ps, edt, k + 1, pos);
    }
  }

  // ---- resuming, level by level ----

  lemma {:induction false} PeriphsResume(ps: seq<Pattern>, edt: Edt, b: Bus, t: Target, d: Device, k: int, i: int)
    returns (j: int)
    requires 0 <= k <= |d.periphs| && 0 <= i < |PeriphsFrom(ps, edt, b, t, d, k)|
    ensures k <= j < |d.periphs|
    ensures PeriphsFrom(ps, edt, b, t, d, k)[i].pos == PosOfPeriph(edt, b, t, d, d.periphs[j])
    ensures PeriphsFrom(ps, edt, b, t, d, j) == PeriphsFrom(ps, edt, b, t, d, k)[i..]
    decreases |d.periphs| - k
  {
    var own := |PeriphItems(ps, edt, b, t, d, d.periphs[k])|;
    if i < own {
      j := k;
    } else {
      j := PeriphsResume(ps, edt, b, t, d, k + 1, i - own);
    }
  }

  /** `pos` is the position of `d` or of one of its peripherals. */
  ghost predicate Within(edt: Edt, b: Bus, t: Target, d: Device, pos: Pos) {
    || pos == PosOfDevice(edt, b, t, d)
    || exists j :: 0 <= j < |d.periphs| && pos == PosOfPeriph(edt, b, t, d, d.periphs[j])
  }

  lemma DeviceResume(ps: seq<Pattern>, edt: Edt, b: Bus, t: Target, d: Device, i: int)
    requires AddressedDevice(d) && 0 <= i < |DeviceFrom(ps, edt, b, t, d, StartPos)|
    ensures var items := DeviceFrom(ps, edt, b, t, d, StartPos);
            Within(edt, b, t, d, items[i].pos) && DeviceFrom(ps, edt, b, t, d, items[i].pos) == items[i..]
  {
    var items := DeviceFrom(ps, edt, b, t, d, StartPos);
    var own := |OwnDevice(ps, edt, b, t, d, StartPos)|;
    if i >= own {
      var j := PeriphsResume(ps, edt, b, t, d, 0, i - own);
      assert items[i].pos == PosOfPeriph(edt, b, t, d, d.periphs[j]);
      assert IndexOf(d.periphs, PeriphPtr, d.periphs[j].ptr) == j;
    }
  }

  lemma {:induction false} DevicesResume(ps: seq<Pattern>, edt: Edt, b: Bus, t: Target, k: int, i: int)
    returns (j: int)
    requires AddressedTarget(t) && 0 <= k <= |t.devices|
    requires 0 <= i < |DevicesFrom(ps, edt, b, t, k, StartPos)|
    ensures k <= j < |t.devices|
    ensures var items := DevicesFrom(ps, edt, b, t, k, StartPos);
            && Within(edt, b, t, t.devices[j], items[i].pos)
            && DevicesFrom(ps, edt, b, t, j, items[i].pos) == items[i..]
    decreases |t.devices| - k
  {
    var d := t.devices[k];
    var own := DeviceFrom(ps, edt, b, t, d, StartPos);
    var rest := DevicesFrom(ps, edt, b, t, k + 1, StartPos);
    var items := DevicesFrom(ps, edt, b, t, k, StartPos);
    assert items == own + rest;
    Suffix(own, rest, i);
    if i < |own| {
      j := k;
      var pos := own[i].pos;
      DeviceResume(ps, edt, b, t, d, i);
      WithinNames(edt, b, t, d, pos);
      DevicesClear(ps, edt, b, t, k + 1, pos);
      assert DevicesFrom(ps, edt, b, t, k, pos)
          == DeviceFrom(ps, edt, b, t, d, pos) + DevicesFrom(ps, edt, b, t, k + 1, pos);
    } else {
      j := DevicesResume(ps, edt, b, t, k + 1, i - |own|);
    }
  }

  lemma Suffix<T>(xs: seq<T>, ys: seq<T>, i: int)
    requires 0 <= i < |xs| + |ys|
    ensures i < |xs| ==> (xs + ys)[i] == xs[i] && (xs + ys)[i..] == xs[i..] + ys
    ensures i >= |xs| ==> (xs + ys)[i] == ys[i - |xs|] && (xs + ys)[i..] == ys[i - |xs|..]
  {
  }

  lemma WithinNames(edt: Edt, b: Bus, t: Target, d: Device, pos: Pos)
    requires Within(edt, b, t, d, pos)
    ensures pos.onBus && pos.onTarget && pos.onDevice
    ensures pos.bus == b.ptr && pos.target == t.ptr && pos.device == d.ptr
    ensures pos.busGen == edt.gen && pos.targetGen == b.gen && pos.devGen == t.gen
  {
  }

  lemma TargetResume(ps: seq<Pattern>, edt: Edt, b: Bus, t: Target, i: int) returns (j: int)
    requires AddressedTarget(t) && 0 <= i < |TargetFrom(ps, edt, b, t, StartPos)|
    ensures 0 <= j < |t.devices|
    ensures var items := TargetFrom(ps, edt, b, t, StartPos);
            && Within(edt, b, t, t.devices[j], items[i].pos)
            && TargetFrom(ps, edt, b, t, items[i].pos) == items[i..]
  {
    j := DevicesResume(ps, edt, b, t, 0, i);
    var pos := TargetFrom(ps, edt, b, t, StartPos)[i].pos;
    WithinNames(edt, b, t, t.devices[j], pos);
    assert IndexOf(t.devices, DevicePtr, t.devices[j].ptr) == j;
  }

  lemma {:induction false} TargetsResume(ps: seq<Pattern>, edt: Edt, b: Bus, k: int, i: int) returns (j: int, m: int)
    requires AddressedBus(b) && 0 <= k <= |b.targets|
    requires 0 <= i < |TargetsFrom(ps, edt, b, k, StartPos)|
    ensures k <= j < |b.targets| && 0 <= m < |b.targets[j].devices|
    ensures var items := TargetsFrom(ps, edt, b, k, StartPos);
            && Within(edt, b, b.targets[j], b.targets[j].devices[m], items[i].pos)
            && TargetsFrom(ps, edt, b, j, items[i].pos) == items[i..]
    decreases |b.targets| - k
  {
    var t := b.targets[k];
    var own := TargetFrom(ps, edt, b, t, StartPos);
    var rest := TargetsFrom(ps, edt, b, k + 1, StartPos);
    assert TargetsFrom(ps, edt, b, k, StartPos) == own + rest;
    Suffix(own, rest, i);
    if i < |own| {
      j := k;
      var pos := own[i].pos;
      m := TargetResume(ps, edt, b, t, i);
      WithinNames(edt, b, t, t.devices[m], pos);
      TargetsAfter(b, k, m, pos);
      TargetsClear(ps, edt, b, k + 1, pos);
      assert TargetsFrom(ps, edt, b, k, pos)
          == TargetFrom(ps, edt, b, t, pos) + TargetsFrom(ps, edt, b, k + 1, pos);
    } else {
      j, m := TargetsResume(ps, edt, b, k + 1, i - |own|);
    }
  }

  lemma TargetsAfter(b: Bus, k: int, m: int, pos: Pos)
    requires AddressedBus(b) && 0 <= k < |b.targets| && 0 <= m < |b.targets[k].devices|
    requires pos.target == b.targets[k].ptr && pos.device == b.targets[k].devices[m].ptr
    ensures TargetClear(b, pos, k + 1)
  {
    forall j | k + 1 <= j < |b.targets| ensures DeviceClear(b.targets[j], pos, 0) {
      assert DisjointTargets(b.targets[k], b.targets[j]);
    }
  }

  /** `pos` is the position of `b` or of a node below it. */
  ghost predicate WithinBus(edt: Edt, b: Bus, pos: Pos) {
    || pos == PosOfBus(edt, b)
    || exists j, m :: 0 <= j < |b.targets| && 0 <= m < |b.targets[j].devices|
                      && Within(edt, b, b.targets[j], b.targets[j].devices[m], pos)
  }

  lemma BusResume(ps: seq<Pattern>, edt: Edt, b: Bus, i: int)
    requires AddressedBus(b) && 0 <= i < |BusFrom(ps, edt, b, StartPos)|
    ensures var items := BusFrom(ps, edt, b, StartPos);
            WithinBus(edt, b, items[i].pos) && BusFrom(ps, edt, b, items[i].pos) == items[i..]
  {
    var own := OwnBus(ps, edt, b, StartPos);
    var below := BelowBusFrom(ps, edt, b, StartPos);
    Suffix(own, below, i);
    if i < |own| {
      TargetsClear(ps, edt, b, 0, own[i].pos);
    } else {
      BelowBusResume(ps, edt, b, i - |own|);
      var pos := below[i - |own|].pos;
      assert OwnBus(ps, edt, b, pos) == [];
      assert BusFrom(ps, edt, b, pos) == BelowBusFrom(ps, edt, b, pos);
    }
  }

  lemma BelowBusResume(ps: seq<Pattern>, edt: Edt, b: Bus, i: int)
    requires AddressedBus(b) && 0 <= i < |BelowBusFrom(ps, edt, b, StartPos)|
    ensures var items := BelowBusFrom(ps, edt, b, StartPos);
            && WithinBus(edt, b, items[i].pos) && InsideBus(items[i].pos, b)
            && BelowBusFrom(ps, edt, b, items[i].pos) == items[i..]
  {
    var j, m := TargetsResume(ps, edt, b, 0, i);
    var pos := BelowBusFrom(ps, edt, b, StartPos)[i].pos;
    WithinNames(edt, b, b.targets[j], b.targets[j].devices[m], pos);
    assert AddressedTarget(b.targets[j]);
    assert IndexOf(b.targets, TargetPtr, pos.target) == j;
  }

  lemma {:induction false} BussesResume(ps: seq<Pattern>, edt: Edt, k: int, i: int) returns (j: int)
    requires Addressed(edt) && 0 <= k <= |edt.busses|
    requires 0 <= i < |BussesFrom(ps, edt, k, StartPos)|
    ensures k <= j < |edt.busses|
    ensures var items := BussesFrom(ps, edt, k, StartPos);
            && WithinBus(edt, edt.busses[j], items[i].pos)
            && BussesFrom(ps, edt, j, items[i].pos) == items[i..]
    decreases |edt.busses| - k
  {
    var b := edt.busses[k];
    var own := BusFrom(ps, edt, b, StartPos);
    var rest := BussesFrom(ps, edt, k + 1, StartPos);
    assert BussesFrom(ps, edt, k, StartPos) == own + rest;
    Suffix(own, rest, i);
    if i < |own| {
      j := k;
      var pos := own[i].pos;
      BusResume(ps, edt, b, i);
      BussesAfter(edt, k, pos);
      BussesClear(ps, edt, k + 1, pos);
      assert BussesFrom(ps, edt, k, pos) == BusFrom(ps, edt, b, pos) + BussesFrom(ps, edt, k + 1, pos);
    } else {
      j := BussesResume(ps, edt, k + 1, i - |own|);
    }
  }

  lemma BussesAfter(edt: Edt, k: int, pos: Pos)
    requires Addressed(edt) && 0 <= k < |edt.busses| && WithinBus(edt, edt.busses[k], pos)
    ensures BusClear(edt, pos, k + 1)
  {
    var b := edt.busses[k];
    forall j | k + 1 <= j < |edt.busses| ensures TargetClear(edt.busses[j], pos, 0) {
      var c := edt.busses[j];
      if pos != PosOfBus(edt, b) {
        var x, m :| 0 <= x < |b.targets| && 0 <= m < |b.targets[x].devices|
                    && Within(edt, b, b.targets[x], b.targets[x].devices[m], pos);
        WithinNames(edt, b, b.targets[x], b.targets[x].devices[m], pos);
        assert DisjointBusses(b, c);
        forall y | 0 <= y < |c.targets| ensures DeviceClear(c.targets[y], pos, 0) {
          assert DisjointTargets(b.targets[x], c.targets[y]);
        }
      }
    }
  }

  /** A match resumed at the position of item `i` has items `i` onwards left to report. */
  lemma Resume(ps: seq<Pattern>, edt: Edt, i: int)
    requires Addressed(edt) && 0 <= i < |From(ps, edt, StartPos)|
    ensures From(ps, edt, From(ps, edt, StartPos)[i].pos) == From(ps, edt, StartPos)[i..]
    ensures exists j :: 0 <= j < |edt.busses| && WithinBus(edt, edt.busses[j], From(ps, edt, StartPos)[i].pos)
  {
    var j := BussesResume(ps, edt, 0, i);
    var pos := From(ps, edt, StartPos)[i].pos;
    assert AddressedBus(edt.busses[j]);
    WithinBusNames(edt, edt.busses[j], pos);
    assert IndexOf(edt.busses, BusPtr, pos.bus) == j;
  }

  lemma WithinBusNames(edt: Edt, b: Bus, pos: Pos)
    requires WithinBus(edt, b, pos)
    ensures pos.onBus && pos.bus == b.ptr && pos.busGen == edt.gen
  {
  }

  // ---- from the start no list has changed, and the items are the preorder traversal ----

  lemma {:induction false} PeriphsPreorder(ps: seq<Pattern>, edt: Edt, b: Bus, t: Target, d: Device, k: int)
    requires 0 <= k <= |d.periphs|
    ensures Clean(PeriphsFrom(ps, edt, b, t, d, k))
    ensures Results(PeriphsFrom(ps, edt, b, t, d, k)) == PreorderPeriphs(ps, b, t, d, d.periphs[k..])
    decreases |d.periphs| - k
  {
    if k < |d.periphs| {
      PeriphsPreorder(ps, edt, b, t, d, k + 1);
      assert d.periphs[k..][1..] == d.periphs[k + 1..];
    }
  }

  lemma ResultsConcat(xs: seq<Item>, ys: seq<Item>)
    requires Clean(xs) && Clean(ys)
    ensures Clean(xs + ys) && Results(xs + ys) == Results(xs) + Results(ys)
  {
  }

  lemma DevicePreorder(ps: seq<Pattern>, edt: Edt, b: Bus, t: Target, d: Device)
    ensures Clean(DeviceFrom(ps, edt, b, t, d, StartPos))
    ensures Results(DeviceFrom(ps, edt, b, t, d, StartPos))
         == (if CopyDevice(ps, b, t, d) then [ResultOfDevice(b, t, d)] else [])
            + (if BelowDevice(ps) then PreorderPeriphs(ps, b, t, d, d.periphs) else [])
  {
    PeriphsPreorder(ps, edt, b, t, d, 0);
    assert d.periphs[0..] == d.periphs;
    ResultsConcat(OwnDevice(ps, edt, b, t, d, StartPos), BelowDeviceFrom(ps, edt, b, t, d, StartPos));
  }

  lemma {:induction false} DevicesPreorder(ps: seq<Pattern>, edt: Edt, b: Bus, t: Target, k: int)
    requires 0 <= k <= |t.devices|
    ensures Clean(DevicesFrom(ps, edt, b, t, k, StartPos))
    ensures Results(DevicesFrom(ps, edt, b, t, k, StartPos)) == PreorderDevices(ps, b, t, t.devices[k..])
    decreases |t.devices| - k
  {
    if k < |t.devices| {
      DevicePreorder(ps, edt, b, t, t.devices[k]);
      DevicesPreorder(ps, edt, b, t, k + 1);
      assert t.devices[k..][1..] == t.devices[k + 1..];
      ResultsConcat(DeviceFrom(ps, edt, b, t, t.devices[k], StartPos), DevicesFrom(ps, edt, b, t, k + 1, StartPos));
    }
  }

  lemma {:induction false} TargetsPreorder(ps: seq<Pattern>, edt: Edt, b: Bus, k: int)
    requires 0 <= k <= |b.targets|
    ensures Clean(TargetsFrom(ps, edt, b, k, StartPos))
    ensures Results(TargetsFrom(ps, edt, b, k, StartPos)) == PreorderTargets(ps, b, b.targets[k..])
    decreases |b.targets| - k
  {
    if k < |b.targets| {
      var t := b.targets[k];
      DevicesPreorder(ps, edt, b, t, 0);
      assert t.devices[0..] == t.devices;
      TargetsPreorder(ps, edt, b, k + 1);
      assert b.targets[k..][1..] == b.targets[k + 1..];
      ResultsConcat(TargetFrom(ps, edt, b, t, StartPos), TargetsFrom(ps, edt, b, k + 1, StartPos));
    }
  }

  lemma BusPreorder(ps: seq<Pattern>, edt: Edt, b: Bus)
    ensures Clean(BusFrom(ps, edt, b, StartPos))
    ensures Results(BusFrom(ps, edt, b, StartPos))
         == (if CopyBus(ps, b) then [ResultOfBus(b)] else [])
            + (if BelowBus(ps) then PreorderTargets(ps, b, b.targets) else [])
  {
    TargetsPreorder(ps, edt, b, 0);
    assert b.targets[0..] == b.targets;
    ResultsConcat(OwnBus(ps, edt, b, StartPos), BelowBusFrom(ps, edt, b, StartPos));
  }

  lemma {:induction false} BussesPreorder(ps: seq<Pattern>, edt: Edt, k: int)
    requires 0 <= k <= |edt.busses|
    ensures Clean(BussesFrom(ps, edt, k, StartPos))
    ensures Results(BussesFrom(ps, edt, k, StartPos)) == PreorderBusses(ps, edt.busses[k..])
    decreases |edt.busses| - k
  {
    if k < |edt.busses| {
      BusPreorder(ps, edt, edt.busses[k]);
      BussesPreorder(ps, edt, k + 1);
      assert edt.busses[k..][1..] == edt.busses[k + 1..];
      ResultsConcat(BusFrom(ps, edt, edt.busses[k], StartPos), BussesFrom(ps, edt, k + 1, StartPos));
    }
  }

  /** From the start position the items left are the whole preorder traversal. */
  lemma FromStart(ps: seq<Pattern>, edt: Edt)
    ensures Clean(From(ps, edt, StartPos))
    ensures Results(From(ps, edt, StartPos)) == Preorder(ps, edt)
  {
    BussesPreorder(ps, edt, 0);
    assert edt.busses[0..] == edt.busses;
  }
}
