/**
 The existing device table (EDT) as a tree, the patterns a user matches against
 it, and what a match is meant to return.
 */
module EdtSpec {

  const DEV_IDLEN := 16

  // `ptr` stands for the address of a node; addresses are never 0, which is the null cookie.
  datatype Periph = Periph(ptr: int, name: string, unit: int)
  datatype Device = Device(ptr: int, lun: int, inquiry: int, unconfigured: bool, gen: int, periphs: seq<Periph>)
  datatype Target = Target(ptr: int, id: int, gen: int, devices: seq<Device>)
  datatype Bus = Bus(ptr: int, pathId: int, busId: int, unit: int, name: string, gen: int, targets: seq<Target>)
  datatype Edt = Edt(gen: int, busses: seq<Bus>)

  datatype Flag = ByPath | ByTarget | ByLun | ByName | ByUnit | ByBusId | ByInquiry

  // `accepts` is the set of inquiry data that the pattern's inquiry comparison accepts.
  datatype Pattern =
    | BusPattern(flags: set<Flag>, pathId: int, busId: int, unit: int, name: string)
    | DevicePattern(flags: set<Flag>, pathId: int, target: int, lun: int, accepts: set<int>)
    | PeriphPattern(flags: set<Flag>, pathId: int, target: int, lun: int, unit: int, name: string)

  const BusAny := {ByPath, ByName, ByUnit, ByBusId}
  const DeviceAny := {ByPath, ByTarget, ByLun, ByInquiry}
  const PeriphAny := {ByPath, ByTarget, ByLun, ByName, ByUnit}

  datatype Result =
    | BusResult(pathId: int, busId: int, unit: int, name: string)
    | DeviceResult(pathId: int, target: int, lun: int, inquiry: int, unconfigured: bool)
    | PeriphResult(pathId: int, target: int, lun: int, unit: int, name: string)

  /** The leading DEV_IDLEN characters: all that strncmp compares and strncpy copies. */
  function Idlen(s: string): string {
    if |s| <= DEV_IDLEN then s else s[..DEV_IDLEN]
  }

  // ---- single patterns ----

  predicate BusMatches(p: Pattern, b: Bus) {
    && p.BusPattern?
    && (|| p.flags == BusAny
        || (&& p.flags != {}
            && (ByPath in p.flags ==> p.pathId == b.pathId)
            && (ByBusId in p.flags ==> p.busId == b.busId)
            && (ByUnit in p.flags ==> p.unit == b.unit)
            && (ByName in p.flags ==> Idlen(p.name) == Idlen(b.name))))
  }

  predicate DeviceMatches(p: Pattern, b: Bus, t: Target, d: Device) {
    && p.DevicePattern?
    && (|| p.flags == DeviceAny
        || (&& p.flags != {}
            && (ByPath in p.flags ==> p.pathId == b.pathId)
            && (ByTarget in p.flags ==> p.target == t.id)
            && (ByLun in p.flags ==> p.lun == d.lun)
            && (ByInquiry in p.flags ==> d.inquiry in p.accepts)))
  }

  predicate PeriphMatches(p: Pattern, b: Bus, t: Target, d: Device, per: Periph) {
    && p.PeriphPattern?
    && (|| p.flags == PeriphAny
        || (&& p.flags != {}
            && (ByPath in p.flags ==> p.pathId == b.pathId)
            && (ByTarget in p.flags ==> p.target == t.id)
            && (ByLun in p.flags ==> p.lun == d.lun)
            && (ByUnit in p.flags ==> p.unit == per.unit)
            && (ByName in p.flags ==> Idlen(p.name) == Idlen(per.name))))
  }

  // ---- order-free meaning of a pattern list ----

  ghost predicate CopyBus(ps: seq<Pattern>, b: Bus) {
    ps == [] || exists i :: 0 <= i < |ps| && BusMatches(ps[i], b)
  }

  ghost predicate CopyDevice(ps: seq<Pattern>, b: Bus, t: Target, d: Device) {
    ps == [] || exists i :: 0 <= i < |ps| && DeviceMatches(ps[i], b, t, d)
  }

  ghost predicate CopyPeriph(ps: seq<Pattern>, b: Bus, t: Target, d: Device, per: Periph) {
    ps == [] || exists i :: 0 <= i < |ps| && PeriphMatches(ps[i], b, t, d, per)
  }

  /** Some pattern is about nodes below a bus. */
  ghost predicate BelowBus(ps: seq<Pattern>) {
    ps == [] || exists i :: 0 <= i < |ps| && !ps[i].BusPattern?
  }

  /** Some pattern is about nodes below a device. */
  ghost predicate BelowDevice(ps: seq<Pattern>) {
    ps == [] || exists i :: 0 <= i < |ps| && ps[i].PeriphPattern?
  }

  // ---- the unbounded preorder traversal ----

  function ResultOfBus(b: Bus): Result {
    BusResult(b.pathId, b.busId, b.unit, Idlen(b.name))
  }

  function ResultOfDevice(b: Bus, t: Target, d: Device): Result {
    DeviceResult(b.pathId, t.id, d.lun, d.inquiry, d.unconfigured)
  }

  function ResultOfPeriph(b: Bus, t: Target, d: Device, per: Periph): Result {
    PeriphResult(b.pathId, t.id, d.lun, per.unit, Idlen(per.name))
  }

  ghost function PreorderPeriphs(ps: seq<Pattern>, b: Bus, t: Target, d: Device, pers: seq<Periph>): seq<Result> {
    if pers == [] then []
    else (if CopyPeriph(ps, b, t, d, pers[0]) then [ResultOfPeriph(b, t, d, pers[0])] else [])
         + PreorderPeriphs(ps, b, t, d, pers[1..])
  }

  ghost function PreorderDevices(ps: seq<Pattern>, b: Bus, t: Target, ds: seq<Device>): seq<Result> {
    if ds == [] then []
    else (if CopyDevice(ps, b, t, ds[0]) then [ResultOfDevice(b, t, ds[0])] else [])
         + (if BelowDevice(ps) then PreorderPeriphs(ps, b, t, ds[0], ds[0].periphs) else [])
         + PreorderDevices(ps, b, t, ds[1..])
  }

  ghost function PreorderTargets(ps: seq<Pattern>, b: Bus, ts: seq<Target>): seq<Result> {
    if ts == [] then [] else PreorderDevices(ps, b, ts[0], ts[0].devices) + PreorderTargets(ps, b, ts[1..])
  }

  ghost function PreorderBusses(ps: seq<Pattern>, bs: seq<Bus>): seq<Result> {
    if bs == [] then []
    else (if CopyBus(ps, bs[0]) then [ResultOfBus(bs[0])] else [])
         + (if BelowBus(ps) then PreorderTargets(ps, bs[0], bs[0].targets) else [])
         + PreorderBusses(ps, bs[1..])
  }

  /** What one match with room for everything returns. */
  ghost function Preorder(ps: seq<Pattern>, edt: Edt): seq<Result> {
    PreorderBusses(ps, edt.busses)
  }

  // ---- positions ----

  /** A saved position: which levels it names, the nodes, and the list generations seen there. */
  datatype Pos = Pos(
    onBus: bool, onTarget: bool, onDevice: bool, onPeriph: bool,
    bus: int, target: int, device: int, periph: int,
    busGen: int, targetGen: int, devGen: int, periphGen: int)

  const StartPos := Pos(false, false, false, false, 0, 0, 0, 0, 0, 0, 0, 0)

  function PosOfBus(edt: Edt, b: Bus): Pos {
    Pos(true, false, false, false, b.ptr, 0, 0, 0, edt.gen, 0, 0, 0)
  }

  function PosOfDevice(edt: Edt, b: Bus, t: Target, d: Device): Pos {
    Pos(true, true, true, false, b.ptr, t.ptr, d.ptr, 0, edt.gen, b.gen, t.gen, 0)
  }

  function PosOfPeriph(edt: Edt, b: Bus, t: Target, d: Device, per: Periph): Pos {
    Pos(true, true, true, true, b.ptr, t.ptr, d.ptr, per.ptr, edt.gen, b.gen, t.gen, d.gen)
  }

  /**
   What a traversal meets: a result together with the position that resumes at
   it, or a list that has changed since the position was saved.
   */
  datatype Item = Item(pos: Pos, result: Result) | Changed(pos: Pos)

  ghost predicate Clean(items: seq<Item>) {
    forall i :: 0 <= i < |items| ==> items[i].Item?
  }

  ghost function Results(items: seq<Item>): (rs: seq<Result>)
    requires Clean(items)
    ensures |rs| == |items| && forall i :: 0 <= i < |rs| ==> rs[i] == items[i].result
  {
    seq(|items|, i requires 0 <= i < |items| => items[i].result)
  }

  // ---- the tests a traversal makes of the saved position ----

  /** The position is below this bus, which has been reported already. */
  predicate InsideBus(pos: Pos, b: Bus) {
    pos.onBus && pos.bus == b.ptr && pos.onTarget && pos.target != 0
  }

  predicate InsideTarget(pos: Pos, b: Bus, t: Target) {
    pos.onBus && pos.bus == b.ptr && pos.onTarget && pos.target == t.ptr && pos.onDevice && pos.device != 0
  }

  /** The position is below this device; only the device address is compared. */
  predicate SeenDevice(pos: Pos, d: Device) {
    pos.onDevice && pos.device == d.ptr && pos.onPeriph && pos.periph != 0
  }

  predicate InsideDevice(pos: Pos, b: Bus, t: Target, d: Device) {
    && pos.onBus && pos.bus == b.ptr && pos.onTarget && pos.target == t.ptr
    && SeenDevice(pos, d)
  }

  /** A recorded generation of 0 is not checked. */
  predicate GenOk(seen: int, now: int) {
    seen == 0 || seen == now
  }

  predicate TargetsChanged(pos: Pos, b: Bus) {
    pos.onBus && pos.bus == b.ptr && pos.onTarget && !GenOk(pos.targetGen, b.gen)
  }

  predicate DevicesChanged(pos: Pos, b: Bus, t: Target) {
    && pos.onBus && pos.bus == b.ptr && pos.onTarget && pos.target == t.ptr && pos.onDevice
    && !GenOk(pos.devGen, t.gen)
  }

  predicate PeriphsChanged(pos: Pos, b: Bus, t: Target, d: Device) {
    && pos.onBus && pos.bus == b.ptr && pos.onTarget && pos.target == t.ptr
    && pos.onDevice && pos.device == d.ptr && pos.onPeriph && !GenOk(pos.periphGen, d.gen)
  }

  // ---- items of a traversal that starts at a position ----

  ghost function PeriphsFrom(ps: seq<Pattern>, edt: Edt, b: Bus, t: Target, d: Device, k: int): seq<Item>
    requires 0 <= k <= |d.periphs|
    decreases |d.periphs| - k
  {
    if k == |d.periphs| then []
    else PeriphItems(ps, edt, b, t, d, d.periphs[k]) + PeriphsFrom(ps, edt, b, t, d, k + 1)
  }

  ghost function PeriphItems(ps: seq<Pattern>, edt: Edt, b: Bus, t: Target, d: Device, per: Periph): seq<Item> {
    if CopyPeriph(ps, b, t, d, per)
    then [Item(PosOfPeriph(edt, b, t, d, per), ResultOfPeriph(b, t, d, per))] else []
  }

  function PeriphPtr(per: Periph): int { per.ptr }
  function DevicePtr(d: Device): int { d.ptr }
  function TargetPtr(t: Target): int { t.ptr }
  function BusPtr(b: Bus): int { b.ptr }

  /** Index of the list element at address `p`, or the list's length. */
  function IndexOf<T>(l: seq<T>, ptr: T -> int, p: int): (k: int)
    ensures 0 <= k <= |l|
    ensures k < |l| ==> ptr(l[k]) == p
    ensures forall j :: 0 <= j < k ==> ptr(l[j]) != p
  {
    if l == [] then 0 else if ptr(l[0]) == p then 0 else 1 + IndexOf(l[1..], ptr, p)
  }

  /** The device's own item, unless it was reported before the position was saved. */
  ghost function OwnDevice(ps: seq<Pattern>, edt: Edt, b: Bus, t: Target, d: Device, pos: Pos): seq<Item> {
    if !SeenDevice(pos, d) && CopyDevice(ps, b, t, d)
    then [Item(PosOfDevice(edt, b, t, d), ResultOfDevice(b, t, d))] else []
  }

  ghost function OwnBus(ps: seq<Pattern>, edt: Edt, b: Bus, pos: Pos): seq<Item> {
    if !InsideBus(pos, b) && CopyBus(ps, b) then [Item(PosOfBus(edt, b), ResultOfBus(b))] else []
  }

  ghost function BelowDeviceFrom(ps: seq<Pattern>, edt: Edt, b: Bus, t: Target, d: Device, pos: Pos): seq<Item> {
    if !SeenDevice(pos, d) && !BelowDevice(ps) then []
    else if PeriphsChanged(pos, b, t, d) then [Changed(pos)]
    else PeriphsFrom(ps, edt, b, t, d,
                     if InsideDevice(pos, b, t, d) then IndexOf(d.periphs, PeriphPtr, pos.periph) else 0)
  }

  ghost function DeviceFrom(ps: seq<Pattern>, edt: Edt, b: Bus, t: Target, d: Device, pos: Pos): seq<Item> {
    OwnDevice(ps, edt, b, t, d, pos) + BelowDeviceFrom(ps, edt, b, t, d, pos)
  }

  ghost function DevicesFrom(ps: seq<Pattern>, edt: Edt, b: Bus, t: Target, k: int, pos: Pos): seq<Item>
    requires 0 <= k <= |t.devices|
    decreases |t.devices| - k
  {
    if k == |t.devices| then []
    else DeviceFrom(ps, edt, b, t, t.devices[k], pos) + DevicesFrom(ps, edt, b, t, k + 1, pos)
  }

  ghost function TargetFrom(ps: seq<Pattern>, edt: Edt, b: Bus, t: Target, pos: Pos): seq<Item> {
    if DevicesChanged(pos, b, t) then [Changed(pos)]
    else DevicesFrom(ps, edt, b, t, if InsideTarget(pos, b, t) then IndexOf(t.devices, DevicePtr, pos.device) else 0, pos)
  }

  ghost function TargetsFrom(ps: seq<Pattern>, edt: Edt, b: Bus, k: int, pos: Pos): seq<Item>
    requires 0 <= k <= |b.targets|
    decreases |b.targets| - k
  {
    if k == |b.targets| then []
    else TargetFrom(ps, edt, b, b.targets[k], pos) + TargetsFrom(ps, edt, b, k + 1, pos)
  }

  ghost function BelowBusFrom(ps: seq<Pattern>, edt: Edt, b: Bus, pos: Pos): seq<Item> {
    if !InsideBus(pos, b) && !BelowBus(ps) then []
    else if TargetsChanged(pos, b) then [Changed(pos)]
    else TargetsFrom(ps, edt, b, if InsideBus(pos, b) then IndexOf(b.targets, TargetPtr, pos.target) else 0, pos)
  }

  ghost function BusFrom(ps: seq<Pattern>, edt: Edt, b: Bus, pos: Pos): seq<Item> {
    OwnBus(ps, edt, b, pos) + BelowBusFrom(ps, edt, b, pos)
  }

  ghost function BussesFrom(ps: seq<Pattern>, edt: Edt, k: int, pos: Pos): seq<Item>
    requires 0 <= k <= |edt.busses|
    decreases |edt.busses| - k
  {
    if k == |edt.busses| then [] else BusFrom(ps, edt, edt.busses[k], pos) + BussesFrom(ps, edt, k + 1, pos)
  }

  /** Everything a match that starts at `pos` has yet to meet. */
  ghost function From(ps: seq<Pattern>, edt: Edt, pos: Pos): seq<Item> {
    if pos.onBus && !GenOk(pos.busGen, edt.gen) then [Changed(pos)]
    else BussesFrom(ps, edt, if pos.onBus && pos.bus != 0 then IndexOf(edt.busses, BusPtr, pos.bus) else 0, pos)
  }

  /** Some list along the path of `pos` has changed since it was saved. */
  ghost predicate PathChanged(pos: Pos, edt: Edt) {
    && pos.onBus && pos.bus != 0
    && (|| !GenOk(pos.busGen, edt.gen)
        || (var k := IndexOf(edt.busses, BusPtr, pos.bus); k < |edt.busses| && BusPathChanged(pos, edt.busses[k])))
  }

  ghost predicate BusPathChanged(pos: Pos, b: Bus) {
    && InsideBus(pos, b)
    && (|| TargetsChanged(pos, b)
        || (var k := IndexOf(b.targets, TargetPtr, pos.target); k < |b.targets| && TargetPathChanged(pos, b, b.targets[k])))
  }

  ghost predicate TargetPathChanged(pos: Pos, b: Bus, t: Target) {
    && InsideTarget(pos, b, t)
    && (|| DevicesChanged(pos, b, t)
        || (var k := IndexOf(t.devices, DevicePtr, pos.device);
            k < |t.devices| && InsideDevice(pos, b, t, t.devices[k]) && PeriphsChanged(pos, b, t, t.devices[k])))
  }

  // ---- what a traversal does with the items it meets ----

  datatype Status = Idle | Last | More | ListChanged

  /** The request's results, saved position and status. */
  datatype Cdm = Cdm(matches: seq<Result>, pos: Pos, status: Status)

  /**
   Report the items in order into a buffer of `cap` slots.  The second part is 0
   when the traversal has to stop: at the first item without a slot, whose
   position is saved, or at a changed list.
   */
  ghost function Emit(cap: int, st: Cdm, items: seq<Item>): (Cdm, int)
    decreases |items|
  {
    if items == [] then (st, 1)
    else if items[0].Changed? then (st.(status := ListChanged), 0)
    else if cap - |st.matches| < 1 then (st.(pos := items[0].pos, status := More), 0)
    else Emit(cap, st.(matches := st.matches + [items[0].result]), items[1..])
  }

  lemma {:induction false} EmitConcat(cap: int, st: Cdm, xs: seq<Item>, ys: seq<Item>)
    ensures Emit(cap, st, xs + ys) == var (s, r) := Emit(cap, st, xs); if r == 0 then (s, 0) else Emit(cap, s, ys)
    ensures Emit(cap, st, xs).1 == 0 || Emit(cap, st, xs).1 == 1
    decreases |xs|
  {
    if xs == [] {
      assert xs + ys == ys;
    } else if xs[0].Item? && cap - |st.matches| >= 1 {
      assert (xs + ys)[1..] == xs[1..] + ys;
      EmitConcat(cap, st.(matches := st.matches + [xs[0].result]), xs[1..], ys);
    }
  }

  /** Without changed lists, the first items that fit are out and the next one's position is saved. */
  lemma {:induction false} EmitPage(cap: int, st: Cdm, items: seq<Item>)
    requires Clean(items) && |st.matches| <= cap
    ensures var room := cap - |st.matches|;
            Emit(cap, st, items) ==
            if |items| <= room then (st.(matches := st.matches + Results(items)), 1)
            else (Cdm(st.matches + Results(items[..room]), items[room].pos, More), 0)
    decreases |items|
  {
    var room := cap - |st.matches|;
    if items == [] {
      assert st.matches + Results(items) == st.matches;
    } else if room == 0 {
      assert Results(items[..0]) == [];
      assert st.matches + Results(items[..0]) == st.matches;
    } else {
      var st' := st.(matches := st.matches + [items[0].result]);
      var rest := items[1..];
      EmitPage(cap, st', rest);
      if |items| <= room {
        assert st'.matches + Results(rest) == st.matches + Results(items);
      } else {
        assert st'.matches + Results(rest[..room - 1]) == st.matches + Results(items[..room]);
        assert rest[room - 1] == items[room];
      }
    }
  }
}
