/** XPT_DEV_MATCH over the EDT: a traversal that fills a bounded buffer and can be resumed. */
module EdtMatch {
  import opened EdtSpec
  import opened EdtResume

  datatype Action = NoAction | Stop | Descend
  datatype MatchRet = MatchRet(copy: bool, action: Action)

  // ---- pattern lists ----

  method BusMatch(ps: seq<Pattern>, b: Bus) returns (r: MatchRet)
    ensures r.copy <==> CopyBus(ps, b)
    ensures r.action == if BelowBus(ps) then Descend else Stop
  {
    if |ps| == 0 {
      return MatchRet(true, Descend);
    }
    r := MatchRet(false, NoAction);
    for i := 0 to |ps|
      invariant r.copy <==> exists j :: 0 <= j < i && BusMatches(ps[j], b)
      invariant r.action == Descend <==> exists j :: 0 <= j < i && !ps[j].BusPattern?
      invariant r.action != Stop
    {
      var p := ps[i];
      if !p.BusPattern? {
        if r.action == NoAction {
          r := r.(action := Descend);
        }
        continue;
      }
      if p.flags == BusAny {
        r := r.(copy := true);
        if r.action != NoAction {
          return;
        }
      }
      if p.flags == {} {
        continue;
      }
      if ByPath in p.flags && p.pathId != b.pathId {
        continue;
      }
      if ByBusId in p.flags && p.busId != b.busId {
        continue;
      }
      if ByUnit in p.flags && p.unit != b.unit {
        continue;
      }
      if ByName in p.flags && Idlen(p.name) != Idlen(b.name) {
        continue;
      }
      r := r.(copy := true);
      if r.action == Descend {
        return;
      }
    }
    if r.action == NoAction {
      r := r.(action := Stop);
    }
  }

  method DeviceMatch(ps: seq<Pattern>, b: Bus, t: Target, d: Device) returns (r: MatchRet)
    ensures r.copy <==> CopyDevice(ps, b, t, d)
    ensures r.action == if BelowDevice(ps) then Descend else Stop
  {
    if |ps| == 0 {
      return MatchRet(true, Descend);
    }
    r := MatchRet(false, NoAction);
    for i := 0 to |ps|
      invariant r.copy <==> exists j :: 0 <= j < i && DeviceMatches(ps[j], b, t, d)
      invariant r.action == Descend <==> exists j :: 0 <= j < i && ps[j].PeriphPattern?
      invariant r.action != Stop
    {
      var p := ps[i];
      if !p.DevicePattern? {
        if p.PeriphPattern? && r.action == NoAction {
          r := r.(action := Descend);
        }
        continue;
      }
      if p.flags == DeviceAny {
        r := r.(copy := true);
        if r.action != NoAction {
          return;
        }
      }
      if p.flags == {} {
        continue;
      }
      if ByPath in p.flags && p.pathId != b.pathId {
        continue;
      }
      if ByTarget in p.flags && p.target != t.id {
        continue;
      }
      if ByLun in p.flags && p.lun != d.lun {
        continue;
      }
      if ByInquiry in p.flags && d.inquiry !in p.accepts {
        continue;
      }
      r := r.(copy := true);
      if r.action == Descend {
        return;
      }
    }
    if r.action == NoAction {
      r := r.(action := Stop);
    }
  }

  method PeriphMatch(ps: seq<Pattern>, b: Bus, t: Target, d: Device, per: Periph) returns (r: MatchRet)
    ensures r.copy <==> CopyPeriph(ps, b, t, d, per)
    ensures r.action == Stop
  {
    if |ps| == 0 {
      return MatchRet(true, Stop);
    }
    r := MatchRet(false, Stop);
    for i := 0 to |ps|
      invariant r == MatchRet(false, Stop)
      invariant !exists j :: 0 <= j < i && PeriphMatches(ps[j], b, t, d, per)
    {
      var p := ps[i];
      if !p.PeriphPattern? {
        continue;
      }
      if p.flags == PeriphAny {
        return r.(copy := true);
      }
      if p.flags == {} {
        continue;
      }
      if ByPath in p.flags && p.pathId != b.pathId {
        continue;
      }
      if ByTarget in p.flags && p.target != t.id {
        continue;
      }
      if ByLun in p.flags && p.lun != d.lun {
        continue;
      }
      if ByUnit in p.flags && p.unit != per.unit {
        continue;
      }
      if ByName in p.flags && Idlen(p.name) != Idlen(per.name) {
        continue;
      }
      return r.(copy := true);
    }
  }

  // ---- the traversal ----

  class DevMatch {
    var patterns: seq<Pattern>
    var cap: int
    var matches: seq<Result>
    var pos: Pos
    var status: Status

    constructor (patterns: seq<Pattern>)
      ensures this.patterns == patterns && pos == StartPos
    {
      this.patterns, cap, matches, pos, status := patterns, 0, [], StartPos, Idle;
    }

    function State(): Cdm
      reads this
    {
      Cdm(matches, pos, status)
    }

    /** Copy a result out, or save the position and report that there is more. */
    method Report(item: Item) returns (ret: int)
      requires item.Item?
      modifies this`matches, this`pos, this`status
      ensures (State(), ret) == Emit(cap, old(State()), [item])
    {
      if cap - |matches| < 1 {
        pos := item.pos;
        status := More;
        ret := 0;
      } else {
        matches := matches + [item.result];
        ret := 1;
      }
    }

    method PeriphFunc(edt: Edt, b: Bus, t: Target, d: Device, per: Periph) returns (ret: int)
      modifies this`matches, this`pos, this`status
      ensures (State(), ret) == Emit(cap, old(State()), PeriphItems(patterns, edt, b, t, d, per))
    {
      ret := 1;
      var r := PeriphMatch(patterns, b, t, d, per);
      if r.copy {
        ret := Report(Item(PosOfPeriph(edt, b, t, d, per), ResultOfPeriph(b, t, d, per)));
      }
    }

    method PeriphTraverse(edt: Edt, b: Bus, t: Target, d: Device, start: int) returns (ret: int)
      requires 0 <= start <= |d.periphs|
      modifies this`matches, this`pos, this`status
      ensures (State(), ret) == Emit(cap, old(State()), PeriphsFrom(patterns, edt, b, t, d, start))
    {
      ret := 1;
      for k := start to |d.periphs|
        invariant ret == 1
        invariant Emit(cap, old(State()), PeriphsFrom(patterns, edt, b, t, d, start))
               == Emit(cap, State(), PeriphsFrom(patterns, edt, b, t, d, k))
      {
        EmitConcat(cap, State(), PeriphItems(patterns, edt, b, t, d, d.periphs[k]), PeriphsFrom(patterns, edt, b, t, d, k + 1));
        ret := PeriphFunc(edt, b, t, d, d.periphs[k]);
        if ret == 0 {
          return;
        }
      }
    }

    /** Match the device unless it was reported before the position was saved, and report it. */
    method DeviceSelf(edt: Edt, b: Bus, t: Target, d: Device) returns (ret: int, action: Action)
      modifies this`matches, this`pos, this`status
      ensures (State(), ret) == Emit(cap, old(State()), OwnDevice(patterns, edt, b, t, d, old(pos)))
      ensures action == if SeenDevice(old(pos), d) || BelowDevice(patterns) then Descend else Stop
    {
      ret := 1;
      var r;
      if SeenDevice(pos, d) {
        r := MatchRet(false, Descend);
      } else {
        r := DeviceMatch(patterns, b, t, d);
      }
      action := r.action;
      if r.copy {
        ret := Report(Item(PosOfDevice(edt, b, t, d), ResultOfDevice(b, t, d)));
      }
    }

    method DeviceFunc(edt: Edt, b: Bus, t: Target, d: Device) returns (ret: int)
      modifies this`matches, this`pos, this`status
      ensures (State(), ret) == Emit(cap, old(State()), DeviceFrom(patterns, edt, b, t, d, old(pos)))
    {
      EmitConcat(cap, State(), OwnDevice(patterns, edt, b, t, d, pos), BelowDeviceFrom(patterns, edt, b, t, d, pos));
      EmitKeepsPos(cap, State(), OwnDevice(patterns, edt, b, t, d, pos));
      var action;
      ret, action := DeviceSelf(edt, b, t, d);
      if ret == 0 || action == Stop {
        return;
      }
      if pos.onBus && pos.bus == b.ptr && pos.onTarget && pos.target == t.ptr && pos.onDevice && pos.device == d.ptr
         && pos.onPeriph && pos.periphGen != 0 && pos.periphGen != d.gen {
        status := ListChanged;
        ret := 0;
        return;
      }
      if InsideDevice(pos, b, t, d) {
        ret := PeriphTraverse(edt, b, t, d, IndexOf(d.periphs, PeriphPtr, pos.periph));
      } else {
        ret := PeriphTraverse(edt, b, t, d, 0);
      }
    }

    method DeviceTraverse(edt: Edt, b: Bus, t: Target, start: int) returns (ret: int)
      requires 0 <= start <= |t.devices|
      modifies this`matches, this`pos, this`status
      ensures (State(), ret) == Emit(cap, old(State()), DevicesFrom(patterns, edt, b, t, start, old(pos)))
    {
      ret := 1;
      ghost var p0 := pos;
      for k := start to |t.devices|
        invariant ret == 1 && pos == p0
        invariant Emit(cap, old(State()), DevicesFrom(patterns, edt, b, t, start, p0))
               == Emit(cap, State(), DevicesFrom(patterns, edt, b, t, k, p0))
      {
        ghost var here := DeviceFrom(patterns, edt, b, t, t.devices[k], p0);
        EmitConcat(cap, State(), here, DevicesFrom(patterns, edt, b, t, k + 1, p0));
        EmitKeepsPos(cap, State(), here);
        ret := DeviceFunc(edt, b, t, t.devices[k]);
        if ret == 0 {
          return;
        }
      }
    }

    method TargetFunc(edt: Edt, b: Bus, t: Target) returns (ret: int)
      modifies this`matches, this`pos, this`status
      ensures (State(), ret) == Emit(cap, old(State()), TargetFrom(patterns, edt, b, t, old(pos)))
    {
      if pos.onBus && pos.bus == b.ptr && pos.onTarget && pos.target == t.ptr && pos.onDevice
         && pos.devGen != 0 && pos.devGen != t.gen {
        status := ListChanged;
        ret := 0;
        return;
      }
      if InsideTarget(pos, b, t) {
        ret := DeviceTraverse(edt, b, t, IndexOf(t.devices, DevicePtr, pos.device));
      } else {
        ret := DeviceTraverse(edt, b, t, 0);
      }
    }

    method TargetTraverse(edt: Edt, b: Bus, start: int) returns (ret: int)
      requires 0 <= start <= |b.targets|
      modifies this`matches, this`pos, this`status
      ensures (State(), ret) == Emit(cap, old(State()), TargetsFrom(patterns, edt, b, start, old(pos)))
    {
      ret := 1;
      ghost var p0 := pos;
      for k := start to |b.targets|
        invariant ret == 1 && pos == p0
        invariant Emit(cap, old(State()), TargetsFrom(patterns, edt, b, start, p0))
               == Emit(cap, State(), TargetsFrom(patterns, edt, b, k, p0))
      {
        ghost var here := TargetFrom(patterns, edt, b, b.targets[k], p0);
        EmitConcat(cap, State(), here, TargetsFrom(patterns, edt, b, k + 1, p0));
        EmitKeepsPos(cap, State(), here);
        ret := TargetFunc(edt, b, b.targets[k]);
        if ret == 0 {
          return;
        }
      }
    }

    /** Match the bus unless it was reported before the position was saved, and report it. */
    method BusSelf(edt: Edt, b: Bus) returns (ret: int, action: Action)
      modifies this`matches, this`pos, this`status
      ensures (State(), ret) == Emit(cap, old(State()), OwnBus(patterns, edt, b, old(pos)))
      ensures action == if InsideBus(old(pos), b) || BelowBus(patterns) then Descend else Stop
    {
      ret := 1;
      var r;
      if InsideBus(pos, b) {
        r := MatchRet(false, Descend);
      } else {
        r := BusMatch(patterns, b);
      }
      action := r.action;
      if r.copy {
        ret := Report(Item(PosOfBus(edt, b), ResultOfBus(b)));
      }
    }

    method BusFunc(edt: Edt, b: Bus) returns (ret: int)
      modifies this`matches, this`pos, this`status
      ensures (State(), ret) == Emit(cap, old(State()), BusFrom(patterns, edt, b, old(pos)))
    {
      EmitConcat(cap, State(), OwnBus(patterns, edt, b, pos), BelowBusFrom(patterns, edt, b, pos));
      EmitKeepsPos(cap, State(), OwnBus(patterns, edt, b, pos));
      var action;
      ret, action := BusSelf(edt, b);
      if ret == 0 || action == Stop {
        return;
      }
      if pos.onBus && pos.bus == b.ptr && pos.onTarget && pos.targetGen != 0 && pos.targetGen != b.gen {
        status := ListChanged;
        ret := 0;
        return;
      }
      if InsideBus(pos, b) {
        ret := TargetTraverse(edt, b, IndexOf(b.targets, TargetPtr, pos.target));
      } else {
        ret := TargetTraverse(edt, b, 0);
      }
    }

    method BusTraverse(edt: Edt, start: int) returns (ret: int)
      requires 0 <= start <= |edt.busses|
      modifies this`matches, this`pos, this`status
      ensures (State(), ret) == Emit(cap, old(State()), BussesFrom(patterns, edt, start, old(pos)))
    {
      ret := 1;
      ghost var p0 := pos;
      for k := start to |edt.busses|
        invariant ret == 1 && pos == p0
        invariant Emit(cap, old(State()), BussesFrom(patterns, edt, start, p0))
               == Emit(cap, State(), BussesFrom(patterns, edt, k, p0))
      {
        ghost var here := BusFrom(patterns, edt, edt.busses[k], p0);
        EmitConcat(cap, State(), here, BussesFrom(patterns, edt, k + 1, p0));
        EmitKeepsPos(cap, State(), here);
        ret := BusFunc(edt, edt.busses[k]);
        if ret == 0 {
          return;
        }
      }
    }

    /**
     xptedtmatch: one call reports, into an empty buffer, what a traversal from
     the saved position meets.
     */
    method Match(edt: Edt)
      modifies this`matches, this`pos, this`status
      ensures var (st, ret) := Emit(cap, old(State()).(matches := []), From(patterns, edt, old(pos)));
              State() == if ret == 1 then st.(status := Last) else st
    {
      matches := [];
      if pos.onBus && pos.busGen != 0 && pos.busGen != edt.gen {
        status := ListChanged;
        return;
      }
      var ret;
      if pos.onBus && pos.bus != 0 {
        ret := BusTraverse(edt, IndexOf(edt.busses, BusPtr, pos.bus));
      } else {
        ret := BusTraverse(edt, 0);
      }
      if ret == 1 {
        status := Last;
      }
    }
  }

  /** A traversal that did not stop has left the position alone. */
  lemma {:induction false} EmitKeepsPos(cap: int, st: Cdm, items: seq<Item>)
    ensures Emit(cap, st, items).1 != 0 ==> Emit(cap, st, items).0.pos == st.pos
    decreases |items|
  {
    if items != [] && items[0].Item? && cap - |st.matches| >= 1 {
      EmitKeepsPos(cap, st.(matches := st.matches + [items[0].result]), items[1..]);
    }
  }

  /**
   Calls repeated with any buffer sizes of at least one, each resuming where the
   last stopped, together report the preorder traversal: nothing is lost,
   repeated or reordered, and the calls come to an end.
   */
  method MatchAll(edt: Edt, patterns: seq<Pattern>, caps: nat -> nat) returns (all: seq<Result>, calls: nat)
    requires Addressed(edt) && forall n :: caps(n) >= 1
    ensures all == Preorder(patterns, edt)
    ensures calls <= |all| + 1
  {
    ghost var items := From(patterns, edt, StartPos);
    FromStart(patterns, edt);
    var cdm := new DevMatch(patterns);
    ghost var i := 0;
    all, calls := [], 0;
    assert items[0..] == items;
    while true
      invariant fresh(cdm) && cdm.patterns == patterns
      invariant 0 <= i <= |items| && calls <= i && all == Results(items[..i])
      invariant From(patterns, edt, cdm.pos) == items[i..]
      decreases |items| - i
    {
      cdm.cap := caps(calls);
      OnePage(items, i, cdm.cap, cdm.State());
      cdm.Match(edt);
      calls := calls + 1;
      all := all + cdm.matches;
      if cdm.status == Last {
        break;
      }
      i := i + cdm.cap;
      Resume(patterns, edt, i);
    }
  }

  /** What one call does when items `i` onwards are left. */
  lemma OnePage(items: seq<Item>, i: int, cap: int, st: Cdm)
    requires Clean(items) && 0 <= i <= |items| && cap >= 1
    ensures var (s, r) := Emit(cap, st.(matches := []), items[i..]);
            if |items| - i <= cap then r == 1 && Results(items) == Results(items[..i]) + s.matches
            else && r == 0 && s.status == More && s.pos == items[i + cap].pos
                 && Results(items[..i + cap]) == Results(items[..i]) + s.matches
  {
    EmitPage(cap, st.(matches := []), items[i..]);
    PageOut(items, i, if |items| - i <= cap then |items| - i else cap);
  }

  lemma PageOut(items: seq<Item>, i: int, page: int)
    requires Clean(items) && 0 <= i <= i + page <= |items|
    ensures Results(items[..i + page]) == Results(items[..i]) + Results(items[i..][..page])
    ensures i + page == |items| ==> items[..i + page] == items && items[i..][..page] == items[i..]
    ensures i + page < |items| ==> page < |items[i..]| && items[i..][page] == items[i + page]
  {
    assert items[..i + page] == items[..i] + items[i..][..page];
  }

  /** A call whose saved position has a changed list on its path reports that and nothing else. */
  lemma ChangedFirst(ps: seq<Pattern>, edt: Edt, cap: int, st: Cdm)
    requires PathChanged(st.pos, edt)
    ensures Emit(cap, st, From(ps, edt, st.pos)) == (st.(status := ListChanged), 0)
  {
  }
}
