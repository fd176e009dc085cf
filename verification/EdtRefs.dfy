/**
 Paths, bus registration and asynchronous callbacks over the EDT.  Between calls
 every count is what the live paths, the lists, the registrations, the callbacks
 and the leaked references account for, so no node of a live path is ever freed.
 Only xpt_create_path_unlocked leaks: it keeps the bus it looked up to lock it.
 */
module EdtRefs {
  import opened EdtTable
  import opened Numbers

  datatype Status = ReqCmp | PathInvalid | ResrcUnavail

  const WILDCARD := 0xffff_ffff

  /** Bit numbers of two kinds of event. */
  const AC_PATH_REGISTERED := 5
  const AC_FOUND_DEVICE := 7

  /** Memory that malloc may return: nothing, or an address not in use. */
  predicate Unused(tb: Table, mem: Ptr) {
    mem == 0 || mem !in tb
  }

  class Transport {
    var node: Table
    ghost var paths: seq<Path>
    ghost var leaked: multiset<Ptr>

    /** All references that children, callbacks and registrations do not account for. */
    ghost function Held(): multiset<Ptr>
      reads this
    {
      Holds(paths) + leaked
    }

    ghost predicate Valid()
      reads this
    {
      Inv(node, Held()) && PathsOk(node, paths) && LeaksOk(node, leaked)
    }

    constructor ()
      ensures Valid() && paths == [] && leaked == multiset{} && node.Keys == {0} && node[0].children == []
    {
      node := map[0 := Node(Root, 0, 0, 0, [], 0, false, false, map[])];
      paths := [];
      leaked := multiset{};
      new;
      EmptyInv(node);
    }

    /** xpt_find_bus, xpt_find_target, xpt_find_device: look a key up and take a reference. */
    method Find(p: Ptr, key: int) returns (x: Ptr)
      requires p in node && ListOrdered(node, p)
      modifies this`node
      ensures x == 0 ==> node == old(node) && Absent(node, p, key)
      ensures x != 0 ==> && x in old(node) && old(node)[x].parent == p && old(node)[x].key == key
                         && node == Bump(old(node), x, 1)
    {
      x := 0;
      var l := node[p].children;
      for i := 0 to |l|
        invariant x == 0 && node == old(node)
        invariant forall j :: 0 <= j < i ==> node[l[j]].key != key
      {
        if node[l[i]].key == key {
          x := l[i];
          node := node[x := node[x].(refcount := node[x].refcount + 1)];
          return;
        }
      }
    }

    /** The place of a new node in its parent's sorted list. */
    method Place(p: Ptr, key: int) returns (k: int)
      requires p in node && ListOrdered(node, p) && (node[p].kind != Root ==> Absent(node, p, key))
      ensures Slot(node, p, key, k)
    {
      var l := node[p].children;
      k := 0;
      while k < |l| && node[l[k]].key < key
        invariant 0 <= k <= |l|
        invariant forall j :: 0 <= j < k ==> node[l[j]].key < key
      {
        k := k + 1;
      }
    }

    /**
     xpt_alloc_target, xpt_alloc_device: insert a new node, with one reference, into
     its parent's sorted list.  `mem` is the address malloc returned, 0 when it failed.
     */
    method Alloc(p: Ptr, kind: Kind, key: int, mem: Ptr) returns (x: Ptr, ghost k: int)
      requires p in node && p != 0 && ListOrdered(node, p) && Absent(node, p, key) && Unused(node, mem)
      modifies this`node
      ensures x == mem && (x == 0 ==> node == old(node))
      ensures x != 0 ==> Slot(old(node), p, key, k) && node == Add(old(node), p, x, NewNode(kind, p, key), k)
    {
      x, k := mem, 0;
      if x == 0 {
        return;
      }
      var i := Place(p, key);
      k := i;
      node := node[p := node[p].(refcount := node[p].refcount + 1,
                                 children := InsertAt(node[p].children, i, x), gen := node[p].gen + 1)]
                  [x := NewNode(kind, p, key)];
    }

    /** xpt_release_device, xpt_release_target, xpt_release_bus: give a reference back. */
    method Release(x: Ptr)
      requires Linked(node) && x in node && x != 0
      modifies this`node
      ensures node == Drop(old(node), x)
      decreases Depth(node[x].kind)
    {
      assert InParent(node, x);
      var n := node[x].(refcount := node[x].refcount - 1);
      if n.refcount == 0 && n.children == [] && (n.kind == Device ==> n.unconfigured) {
        var p := n.parent;
        CutLinked(node, x);
        node := node[p := node[p].(children := Without(node[p].children, x), gen := node[p].gen + 1)] - {x};
        if p != 0 {
          Release(p);
        }
      } else {
        node := node[x := n];
      }
    }

    // ---- paths ----

    /** Find the child of `p` with this key, or make it. */
    method Enter(p: Ptr, kind: Kind, key: int, mem: Ptr, ghost holds: multiset<Ptr>) returns (x: Ptr)
      requires Inv(node, holds) && p in node && p != 0 && Depth(kind) == Depth(node[p].kind) + 1 && Unused(node, mem)
      modifies this`node
      ensures x == 0 ==> mem == 0 && node == old(node)
      ensures x != 0 ==> && Inv(node, holds + multiset{x}) && x in node && x != p
                         && node[x].kind == kind && node[x].parent == p && node[x].key == key
                         && node.Keys == old(node).Keys + {x}
                         && (x !in old(node) ==> x == mem && node[x] == NewNode(kind, p, key))
      ensures Keeps(old(node), node)
    {
      assert ListOrdered(node, p);
      ghost var tb := node;
      x := Find(p, key);
      if x != 0 {
        HoldInv(tb, holds, x);
        assert InParent(tb, x);
        SameDepth(node[x].kind, kind);
      } else {
        ghost var k;
        x, k := Alloc(p, kind, key, mem);
        if x != 0 {
          AddInv(tb, holds, p, x, NewNode(kind, p, key), k);
        }
      }
    }

    /** xpt_find_bus. */
    method EnterBus(pathId: int, ghost holds: multiset<Ptr>) returns (b: Ptr)
      requires Inv(node, holds)
      modifies this`node
      ensures b == 0 ==> node == old(node) && Absent(node, 0, pathId)
      ensures b != 0 ==> && b in old(node) && Inv(node, holds + multiset{b}) && b in node
                         && node[b].kind == Bus && node[b].key == pathId && node[b].parent == 0
      ensures Keeps(old(node), node) && node.Keys == old(node).Keys
    {
      assert ListOrdered(node, 0);
      ghost var tb := node;
      b := Find(0, pathId);
      if b != 0 {
        HoldInv(tb, holds, b);
        assert InParent(tb, b);
        SameDepth(node[b].kind, Bus);
      }
    }
  
    method GiveBack(x: Ptr, ghost rest: multiset<Ptr>)
      requires Inv(node, rest + multiset{x})
      modifies this`node
      ensures Inv(node, rest) && Keeps(old(node), node) && node.Keys <= old(node).Keys
      ensures x in old(node) && Last(old(node)[x]) ==> x !in node
      ensures InTable(old(node), x) && old(node).Keys - Line(old(node), x) <= node.Keys
      ensures Stays(old(node)[x]) ==> node == Bump(old(node), x, -1)
    {
      ghost var holds := rest + multiset{x};
      assert x in holds && InTable(node, x);
      PlusMinus(rest, x);
      if Last(node[x]) {
        DropFrees(node, holds, x);
      }
      DropInv(node, holds, x);
      DropKeeps(node, holds, x);
      DropLine(node, x);
      Release(x);
    }

    /** The target and the device of a path; a target whose device cannot be made is given back. */
    method EnterBoth(b: Ptr, targetId: int, lun: int, memT: Ptr, memD: Ptr, ghost holds: multiset<Ptr>)
      returns (t: Ptr, d: Ptr)
      requires Inv(node, holds) && b in node && node[b].kind == Bus && b != 0
      requires Unused(node, memT) && Unused(node, memD) && (memT == memD ==> memT == 0)
      modifies this`node
      ensures Keeps(old(node), node)
      ensures d == 0 ==> (memT == 0 || memD == 0) && Inv(node, holds)
      ensures d != 0 ==> && Inv(node, holds + multiset{t} + multiset{d}) && node.Keys == old(node).Keys + {t, d}
                         && (d !in old(node) ==> d == memD && Last(node[d])) && (t !in old(node) ==> t == memT)
                         && t in node && node[t].kind == Target && node[t].parent == b && node[t].key == targetId
                         && d in node && node[d].kind == Device && node[d].parent == t && node[d].key == lun
    {
      ghost var tb := node;
      t := Enter(b, Target, targetId, memT, holds);
      if t == 0 {
        d := 0;
        return;
      }
      ghost var tb1 := node;
      d := Enter(t, Device, lun, memD, holds + multiset{t});
      assert Kept(tb1, node, t);
      KeepsTwice(tb, tb1, node);
      if d == 0 {
        GiveBack(t, holds);
        KeepsTwice(tb, tb1, node);
      }
    }

    /** The references of a new path, or none. */
    method Acquire(pathId: int, targetId: int, lun: int, memT: Ptr, memD: Ptr, ghost h: multiset<Ptr>)
      returns (status: Status, path: Path)
      requires Inv(node, h) && Unused(node, memT) && Unused(node, memD) && (memT == memD ==> memT == 0)
      modifies this`node
      ensures Keeps(old(node), node)
      ensures status == PathInvalid <==> Absent(old(node), 0, pathId)
      ensures status == ResrcUnavail ==> memT == 0 || memD == 0
      ensures status != ReqCmp ==> Inv(node, h)
      ensures status == ReqCmp ==> Inv(node, h + multiset{path.bus} + multiset{path.target} + multiset{path.device})
      ensures status == ReqCmp ==> Made(old(node), node, path, memT, memD) && Names(node, path, pathId, targetId, lun)
    {
      path := Path(0, 0, 0);
      ghost var tb := node;
      var b := EnterBus(pathId, h);
      if b == 0 {
        status := PathInvalid;
        return;
      }
      assert Kept(tb, node, b);
      AbsentNot(tb, b, pathId);
      ghost var tb1 := node;
      var t, d := EnterBoth(b, targetId, lun, memT, memD, h + multiset{b});
      assert Kept(tb1, node, b);
      KeepsTwice(tb, tb1, node);
      if d == 0 {
        status := ResrcUnavail;
        ghost var tb2 := node;
        GiveBack(b, h);
        KeepsTwice(tb, tb2, node);
        return;
      }
      status, path := ReqCmp, Path(b, t, d);
    }

    /** xpt_compile_path: make a path, allocating what is missing, or leave no reference behind. */
    method CompilePath(pathId: int, targetId: int, lun: int, memT: Ptr, memD: Ptr) returns (status: Status, path: Path)
      requires Valid() && Unused(node, memT) && Unused(node, memD) && (memT == memD ==> memT == 0)
      modifies this`node, this`paths
      ensures Valid() && Keeps(old(node), node)
      ensures status == PathInvalid <==> Absent(old(node), 0, pathId)
      ensures status == ResrcUnavail ==> memT == 0 || memD == 0
      ensures paths == if status == ReqCmp then old(paths) + [path] else old(paths)
      ensures status == ReqCmp ==> Made(old(node), node, path, memT, memD) && Names(node, path, pathId, targetId, lun)
    {
      ghost var tb := node;
      status, path := Acquire(pathId, targetId, lun, memT, memD, Held());
      if status == ReqCmp {
        AppendPath(tb, node, paths, leaked, path);
        paths := paths + [path];
      } else {
        StillValid(tb, node, paths, leaked);
      }
    }

    /** The look-up that locks the bus: its reference is never given back. */
    method LockBus(pathId: int) returns (ghost found: multiset<Ptr>)
      requires Valid()
      modifies this`node, this`leaked
      ensures Valid() && Keeps(old(node), node) && node.Keys == old(node).Keys && leaked == old(leaked) + found
      ensures found == multiset{} <==> Absent(old(node), 0, pathId)
      ensures Absent(node, 0, pathId) <==> Absent(old(node), 0, pathId)
      ensures found != multiset{} ==> Found(node, found, pathId)
    {
      ghost var tb, h := node, Held();
      var b := EnterBus(pathId, h);
      found := multiset{};
      if b != 0 {
        found := multiset{b};
        assert Kept(tb, node, b);
        AbsentNot(tb, b, pathId);
        AbsentNot(node, b, pathId);
        LeakMore(tb, node, paths, leaked, b);
        leaked := leaked + found;
      }
    }

    /**
     xpt_create_path_unlocked: a path, and one leaked reference to the bus
     unless no bus is found or the path is for all busses.
     */
    method CreatePathUnlocked(pathId: int, targetId: int, lun: int, memT: Ptr, memD: Ptr)
      returns (status: Status, path: Path, ghost found: multiset<Ptr>)
      requires Valid() && Unused(node, memT) && Unused(node, memD) && (memT == memD ==> memT == 0)
      modifies this
      ensures Valid() && Keeps(old(node), node) && leaked == old(leaked) + found
      ensures found == multiset{} <==> pathId == WILDCARD || Absent(old(node), 0, pathId)
      ensures found != multiset{} ==> Found(node, found, pathId)
      ensures status == PathInvalid <==> Absent(old(node), 0, pathId)
      ensures status == ResrcUnavail ==> memT == 0 || memD == 0
      ensures paths == if status == ReqCmp then old(paths) + [path] else old(paths)
      ensures status == ReqCmp ==> Made(old(node), node, path, memT, memD) && Names(node, path, pathId, targetId, lun)
    {
      ghost var tb := node;
      found := multiset{};
      if pathId != WILDCARD {
        found := LockBus(pathId);
      }
      ghost var tb1 := node;
      status, path := CompilePath(pathId, targetId, lun, memT, memD);
      KeepsTwice(tb, tb1, node);
      if found != multiset{} {
        ghost var b :| found == multiset{b} && b in tb1 && tb1[b].kind == Bus && tb1[b].key == pathId;
        assert b in leaked && Leak(node, b) && Kept(tb1, node, b);
      }
    }

    method GiveBackAll(path: Path, ghost rest: multiset<Ptr>)
      requires Inv(node, rest + multiset{path.bus} + multiset{path.target} + multiset{path.device}) && PathOk(node, path)
      modifies this`node
      ensures Inv(node, rest) && Keeps(old(node), node) && Shed(old(node), node, path)
    {
      ghost var tb := node;
      GiveBack(path.device, rest + multiset{path.bus} + multiset{path.target});
      ghost var tb1 := node;
      GiveBack(path.target, rest + multiset{path.bus});
      KeepsTwice(tb, tb1, node);
      ghost var tb2 := node;
      GiveBack(path.bus, rest);
      KeepsTwice(tb, tb2, node);
      Shedding(tb, tb1, tb2, node, path);
    }

    /** xpt_release_path: give the device, the target and the bus back, in this order. */
    method ReleasePath(path: Path, ghost i: int)
      requires Valid() && 0 <= i < |paths| && paths[i] == path
      modifies this`node, this`paths
      ensures Valid() && Keeps(old(node), node) && paths == Removed(old(paths), i)
      ensures Shed(old(node), node, path)
    {
      SplitPath(node, paths, leaked, i);
      DropPath(path, Removed(paths, i));
      paths := Removed(paths, i);
    }

    method DropPath(path: Path, ghost left: seq<Path>)
      requires PathsOk(node, left) && LeaksOk(node, leaked) && PathOk(node, path)
      requires Inv(node, Holds(left) + leaked + multiset{path.bus} + multiset{path.target} + multiset{path.device})
      modifies this`node
      ensures Inv(node, Holds(left) + leaked) && PathsOk(node, left) && LeaksOk(node, leaked)
      ensures Keeps(old(node), node) && Shed(old(node), node, path)
    {
      ghost var tb := node;
      GiveBackAll(path, Holds(left) + leaked);
      StillValid(tb, node, left, leaked);
    }

    // ---- callbacks, configuration, registration ----

    /**
     XPT_SASYNC_CB on the device of a live path: add, change or remove a callback.
     A callback that newly asks for devices or busses is told of the known ones by
     a task; when no task can be made the request fails, but the callback stays.
     */
    method SetAsync(path: Path, ghost i: int, key: int, events: int, memory: bool, taskMemory: bool)
      returns (status: Status, task: bool)
      requires Valid() && 0 <= i < |paths| && paths[i] == path
      modifies this`node
      ensures Valid()
      ensures var d := old(node)[path.device];
              var stored := key in d.asyncs || memory;
              && node == (if stored then old(node)[path.device := WithAsync(d, key, events)] else old(node))
              && task == (stored && taskMemory && Tells(if key in d.asyncs then d.asyncs[key] else 0, events))
              && (status == ReqCmp <==> stored && (task || !Tells(if key in d.asyncs then d.asyncs[key] else 0, events)))
              && (status == ReqCmp || status == ResrcUnavail)
    {
      assert PathOk(node, path);
      var d := node[path.device];
      var tells := Tells(if key in d.asyncs then d.asyncs[key] else 0, events);
      task := false;
      if key in d.asyncs {
        if events == 0 {
          d := d.(asyncs := d.asyncs - {key}, refcount := d.refcount - 1);
        } else {
          d := d.(asyncs := d.asyncs[key := events]);
        }
      } else {
        if !memory {
          return ResrcUnavail, false;
        }
        d := d.(asyncs := d.asyncs[key := events], refcount := d.refcount + 1);
      }
      assert NodeCounted(node, Held(), path.device);
      AsyncCounted(node[path.device], key, events);
      TweakPaths(node, paths, leaked, path.device, d);
      node := node[path.device := d];
      task := tells && taskMemory;
      status := if tells && !taskMemory then ResrcUnavail else ReqCmp;
    }

    /** A device becomes configured, or is lost. */
    method SetConfigured(d: Ptr, configured: bool)
      requires Valid() && d in node && node[d].kind == Device
      modifies this`node
      ensures Valid() && node == old(node)[d := old(node)[d].(unconfigured := !configured)]
    {
      assert d != 0;
      var n := node[d].(unconfigured := !configured);
      assert NodeCounted(node, Held(), d);
      TweakPaths(node, paths, leaked, d, n);
      node := node[d := n];
    }
  
    /**
     xpt_async(AC_LOST_DEVICE) from a bus: every device on it that is not a
     wildcard becomes unconfigured, and nothing else changes.
     */
    method MarkLost(b: Ptr)
      requires Valid() && b in node && b != 0 && node[b].kind == Bus
      modifies this`node
      ensures Valid() && node == Lost(old(node), OnBus(old(node), b))
    {
      ghost var tb, lost := node, {};
      LostNone(tb);
      var ts := node[b].children;
      assert ListOrdered(tb, b);
      for i := 0 to |ts|
        invariant Valid() && node == Lost(tb, lost)
        invariant lost == set d | d in tb && RealDevice(tb, d) && tb[d].parent in ts[..i]
      {
        var t := ts[i];
        assert InParent(tb, t);
        SameDepth(tb[t].kind, Target);
        if node[t].key != WILDCARD {
          MarkTarget(t);
          LostAlike(tb, lost, t);
          LostMore(tb, lost, OnTarget(tb, t));
          lost := lost + OnTarget(tb, t);
        }
        PrefixMore(ts, i);
        TargetMore(tb, ts, i);
      }
      assert ts[..|ts|] == ts;
      OnBusTargets(tb, b);
    }

    method MarkTarget(t: Ptr)
      requires Valid() && t in node && t != 0 && node[t].kind == Target && node[t].key != WILDCARD
      modifies this`node
      ensures Valid() && node == Lost(old(node), OnTarget(old(node), t))
    {
      ghost var tb, lost := node, {};
      LostNone(tb);
      var ds := node[t].children;
      assert ListOrdered(tb, t);
      for i := 0 to |ds|
        invariant Valid() && node == Lost(tb, lost)
        invariant lost == set d | d in ds[..i] && d in tb && RealDevice(tb, d)
      {
        assert InParent(tb, ds[i]);
        SameDepth(tb[ds[i]].kind, Device);
        if node[ds[i]].key != WILDCARD {
          SetConfigured(ds[i], false);
          LostMore(tb, lost, {ds[i]});
          lost := lost + {ds[i]};
        }
        PrefixMore(ds, i);
      }
      assert ds[..|ds|] == ds;
      OnTargetChildren(tb, t);
    }

    /** The new bus of xpt_bus_register, held until it is deregistered. */
    method InsertBus(pathId: int, mem: Ptr)
      requires Valid() && mem !in node
      modifies this`node
      ensures Valid() && mem in node && node[mem].kind == Bus && node[mem].key == pathId && node[mem].registered
      ensures !Absent(node, 0, pathId) && node.Keys == old(node).Keys + {mem} && Keeps(old(node), node)
    {
      assert ListOrdered(node, 0);
      ghost var tb := node;
      var k := Place(0, pathId);
      var n := Node(Bus, 0, pathId, 1, [], 0, true, false, map[]);
      AddBusValid(tb, paths, leaked, mem, n, k);
      node := node[0 := node[0].(children := InsertAt(node[0].children, k, mem), gen := node[0].gen + 1)][mem := n];
      AbsentNot(node, mem, pathId);
    }

    /** Make a path and give it back: what was made for it is gone again. */
    method Announce(pathId: int, memT: Ptr, memD: Ptr)
      requires Valid() && !Absent(node, 0, pathId)
      requires memT !in node && memD !in node && memT != memD
      modifies this`node, this`paths
      ensures Valid() && paths == old(paths) && Keeps(old(node), node) && node.Keys <= old(node).Keys
    {
      ghost var n, tb := |paths|, node;
      var status, path := CompilePath(pathId, WILDCARD, WILDCARD, memT, memD);
      ghost var tb1 := node;
      RemovedLast(old(paths), path);
      ReleasePath(path, n);
      KeepsTwice(tb, tb1, node);
      KeptParents(tb, node);
      KeptTarget(tb1, node, path.target);
      NoTrace(tb, node, Held(), path.target);
    }

    /** xpt_bus_register: insert the bus and announce it through a path of its own. */
    method Register(pathId: int, memB: Ptr, memT: Ptr, memD: Ptr) returns (status: Status)
      requires Valid() && Unused(node, memB) && memT !in node && memD !in node
      requires memB != memT && memB != memD && memT != memD
      modifies this`node, this`paths
      ensures Valid() && paths == old(paths) && Keeps(old(node), node)
      ensures status == if memB == 0 then ResrcUnavail else ReqCmp
      ensures status == ResrcUnavail ==> node == old(node)
      ensures status == ReqCmp ==> && memB in node && node.Keys <= old(node).Keys + {memB}
                                   && node[memB].kind == Bus && node[memB].key == pathId && node[memB].registered
    {
      if memB == 0 {
        return ResrcUnavail;
      }
      ghost var tb := node;
      InsertBus(pathId, memB);
      ghost var tb1 := node;
      if pathId != WILDCARD {
        Announce(pathId, memT, memD);
      }
      KeepsTwice(tb, tb1, node);
      assert pathId != WILDCARD ==> Kept(tb1, node, memB);
      status := ReqCmp;
    }

    /**
     xpt_bus_deregister: mark the devices lost and give the registration's
     reference back.  The bus goes when no path, target or leaked reference holds it.
     */
    method Deregister(pathId: int, memT: Ptr, memD: Ptr) returns (status: Status, b: Ptr)
      requires Valid() && Unused(node, memT) && Unused(node, memD) && (memT == memD ==> memT == 0)
      requires AllRegistered(node, pathId)
      modifies this`node, this`paths
      ensures Valid() && paths == old(paths)
      ensures status == PathInvalid <==> Absent(old(node), 0, pathId)
      ensures status == ResrcUnavail ==> memT == 0 || memD == 0
      ensures status != ReqCmp ==> Keeps(old(node), node)
      ensures status == ReqCmp ==> && b in old(node) && old(node)[b].kind == Bus && old(node)[b].key == pathId
                                   && Settled(old(node), node, b) && Spared(old(node), node, b)
                                   && (b in node <==> Wanted(node, paths, leaked, b))
    {
      ghost var n, tb := |paths|, node;
      var path;
      status, path := CompilePath(pathId, WILDCARD, WILDCARD, memT, memD);
      b := path.bus;
      if status == ReqCmp {
        assert Kept(tb, node, b);
        RemovedLast(old(paths), path);
        ghost var tb1 := node;
        Close(path, n, tb);
        SparedBy(tb, tb1, node, path);
      }
    }

    /** Deregister the bus of a path made for this alone. */
    method Close(path: Path, ghost n: int, ghost tb: Table)
      requires Valid() && 0 <= n < |paths| && paths[n] == path
      requires Inv(tb, Holds(Removed(paths, n)) + leaked) && Keeps(tb, node) && Made(tb, node, path, path.target, path.device)
      requires tb[path.bus].registered
      modifies this`node, this`paths
      ensures Valid() && paths == Removed(old(paths), n)
      ensures Settled(tb, node, path.bus)
      ensures tb.Keys - {path.bus, path.target, path.device} <= node.Keys <= tb.Keys
      ensures path.bus in node <==> Wanted(node, paths, leaked, path.bus)
    {
      ghost var tb1 := node;
      assert Kept(tb, node, path.bus);
      Withdraw(path, n);
      Withdrawn(tb, tb1, node, paths, leaked, path);
    }

    /** Mark the devices of the path's bus lost, end its registration and release the path. */
    method Withdraw(path: Path, ghost n: int)
      requires Valid() && 0 <= n < |paths| && paths[n] == path && node[path.bus].registered
      modifies this`node, this`paths
      ensures Valid() && paths == Removed(old(paths), n)
      ensures Keeps(Dismissed(old(node), path.bus), node)
      ensures old(node).Keys - {path.bus, path.target, path.device} <= node.Keys <= old(node).Keys
      ensures Last(old(node)[path.device]) ==> path.device !in node
    {
      ghost var tb := node;
      assert PathOk(node, path);
      HoldsOne(paths, n);
      Dismiss(path.bus);
      DismissedDevice(tb, path.bus, path.device);
      ReleasePath(path, n);
    }

    method Dismiss(b: Ptr)
      requires Valid() && b in node && b != 0 && node[b].kind == Bus && node[b].registered && b in Holds(paths)
      modifies this`node
      ensures Valid() && node == Dismissed(old(node), b)
    {
      MarkLost(b);
      Unregister(b);
    }

    /** Give up a registration while a path still holds the bus. */
    method Unregister(b: Ptr)
      requires Valid() && b in node && b != 0 && node[b].kind == Bus && node[b].registered && b in Holds(paths)
      modifies this`node
      ensures Valid() && node == Unlist(old(node), b)
    {
      UnregisterValid(node, paths, leaked, b);
      node := node[b := node[b].(registered := false)];
      Release(b);
    }
  }

  function Bit(x: int, n: nat): bool {
    x / Pow2(n) % 2 == 1
  }

  /** The events ask for found devices or registered busses, and those before did not. */
  predicate Tells(was: int, events: int) {
    || (Bit(events, AC_FOUND_DEVICE) && !Bit(was, AC_FOUND_DEVICE))
    || (Bit(events, AC_PATH_REGISTERED) && !Bit(was, AC_PATH_REGISTERED))
  }

  /** The device after a callback request: no events asked for removes an existing entry. */
  function WithAsync(d: Node, key: int, events: int): Node {
    var asyncs := if key in d.asyncs && events == 0 then d.asyncs - {key} else d.asyncs[key := events];
    d.(asyncs := asyncs, refcount := d.refcount + |asyncs| - |d.asyncs|)
  }

  lemma AsyncCounted(d: Node, key: int, events: int)
    ensures var n := WithAsync(d, key, events);
            && n.refcount - Pins(n) == d.refcount - Pins(d)
            && n.refcount == d.refcount + (if key !in d.asyncs then 1 else if events == 0 then -1 else 0)
  {
  }

  lemma AddKeepsPaths(tb: Table, paths: seq<Path>, p: Ptr, x: Ptr, n: Node, k: int)
    requires PathsOk(tb, paths) && p in tb && x !in tb && 0 <= k <= |tb[p].children|
    ensures PathsOk(Add(tb, p, x, n, k), paths)
  {
    var tb' := Add(tb, p, x, n, k);
    forall i | 0 <= i < |paths| ensures PathOk(tb', paths[i]) { assert PathOk(tb, paths[i]); }
  }

  lemma PathsTweaked(tb: Table, paths: seq<Path>, x: Ptr, n: Node)
    requires PathsOk(tb, paths) && x in tb && n.kind == tb[x].kind && n.parent == tb[x].parent
    ensures PathsOk(tb[x := n], paths)
  {
    forall i | 0 <= i < |paths| ensures PathOk(tb[x := n], paths[i]) { assert PathOk(tb, paths[i]); }
  }

  predicate RealDevice(tb: Table, d: Ptr)
    requires d in tb
  {
    && tb[d].kind == Device && tb[d].key != WILDCARD
    && tb[d].parent in tb && tb[tb[d].parent].key != WILDCARD
  }

  /** The devices on target `t` that are not wildcards. */
  ghost function OnTarget(tb: Table, t: Ptr): set<Ptr> {
    set d | d in tb && RealDevice(tb, d) && tb[d].parent == t
  }

  /** The devices on bus `b` that are not wildcards, on targets that are not. */
  ghost function OnBus(tb: Table, b: Ptr): set<Ptr> {
    set d | d in tb && RealDevice(tb, d) && tb[tb[d].parent].parent == b
  }

  lemma OnTargetChildren(tb: Table, t: Ptr)
    requires Linked(tb) && t in tb
    ensures OnTarget(tb, t) == set d | d in tb[t].children && d in tb && RealDevice(tb, d)
  {
    assert ListOrdered(tb, t);
    forall d | d in OnTarget(tb, t) ensures d in tb[t].children { assert InParent(tb, d); }
  }

  lemma OnBusTargets(tb: Table, b: Ptr)
    requires Linked(tb) && b in tb && b != 0
    ensures OnBus(tb, b) == set d | d in tb && RealDevice(tb, d) && tb[d].parent in tb[b].children
  {
    assert ListOrdered(tb, b);
    forall d | d in OnBus(tb, b) ensures tb[d].parent in tb[b].children {
      assert InParent(tb, d) && InParent(tb, tb[d].parent);
    }
  }

  lemma PrefixMore(l: seq<Ptr>, i: int)
    requires 0 <= i < |l|
    ensures forall x :: x in l[..i + 1] <==> x in l[..i] || x == l[i]
  {
    assert l[..i + 1] == l[..i] + [l[i]];
  }

  /** One more target of a bus adds the devices on it; a wildcard has none. */
  lemma TargetMore(tb: Table, ts: seq<Ptr>, i: int)
    requires 0 <= i < |ts| && ts[i] in tb
    ensures (set d | d in tb && RealDevice(tb, d) && tb[d].parent in ts[..i + 1])
            == (set d | d in tb && RealDevice(tb, d) && tb[d].parent in ts[..i]) + OnTarget(tb, ts[i])
    ensures tb[ts[i]].key == WILDCARD ==> OnTarget(tb, ts[i]) == {}
  {
    PrefixMore(ts, i);
  }

  /** Losing devices does not change which devices there are. */
  lemma LostAlike(tb: Table, lost: set<Ptr>, t: Ptr)
    ensures OnTarget(Lost(tb, lost), t) == OnTarget(tb, t)
  {
  }

  /** The table after the devices in `lost` became unconfigured. */
  ghost function Lost(tb: Table, lost: set<Ptr>): Table {
    map x | x in tb :: if x in lost then tb[x].(unconfigured := true) else tb[x]
  }

  lemma LostNone(tb: Table)
    ensures Lost(tb, {}) == tb
  {
  }

  lemma LostMore(tb: Table, lost: set<Ptr>, more: set<Ptr>)
    ensures Lost(Lost(tb, lost), more) == Lost(tb, lost + more)
  {
  }

  lemma TweakPaths(tb: Table, paths: seq<Path>, leaked: multiset<Ptr>, x: Ptr, n: Node)
    requires Inv(tb, Holds(paths) + leaked) && PathsOk(tb, paths) && LeaksOk(tb, leaked) && x in tb && x != 0
    requires n.kind == tb[x].kind && n.parent == tb[x].parent && n.key == tb[x].key && n.children == tb[x].children
    requires n.refcount - Pins(n) == tb[x].refcount - Pins(tb[x])
    requires (n.kind != Device ==> n.refcount > 0) && ProperPins(n)
    ensures Inv(tb[x := n], Holds(paths) + leaked) && PathsOk(tb[x := n], paths) && LeaksOk(tb[x := n], leaked)
  {
    TweakInv(tb, Holds(paths) + leaked, Holds(paths) + leaked, x, n);
    PathsTweaked(tb, paths, x, n);
    LeaksTweaked(tb, leaked, x, n);
  }

  lemma RemovedOk(tb: Table, paths: seq<Path>, i: int)
    requires PathsOk(tb, paths) && 0 <= i < |paths|
    ensures PathsOk(tb, Removed(paths, i))
  {
    var left := Removed(paths, i);
    forall j | 0 <= j < |left| ensures PathOk(tb, left[j]) {
      assert left[j] == paths[if j < i then j else j + 1];
    }
  }

  /** The path's nodes and what making it added to the table. */
  ghost predicate Made(tb: Table, tb': Table, p: Path, memT: Ptr, memD: Ptr) {
    && PathOk(tb', p) && p.bus in tb && tb'.Keys == tb.Keys + {p.target, p.device}
    && (p.target !in tb ==> p.target == memT)
    && (p.device !in tb ==> p.device == memD && Last(tb'[p.device]))
  }

  ghost predicate Names(tb: Table, p: Path, pathId: int, targetId: int, lun: int) {
    && p.bus in tb && tb[p.bus].key == pathId
    && p.target in tb && tb[p.target].key == targetId
    && p.device in tb && tb[p.device].key == lun
  }

  /** The one bus looked up. */
  ghost predicate Found(tb: Table, found: multiset<Ptr>, pathId: int) {
    exists b :: found == multiset{b} && b in tb && tb[b].kind == Bus && tb[b].key == pathId
  }

  lemma AppendPath(tb: Table, tb': Table, paths: seq<Path>, leaked: multiset<Ptr>, p: Path)
    requires PathsOk(tb, paths) && LeaksOk(tb, leaked) && Keeps(tb, tb')
    requires Inv(tb', Holds(paths) + leaked + multiset{p.bus} + multiset{p.target} + multiset{p.device})
    requires PathOk(tb', p)
    ensures Inv(tb', Holds(paths + [p]) + leaked) && PathsOk(tb', paths + [p]) && LeaksOk(tb', leaked)
  {
    HoldsAppend(paths, p);
    NodesSplit(Holds(paths) + leaked, p);
    Swap(Holds(paths), leaked, Nodes(p));
    SurvivingPaths(tb, tb', Holds(paths + [p]) + leaked, paths);
    SurvivingLeaks(tb, tb', Holds(paths + [p]) + leaked, leaked);
  }

  lemma StillValid(tb: Table, tb': Table, paths: seq<Path>, leaked: multiset<Ptr>)
    requires PathsOk(tb, paths) && LeaksOk(tb, leaked) && Keeps(tb, tb') && Counted(tb', Holds(paths) + leaked)
    ensures PathsOk(tb', paths) && LeaksOk(tb', leaked)
  {
    SurvivingPaths(tb, tb', Holds(paths) + leaked, paths);
    SurvivingLeaks(tb, tb', Holds(paths) + leaked, leaked);
  }

  lemma SplitPath(tb: Table, paths: seq<Path>, leaked: multiset<Ptr>, i: int)
    requires Inv(tb, Holds(paths) + leaked) && PathsOk(tb, paths) && 0 <= i < |paths|
    ensures var p, rest := paths[i], Holds(Removed(paths, i)) + leaked;
            Inv(tb, rest + multiset{p.bus} + multiset{p.target} + multiset{p.device}) && PathOk(tb, p)
    ensures PathsOk(tb, Removed(paths, i))
  {
    var left := Removed(paths, i);
    HoldsRemove(paths, i);
    Swap(Holds(left), Nodes(paths[i]), leaked);
    NodesSplit(Holds(left) + leaked, paths[i]);
    RemovedOk(tb, paths, i);
  }

  lemma Regroup(a: multiset<Ptr>, b: multiset<Ptr>, c: multiset<Ptr>)
    ensures (a + b) + c == a + (b + c)
  {
  }

  lemma LeakMore(tb: Table, tb': Table, paths: seq<Path>, leaked: multiset<Ptr>, b: Ptr)
    requires PathsOk(tb, paths) && LeaksOk(tb, leaked) && Keeps(tb, tb')
    requires Inv(tb', Holds(paths) + leaked + multiset{b}) && b in tb' && tb'[b].kind == Bus
    ensures Inv(tb', Holds(paths) + (leaked + multiset{b}))
    ensures PathsOk(tb', paths) && LeaksOk(tb', leaked + multiset{b})
  {
    Regroup(Holds(paths), leaked, multiset{b});
    SurvivingPaths(tb, tb', Holds(paths) + leaked + multiset{b}, paths);
    SurvivingLeaks(tb, tb', Holds(paths) + leaked + multiset{b}, leaked);
  }

  lemma DropUnregistered(tb: Table, b: Ptr)
    requires b in tb && b != 0 && tb[b].refcount > 1 && Linked(tb[b := tb[b].(registered := false)])
    ensures Drop(tb[b := tb[b].(registered := false)], b) == Unlist(tb, b)
  {
  }

  lemma UnregisterValid(tb: Table, paths: seq<Path>, leaked: multiset<Ptr>, b: Ptr)
    requires Inv(tb, Holds(paths) + leaked) && PathsOk(tb, paths) && LeaksOk(tb, leaked)
    requires b in tb && b != 0 && tb[b].kind == Bus && tb[b].registered && b in Holds(paths)
    ensures tb[b].refcount > 1 && Linked(tb[b := tb[b].(registered := false)])
    ensures var tb' := Unlist(tb, b);
            && Inv(tb', Holds(paths) + leaked) && PathsOk(tb', paths) && LeaksOk(tb', leaked)
            && tb' == Drop(tb[b := tb[b].(registered := false)], b)
  {
    var h := Holds(paths) + leaked;
    assert NodeCounted(tb, h, b);
    SameLinksLinked(tb, tb[b := tb[b].(registered := false)]);
    DropUnregistered(tb, b);
    var n := tb[b].(registered := false, refcount := tb[b].refcount - 1);
    TweakInv(tb, h, h, b, n);
    PathsTweaked(tb, paths, b, n);
    LeaksTweaked(tb, leaked, b, n);
  }

  lemma LeaksTweaked(tb: Table, leaked: multiset<Ptr>, x: Ptr, n: Node)
    requires LeaksOk(tb, leaked) && x in tb && n.kind == tb[x].kind
    ensures LeaksOk(tb[x := n], leaked)
  {
    forall y | y in leaked ensures Leak(tb[x := n], y) { assert Leak(tb, y); }
  }

  /** A leaked reference keeps its bus. */
  lemma SurvivingLeaks(tb: Table, tb': Table, holds: multiset<Ptr>, leaked: multiset<Ptr>)
    requires LeaksOk(tb, leaked) && Keeps(tb, tb') && Counted(tb', holds) && leaked <= holds
    ensures LeaksOk(tb', leaked)
  {
    forall x | x in leaked ensures Leak(tb', x) {
      assert x in holds && InTable(tb', x) && Leak(tb, x) && Kept(tb, tb', x);
    }
  }

  lemma EmptyInv(tb: Table)
    requires tb.Keys == {0} && tb[0].kind == Root && tb[0].children == []
    ensures Inv(tb, multiset{})
  {
  }

  lemma AddBusValid(tb: Table, paths: seq<Path>, leaked: multiset<Ptr>, x: Ptr, n: Node, k: int)
    requires Inv(tb, Holds(paths) + leaked) && PathsOk(tb, paths) && LeaksOk(tb, leaked) && x !in tb
    requires ListOrdered(tb, 0) && Slot(tb, 0, n.key, k)
    requires n == Node(Bus, 0, n.key, 1, [], 0, true, false, map[])
    ensures var tb' := Add(tb, 0, x, n, k);
            Inv(tb', Holds(paths) + leaked) && PathsOk(tb', paths) && LeaksOk(tb', leaked) && Keeps(tb, tb')
  {
    AddInv(tb, Holds(paths) + leaked, 0, x, n, k);
    AddKeepsPaths(tb, paths, 0, x, n, k);
    forall y | y in leaked ensures Leak(Add(tb, 0, x, n, k), y) { assert Leak(tb, y); }
  }

  // ---- deregistration ----

  /**
   What releasing a path frees: at most its own nodes; none when its device is
   configured; the device when this was its last reference and it is not.
   */
  ghost predicate Shed(tb: Table, tb': Table, p: Path)
    requires PathOk(tb, p)
  {
    && tb.Keys - {p.bus, p.target, p.device} <= tb'.Keys <= tb.Keys
    && (!tb[p.device].unconfigured ==> tb'.Keys == tb.Keys)
    && (Last(tb[p.device]) ==> p.device !in tb')
  }

  lemma PathLine(tb: Table, p: Path)
    requires Linked(tb) && PathOk(tb, p)
    ensures p.bus != 0 && p.target != 0 && p.device != 0 && Line(tb, p.device) == {p.device, p.target, p.bus}
  {
    TargetLine(tb, p.target, p.bus);
    assert InParent(tb, p.device);
  }

  lemma Shedding(tb: Table, tb1: Table, tb2: Table, tb3: Table, p: Path)
    requires Linked(tb) && PathOk(tb, p) && p.device != 0 && Linked(tb1) && InTable(tb1, p.target) && Linked(tb2) && InTable(tb2, p.bus)
    requires Keeps(tb, tb1) && Keeps(tb1, tb2) && tb1.Keys <= tb.Keys && tb2.Keys <= tb1.Keys && tb3.Keys <= tb2.Keys
    requires tb.Keys - Line(tb, p.device) <= tb1.Keys && tb1.Keys - Line(tb1, p.target) <= tb2.Keys
    requires tb2.Keys - Line(tb2, p.bus) <= tb3.Keys
    requires Stays(tb[p.device]) ==> tb1 == Bump(tb, p.device, -1)
    requires Stays(tb1[p.target]) ==> tb2 == Bump(tb1, p.target, -1)
    requires Stays(tb2[p.bus]) ==> tb3 == Bump(tb2, p.bus, -1)
    requires Last(tb[p.device]) ==> p.device !in tb1
    ensures Shed(tb, tb3, p)
  {
    PathLine(tb, p);
    assert Kept(tb, tb1, p.target) && Kept(tb, tb1, p.bus) && Kept(tb1, tb2, p.bus);
    TargetLine(tb1, p.target, p.bus);
    BusParent(tb2, p.bus);
    if !tb[p.device].unconfigured {
      assert InParent(tb, p.device) && InParent(tb, p.target);
    }
  }

  lemma TargetLine(tb: Table, t: Ptr, b: Ptr)
    requires Linked(tb) && InTable(tb, t) && tb[t].kind == Target && tb[t].parent == b
    ensures b in tb && b != 0 && tb[b].kind == Bus && Line(tb, t) == {t, b}
  {
    assert InParent(tb, t);
    SameDepth(tb[b].kind, Bus);
    BusParent(tb, b);
  }

  /** Deregistering frees no node but the bus and wildcards. */
  ghost predicate Spared(tb: Table, tb': Table, b: Ptr) {
    && tb'.Keys <= tb.Keys
    && forall x {:trigger SparedNode(tb, tb', b, x)} :: x in tb ==> SparedNode(tb, tb', b, x)
  }

  ghost predicate SparedNode(tb: Table, tb': Table, b: Ptr, x: Ptr)
    requires x in tb
  {
    x == b || tb[x].key == WILDCARD || x in tb'
  }

  lemma SparedBy(tb: Table, tb1: Table, tb2: Table, p: Path)
    requires Keeps(tb, tb1) && tb.Keys <= tb1.Keys && PathOk(tb1, p)
    requires tb1[p.target].key == WILDCARD && tb1[p.device].key == WILDCARD
    requires tb.Keys - {p.bus, p.target, p.device} <= tb2.Keys <= tb.Keys
    ensures Spared(tb, tb2, p.bus)
  {
    forall x | x in tb ensures SparedNode(tb, tb2, p.bus, x) { assert Kept(tb, tb1, x); }
  }

  /** One reference is left, and the node goes with it. */
  predicate Last(n: Node) {
    n.refcount == 1 && n.kind == Device && n.unconfigured
  }

  lemma DropFrees(tb: Table, holds: multiset<Ptr>, x: Ptr)
    requires Inv(tb, holds) && InTable(tb, x) && x in holds && Last(tb[x])
    ensures x !in Drop(tb, x)
  {
    assert NodeCounted(tb, holds, x) && InParent(tb, x);
    CutInv(tb, holds, x);
    var p := tb[x].parent;
    if p != 0 {
      DropKeeps(Cut(tb, x), holds - multiset{x} + multiset{p}, p);
    }
  }

  /** A node after bus `b` was deregistered. */
  ghost function Unlisted(tb: Table, b: Ptr, x: Ptr): Node
    requires x in tb
  {
    tb[x].(registered := tb[x].registered && x != b, unconfigured := tb[x].unconfigured || x in OnBus(tb, b))
  }

  /**
   The registration of `b` is gone and the devices on it are lost; all other
   registrations, flags and callbacks are as they were.
   */
  ghost predicate Settled(tb: Table, tb': Table, b: Ptr) {
    forall x {:trigger SettledNode(tb, tb', b, x)} :: x in tb ==> SettledNode(tb, tb', b, x)
  }

  ghost predicate SettledNode(tb: Table, tb': Table, b: Ptr, x: Ptr)
    requires x in tb
  {
    && (Pins(Unlisted(tb, b, x)) > 0 ==> x in tb')
    && (x in tb' ==> SameNode(Unlisted(tb, b, x), tb'[x]))
  }

  /** Bus `b` deregistered and its devices lost. */
  ghost function Dismissed(tb: Table, b: Ptr): Table
    requires b in tb
  {
    Unlist(Lost(tb, OnBus(tb, b)), b)
  }

  /** Bus `b` without its registration and the reference for it. */
  function Unlist(tb: Table, b: Ptr): Table
    requires b in tb
  {
    tb[b := tb[b].(registered := false, refcount := tb[b].refcount - 1)]
  }

  /** Whoever deregisters a bus registered it and has not deregistered it before. */
  ghost predicate AllRegistered(tb: Table, pathId: int) {
    forall x :: x in tb && tb[x].kind == Bus && tb[x].key == pathId ==> tb[x].registered
  }

  lemma DismissedDevice(tb: Table, b: Ptr, d: Ptr)
    requires b in tb && tb[b].kind == Bus && d in tb
    ensures Dismissed(tb, b).Keys == tb.Keys && (Last(tb[d]) ==> Last(Dismissed(tb, b)[d]))
  {
  }

  lemma SettledSteps(tb: Table, tb1: Table, tb2: Table, b: Ptr)
    requires b in tb && b in tb1 && tb[b].kind == Bus && Linked(tb)
    requires Keeps(tb, tb1) && tb.Keys <= tb1.Keys && Keeps(Dismissed(tb1, b), tb2) && tb2.Keys <= tb1.Keys
    ensures Settled(tb, tb2, b)
  {
    forall x | x in tb ensures SettledNode(tb, tb2, b, x) {
      SettledOnce(tb, tb1, b, x);
      assert Kept(Dismissed(tb1, b), tb2, x);
    }
  }

  lemma SettledOnce(tb: Table, tb1: Table, b: Ptr, x: Ptr)
    requires b in tb && tb[b].kind == Bus && Linked(tb) && Keeps(tb, tb1) && tb.Keys <= tb1.Keys && x in tb
    ensures SameNode(Unlisted(tb, b, x), Dismissed(tb1, b)[x])
  {
    assert Kept(tb, tb1, x) && Kept(tb, tb1, b);
    if x != 0 {
      BelowSomething(tb, x);
      assert Kept(tb, tb1, tb[x].parent);
    }
    assert x in OnBus(tb1, b) <==> x in OnBus(tb, b);
  }

  /** The effect of a deregistration whose path was made in `tb1` and is gone in `tb2`. */
  lemma Withdrawn(tb: Table, tb1: Table, tb2: Table, paths: seq<Path>, leaked: multiset<Ptr>, p: Path)
    requires Inv(tb, Holds(paths) + leaked) && Inv(tb2, Holds(paths) + leaked) && PathsOk(tb2, paths) && PathOk(tb1, p)
    requires p.bus in tb && tb[p.bus].kind == Bus && Keeps(tb, tb1) && tb1.Keys == tb.Keys + {p.target, p.device}
    requires Keeps(Dismissed(tb1, p.bus), tb2) && tb2.Keys <= tb1.Keys
    requires p.device in tb || p.device !in tb2
    ensures Settled(tb, tb2, p.bus) && tb2.Keys <= tb.Keys
    ensures p.bus in tb2 <==> Wanted(tb2, paths, leaked, p.bus)
  {
    SettledSteps(tb, tb1, tb2, p.bus);
    SettledParents(tb, tb2, p.bus);
    assert Kept(Dismissed(tb1, p.bus), tb2, p.target);
    NoTrace(tb, tb2, Holds(paths) + leaked, p.target);
    assert SettledNode(tb, tb2, p.bus, p.bus);
    BusStays(tb2, paths, leaked, p.bus);
  }

  lemma RemovedLast(paths: seq<Path>, p: Path)
    ensures Removed(paths + [p], |paths|) == paths
  {
  }

  ghost predicate SameParents(tb: Table, tb': Table) {
    forall c {:trigger tb[c].parent} :: c in tb && c in tb' ==> tb'[c].parent == tb[c].parent
  }

  lemma KeptParents(tb: Table, tb': Table)
    requires Keeps(tb, tb')
    ensures SameParents(tb, tb')
  {
    forall c | c in tb && c in tb' ensures tb'[c].parent == tb[c].parent { assert Kept(tb, tb', c); }
  }

  lemma SettledParents(tb: Table, tb': Table, b: Ptr)
    requires Settled(tb, tb', b)
    ensures SameParents(tb, tb')
  {
    forall c | c in tb && c in tb' ensures tb'[c].parent == tb[c].parent { assert SettledNode(tb, tb', b, c); }
  }

  lemma KeptTarget(tb: Table, tb': Table, t: Ptr)
    requires Keeps(tb, tb') && t in tb && tb[t].kind == Target
    ensures t in tb' ==> tb'[t].kind == Target
  {
    assert Kept(tb, tb', t);
  }

  lemma BelowSomething(tb: Table, c: Ptr)
    requires Linked(tb) && c in tb && c != 0
    ensures tb[c].parent in tb
  {
    assert InParent(tb, c);
  }

  /** A target that was not there before is not there after its device and its holders are gone. */
  lemma NoTrace(tb: Table, tb': Table, holds: multiset<Ptr>, t: Ptr)
    requires Inv(tb, holds) && Inv(tb', holds) && tb'.Keys <= tb.Keys + {t}
    requires SameParents(tb, tb')
    requires t in tb' ==> tb'[t].kind == Target
    ensures tb'.Keys <= tb.Keys
  {
    if t in tb' && t !in tb {
      assert NodeCounted(tb', holds, t) && ListOrdered(tb', t) && InParent(tb', t);
      assert !InTable(tb, t);
      var c := tb'[t].children[0];
      assert InParent(tb', c) && c in tb;
      assert tb[c].parent == t;
      BelowSomething(tb, c);
      assert false;
    }
  }

  lemma AbsentNot(tb: Table, b: Ptr, pathId: int)
    requires Linked(tb) && b in tb && b != 0 && tb[b].parent == 0 && tb[b].key == pathId
    ensures !Absent(tb, 0, pathId)
  {
    assert InParent(tb, b) && ListOrdered(tb, 0);
    var i :| 0 <= i < |tb[0].children| && tb[0].children[i] == b;
  }

  lemma SameDepth(k: Kind, k': Kind)
    requires Depth(k) == Depth(k')
    ensures k == k'
  {
  }

  function NewNode(kind: Kind, p: Ptr, key: int): Node {
    Node(kind, p, key, 1, [], 0, false, kind == Device, map[])
  }

  // ---- a bus that stays for no reason ----

  /** A registered bus 1 and nothing else. */
  method OneBus() returns (x: Transport)
    ensures fresh(x) && x.Valid() && x.paths == [] && x.leaked == multiset{}
    ensures x.node.Keys == {0, 1} && x.node[1].kind == Bus && x.node[1].key == 7 && x.node[1].registered
  {
    x := new Transport();
    var status := x.Register(7, 1, 2, 3);
  }

  /** A path of bus 1 is made unlocked. */
  method BusWithPath() returns (x: Transport, path: Path)
    ensures fresh(x) && x.Valid() && x.paths == [path] && path == Path(1, 4, 5) && x.leaked == multiset{1}
    ensures x.node.Keys == {0, 1, 4, 5} && x.node[1].key == 7 && x.node[1].registered && Last(x.node[5])
  {
    x := OneBus();
    ghost var tb := x.node;
    BusParent(tb, 1);
    AbsentNot(tb, 1, 7);
    var status;
    ghost var found;
    status, path, found := x.CreatePathUnlocked(7, 0, 0, 4, 5);
    FirstPath(tb, x.node, path, found);
  }

  /** The path is freed again: no device is left, but the leaked reference is. */
  method UsedBus() returns (x: Transport)
    ensures fresh(x) && x.Valid() && x.paths == [] && x.leaked == multiset{1}
    ensures 1 in x.node && x.node.Keys <= {0, 1, 4} && x.node[1].kind == Bus && x.node[1].key == 7 && x.node[1].registered
    ensures 4 in x.node ==> x.node[4].kind == Target
  {
    var path;
    x, path := BusWithPath();
    ghost var tb := x.node;
    assert PathOk(tb, path);
    RemovedLast([], path);
    assert [] + [path] == x.paths;
    x.ReleasePath(path, 0);
    assert Kept(tb, x.node, 1) && Kept(tb, x.node, 4);
  }

  lemma FirstPath(tb: Table, tb1: Table, p: Path, found: multiset<Ptr>)
    requires Linked(tb) && Linked(tb1) && tb.Keys == {0, 1} && Keeps(tb, tb1)
    requires tb[1].kind == Bus && tb[1].key == 7 && tb[1].registered
    requires Made(tb, tb1, p, 4, 5) && Found(tb1, found, 7)
    ensures p == Path(1, 4, 5) && Last(tb1[5]) && found == multiset{1}
    ensures tb1[1].key == 7 && tb1[1].registered
  {
    assert Kept(tb, tb1, 1) && Kept(tb, tb1, 0);
  }

  /** The run ends with an unregistered bus that has no path, no target and no reason, and is never freed. */
  method StrandedBus() returns (x: Transport)
    ensures x.Valid() && x.paths == [] && x.node.Keys == {0, 1}
    ensures x.node[1].kind == Bus && x.node[1].refcount == 1 && !x.node[1].registered && x.node[1].children == []
    ensures !HasReason(x.node, x.paths, 1)
  {
    x := UsedBus();
    ghost var tb := x.node;
    BusParent(tb, 1);
    AbsentNot(tb, 1, 7);
    var status, b := x.Deregister(7, 6, 8);
    assert SettledNode(tb, x.node, 1, 1) && (4 in tb ==> SettledNode(tb, x.node, 1, 4));
    OnlyBus(x.node);
    Stranded(x.node, x.paths, x.leaked, 1);
  }

  lemma OnlyBus(tb: Table)
    requires Inv(tb, Holds([]) + multiset{1}) && 1 in tb && tb.Keys <= {0, 1, 4}
    requires tb[1].kind == Bus && !tb[1].registered && (4 in tb ==> tb[4].kind == Target)
    ensures tb.Keys == {0, 1} && tb[1].refcount == 1 && tb[1].children == []
  {
    var h := Holds([]) + multiset{1};
    if 4 in tb {
      var d := OnlyChild(tb, h, 4);
      assert false;
    }
    assert NodeCounted(tb, h, 1);
    if tb[1].children != [] {
      var d := FirstChild(tb, 1);
      assert false;
    }
  }

  /** A target that nobody holds has a device. */
  lemma OnlyChild(tb: Table, h: multiset<Ptr>, t: Ptr) returns (d: Ptr)
    requires Inv(tb, h) && t in tb && t != 0 && tb[t].kind == Target && h[t] == 0
    ensures d in tb && d != 0 && Depth(tb[d].kind) == 3
  {
    assert NodeCounted(tb, h, t);
    d := FirstChild(tb, t);
  }

  // ---- a device that is forgotten ----

  /** A path of bus 1 is made. */
  method BusWithDevice() returns (x: Transport, path: Path)
    ensures fresh(x) && x.Valid() && x.paths == [path] && path == Path(1, 4, 5) && x.leaked == multiset{}
    ensures x.node.Keys == {0, 1, 4, 5} && x.node[1].key == 7 && x.node[1].registered
    ensures x.node[4].key == 0 && x.node[5].key == 0 && x.node[5].asyncs == map[]
  {
    x := OneBus();
    ghost var tb := x.node;
    BusParent(tb, 1);
    AbsentNot(tb, 1, 7);
    var status;
    status, path := x.CompilePath(7, 0, 0, 4, 5);
    SecondPath(tb, x.node, path);
    NoPins(x.node, x.paths, x.leaked, 5);
  }

  lemma SecondPath(tb: Table, tb1: Table, p: Path)
    requires Linked(tb) && Linked(tb1) && tb.Keys == {0, 1} && Keeps(tb, tb1)
    requires tb[1].kind == Bus && tb[1].key == 7 && tb[1].registered && Made(tb, tb1, p, 4, 5)
    ensures p == Path(1, 4, 5) && Last(tb1[5]) && tb1[1].key == 7 && tb1[1].registered
  {
    assert Kept(tb, tb1, 1) && Kept(tb, tb1, 0);
  }

  /** The single reference of a new device is its path's. */
  lemma NoPins(tb: Table, paths: seq<Path>, leaked: multiset<Ptr>, d: Ptr)
    requires Inv(tb, Holds(paths) + leaked) && PathsOk(tb, paths) && |paths| == 1 && paths[0].device == d && Last(tb[d])
    ensures tb[d].asyncs == map[]
  {
    assert PathOk(tb, paths[0]);
    OnPath(paths, 0, d);
    PathLine(tb, paths[0]);
    CountsExplained(tb, paths, leaked, d);
  }

  /** Its device is configured and the path freed: the device stays, with no reference. */
  method BusWithConfigured() returns (x: Transport)
    ensures fresh(x) && x.Valid() && x.paths == [] && x.leaked == multiset{} && x.node.Keys == {0, 1, 4, 5}
    ensures x.node[1].kind == Bus && x.node[1].key == 7 && x.node[1].registered
    ensures x.node[4].kind == Target && x.node[4].key == 0 && x.node[4].parent == 1
    ensures x.node[5].kind == Device && x.node[5].key == 0 && x.node[5].parent == 4 && x.node[5].asyncs == map[]
  {
    var path;
    x, path := BusWithDevice();
    assert PathOk(x.node, path);
    x.SetConfigured(5, true);
    ghost var tb := x.node;
    RemovedLast([], path);
    assert [] + [path] == x.paths;
    x.ReleasePath(path, 0);
    assert Kept(tb, x.node, 1) && Kept(tb, x.node, 4) && Kept(tb, x.node, 5);
  }

  /**
   The bus is deregistered: the device is lost, and device, target and bus stay
   for no reason although no reference was leaked.
   */
  method ForgottenDevice() returns (x: Transport)
    ensures x.Valid() && x.paths == [] && x.leaked == multiset{} && {4, 5} <= x.node.Keys
    ensures Forgotten(x.node[5]) && 1 in x.node && x.node[1].kind == Bus && !x.node[1].registered
    ensures !HasReason(x.node, x.paths, 1)
  {
    x := BusWithConfigured();
    ghost var tb := x.node;
    BusParent(tb, 1);
    AbsentNot(tb, 1, 7);
    var status, b := x.Deregister(7, 6, 8);
    ghost var tb' := x.node;
    assert SparedNode(tb, tb', 1, 4) && SparedNode(tb, tb', 1, 5) && b == 1;
    assert SettledNode(tb, tb', 1, 1) && SettledNode(tb, tb', 1, 4) && SettledNode(tb, tb', 1, 5);
    assert 5 in OnBus(tb, 1);
    OnlyForgotten(tb');
    Stranded(tb', [], multiset{}, 1);
  }

  lemma OnlyForgotten(tb: Table)
    requires Inv(tb, Holds([]) + multiset{}) && tb.Keys <= {0, 1, 4, 5} && 4 in tb && 5 in tb
    requires tb[4].kind == Target && tb[4].parent == 1
    requires tb[5].kind == Device && tb[5].unconfigured && tb[5].asyncs == map[]
    requires 1 in tb ==> tb[1].kind == Bus
    ensures 1 in tb && Forgotten(tb[5]) && AllForgotten(tb, 1)
  {
    BelowSomething(tb, 4);
    LeafDevice(tb, 5);
    assert NodeCounted(tb, Holds([]) + multiset{}, 5);
  }
}
