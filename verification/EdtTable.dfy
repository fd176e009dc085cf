/**
 Reference counts of the EDT.  Busses, targets and devices are nodes of one
 kind of record, kept in a map from address to node; address 0 is the list of
 busses itself.  A freed node is no longer a key of the map, so every access
 below is proved to touch a node that has not been freed.
 */
module EdtTable {

  type Ptr = nat

  datatype Kind = Root | Bus | Target | Device

  /**
   `key` is the path id, target id or lun.  Only a bus is ever `registered`, and
   only a device has callbacks or is ever configured.
   */
  datatype Node = Node(kind: Kind, parent: Ptr, key: int, refcount: int, children: seq<Ptr>, gen: int,
                       registered: bool, unconfigured: bool, asyncs: map<int, int>)

  type Table = map<Ptr, Node>

  function Depth(k: Kind): nat {
    match k case Root => 0 case Bus => 1 case Target => 2 case Device => 3
  }

  /** References that are held neither by paths nor by list membership. */
  function Pins(n: Node): nat {
    |n.asyncs| + (if n.registered then 1 else 0)
  }

  /** Callbacks belong to devices and registrations to busses. */
  predicate ProperPins(n: Node) {
    (n.asyncs != map[] ==> n.kind == Device) && (n.registered ==> n.kind == Bus)
  }

  // ---- the invariant ----

  ghost predicate ListOrdered(tb: Table, x: Ptr)
    requires x in tb
  {
    var l := tb[x].children;
    && (forall i :: 0 <= i < |l| ==> l[i] != 0 && l[i] in tb && tb[l[i]].parent == x)
    && (forall i, j :: 0 <= i < j < |l| ==> l[i] != l[j])
    && (forall i, j :: 0 <= i < j < |l| ==>
          tb[l[i]].key <= tb[l[j]].key && (tb[x].kind != Root ==> tb[l[i]].key < tb[l[j]].key))
  }

  ghost predicate InParent(tb: Table, x: Ptr)
    requires x in tb
  {
    && tb[x].kind != Root && tb[x].parent in tb && x in tb[tb[x].parent].children
    && Depth(tb[x].kind) == Depth(tb[tb[x].parent].kind) + 1
  }

  /**
   Every list holds allocated nodes that point back at its owner, sorted by
   key, strictly below the bus level; every node is on its parent's list.
   */
  ghost predicate Linked(tb: Table) {
    && 0 in tb && tb[0].kind == Root
    && (forall x {:trigger ListOrdered(tb, x)} :: x in tb ==> ListOrdered(tb, x))
    && (forall x {:trigger InParent(tb, x)} :: x in tb && x != 0 ==> InParent(tb, x))
  }

  ghost predicate NodeCounted(tb: Table, holds: multiset<Ptr>, x: Ptr)
    requires x in tb
  {
    && tb[x].refcount == holds[x] + |tb[x].children| + Pins(tb[x])
    && (tb[x].kind != Device ==> tb[x].refcount > 0)
    && ProperPins(tb[x])
  }

  /**
   Every count is the number of references that exist: `holds` says how often
   each node is held other than by its children, callbacks and registration.  A
   bus or target without references is gone.
   */
  ghost predicate Counted(tb: Table, holds: multiset<Ptr>) {
    && (forall x {:trigger NodeCounted(tb, holds, x)} :: x in tb && x != 0 ==> NodeCounted(tb, holds, x))
    && (forall x {:trigger InTable(tb, x)} :: x in holds ==> InTable(tb, x))
  }

  ghost predicate InTable(tb: Table, x: Ptr) {
    x in tb && x != 0
  }

  ghost predicate Inv(tb: Table, holds: multiset<Ptr>) {
    Linked(tb) && Counted(tb, holds)
  }

  // ---- lists ----

  function InsertAt(l: seq<Ptr>, k: int, x: Ptr): (l': seq<Ptr>)
    requires 0 <= k <= |l|
    ensures |l'| == |l| + 1 && l'[k] == x
    ensures forall i :: 0 <= i < k ==> l'[i] == l[i]
    ensures forall i :: k < i <= |l| ==> l'[i] == l[i - 1]
    ensures forall y :: y in l' <==> y in l || y == x
  {
    l[..k] + [x] + l[k..]
  }

  function IndexIn(l: seq<Ptr>, x: Ptr): (k: int)
    requires x in l
    ensures 0 <= k < |l| && l[k] == x
  {
    if l[0] == x then 0 else 1 + IndexIn(l[1..], x)
  }

  function Without(l: seq<Ptr>, x: Ptr): (l': seq<Ptr>)
    requires x in l
    ensures |l'| == |l| - 1
    ensures forall i :: 0 <= i < IndexIn(l, x) ==> l'[i] == l[i]
    ensures forall i :: IndexIn(l, x) <= i < |l| - 1 ==> l'[i] == l[i + 1]
  {
    l[..IndexIn(l, x)] + l[IndexIn(l, x) + 1..]
  }

  lemma WithoutMembers(l: seq<Ptr>, x: Ptr)
    requires x in l && forall i, j :: 0 <= i < j < |l| ==> l[i] != l[j]
    ensures forall y :: y in Without(l, x) <==> y in l && y != x
  {
    var k, l' := IndexIn(l, x), Without(l, x);
    forall y | y in l && y != x ensures y in l' {
      var i :| 0 <= i < |l| && l[i] == y;
      assert l'[if i < k then i else i - 1] == y;
    }
    forall y | y in l' ensures y in l && y != x {
      var i :| 0 <= i < |l'| && l'[i] == y;
      assert y == l[if i < k then i else i + 1];
    }
  }

  // ---- counts ----

  function Bump(tb: Table, x: Ptr, k: int): Table
    requires x in tb
  {
    tb[x := tb[x].(refcount := tb[x].refcount + k)]
  }

  /** The tables differ in counts, generations, flags and callbacks only. */
  ghost predicate SameLinks(tb: Table, tb': Table) {
    && tb'.Keys == tb.Keys
    && forall x :: x in tb ==>
         && tb'[x].kind == tb[x].kind && tb'[x].parent == tb[x].parent && tb'[x].key == tb[x].key
         && tb'[x].children == tb[x].children
  }

  lemma SameLinksLinked(tb: Table, tb': Table)
    requires Linked(tb) && SameLinks(tb, tb')
    ensures Linked(tb')
  {
    forall x | x in tb' ensures ListOrdered(tb', x) { assert ListOrdered(tb, x); }
    forall x | x in tb' && x != 0 ensures InParent(tb', x) { assert InParent(tb, x); }
  }

  lemma BumpLinked(tb: Table, x: Ptr, k: int)
    requires Linked(tb) && x in tb
    ensures Linked(Bump(tb, x, k))
  {
    BumpSame(tb, x, k);
    SameLinksLinked(tb, Bump(tb, x, k));
  }

  lemma BumpSame(tb: Table, x: Ptr, k: int)
    requires x in tb
    ensures SameLinks(tb, Bump(tb, x, k))
  {
  }

  /** Counts follow the holds of node `x`. */
  lemma BumpCounted(tb: Table, holds: multiset<Ptr>, holds': multiset<Ptr>, x: Ptr, k: int)
    requires Counted(tb, holds) && x in tb && x != 0 && holds'[x] == holds[x] + k
    requires forall y :: y != x ==> holds'[y] == holds[y]
    requires tb[x].refcount + k > 0 || tb[x].kind == Device
    ensures Counted(Bump(tb, x, k), holds')
  {
    var tb' := Bump(tb, x, k);
    forall y | y in tb' && y != 0 ensures NodeCounted(tb', holds', y) { assert NodeCounted(tb, holds, y); }
    forall y | y in holds' ensures InTable(tb', y) { assert y == x || (y in holds && InTable(tb, y)); }
  }

  lemma HoldInv(tb: Table, holds: multiset<Ptr>, x: Ptr)
    requires Inv(tb, holds) && x in tb && x != 0
    ensures Inv(Bump(tb, x, 1), holds + multiset{x})
  {
    assert NodeCounted(tb, holds, x);
    BumpLinked(tb, x, 1);
    BumpCounted(tb, holds, holds + multiset{x}, x, 1);
  }

  lemma UnholdInv(tb: Table, holds: multiset<Ptr>, x: Ptr)
    requires Inv(tb, holds) && InTable(tb, x) && x in holds && (tb[x].refcount > 1 || tb[x].kind == Device)
    ensures Inv(Bump(tb, x, -1), holds - multiset{x})
  {
    BumpLinked(tb, x, -1);
    BumpCounted(tb, holds, holds - multiset{x}, x, -1);
  }

  /** A node may change its flags and callbacks as long as its count follows. */
  lemma TweakInv(tb: Table, holds: multiset<Ptr>, holds': multiset<Ptr>, x: Ptr, n: Node)
    requires Inv(tb, holds) && x in tb && x != 0
    requires n.kind == tb[x].kind && n.parent == tb[x].parent && n.key == tb[x].key && n.children == tb[x].children
    requires n.refcount - Pins(n) - holds'[x] == tb[x].refcount - Pins(tb[x]) - holds[x]
    requires forall y :: y != x ==> holds'[y] == holds[y]
    requires (n.kind != Device ==> n.refcount > 0) && ProperPins(n)
    ensures Inv(tb[x := n], holds')
  {
    var tb' := tb[x := n];
    SameLinksLinked(tb, tb');
    forall y | y in tb' && y != 0 ensures NodeCounted(tb', holds', y) { assert NodeCounted(tb, holds, y); }
    forall y | y in holds' ensures InTable(tb', y) { assert y == x || (y in holds && InTable(tb, y)); }
  }

  // ---- new nodes ----

  /** Position `k` keeps the list of `p` sorted when `key` is put there. */
  ghost predicate Slot(tb: Table, p: Ptr, key: int, k: int)
    requires p in tb && ListOrdered(tb, p)
  {
    var l := tb[p].children;
    && 0 <= k <= |l|
    && (forall i :: 0 <= i < k ==> tb[l[i]].key < key)
    && (forall i :: k <= i < |l| ==> key <= tb[l[i]].key && (tb[p].kind != Root ==> key < tb[l[i]].key))
  }

  ghost predicate Absent(tb: Table, p: Ptr, key: int)
    requires p in tb
  {
    forall i :: 0 <= i < |tb[p].children| && tb[p].children[i] in tb ==> tb[tb[p].children[i]].key != key
  }

  /** A fresh node with one reference; unless the parent is the list of busses it holds the parent. */
  function Add(tb: Table, p: Ptr, x: Ptr, n: Node, k: int): Table
    requires p in tb && 0 <= k <= |tb[p].children|
  {
    var r := tb[p];
    tb[p := r.(refcount := if p == 0 then r.refcount else r.refcount + 1,
               children := InsertAt(r.children, k, x), gen := r.gen + 1)][x := n]
  }

  lemma AddList(tb: Table, p: Ptr, x: Ptr, n: Node, k: int)
    requires p in tb && x !in tb && x != 0 && ListOrdered(tb, p) && Slot(tb, p, n.key, k) && n.parent == p
    ensures ListOrdered(Add(tb, p, x, n, k), p)
  {
    var tb' := Add(tb, p, x, n, k);
    var l, l' := tb[p].children, tb'[p].children;
    forall i, j | 0 <= i < j < |l'|
      ensures l'[i] != l'[j] && tb'[l'[i]].key <= tb'[l'[j]].key
              && (tb[p].kind != Root ==> tb'[l'[i]].key < tb'[l'[j]].key)
    {
      if j < k {
        assert l'[i] == l[i] && l'[j] == l[j];
      } else if i > k {
        assert l'[i] == l[i - 1] && l'[j] == l[j - 1];
      } else if i < k < j {
        assert l'[i] == l[i] && l'[j] == l[j - 1];
      }
    }
  }

  lemma AddOther(tb: Table, p: Ptr, x: Ptr, n: Node, k: int, y: Ptr)
    requires p in tb && x !in tb && x != 0 && ListOrdered(tb, p) && Slot(tb, p, n.key, k)
    requires n.parent == p && n.children == []
    requires y in tb && ListOrdered(tb, y)
    ensures ListOrdered(Add(tb, p, x, n, k), y)
  {
    if y == p {
      AddList(tb, p, x, n, k);
    }
  }

  lemma AddParent(tb: Table, p: Ptr, x: Ptr, n: Node, k: int, y: Ptr)
    requires p in tb && x !in tb && 0 <= k <= |tb[p].children|
    requires n.parent == p && Depth(n.kind) == Depth(tb[p].kind) + 1
    requires y == x || (y in tb && InParent(tb, y))
    ensures InParent(Add(tb, p, x, n, k), y)
  {
  }

  lemma AddLinked(tb: Table, p: Ptr, x: Ptr, n: Node, k: int)
    requires Linked(tb) && p in tb && x !in tb && ListOrdered(tb, p) && Slot(tb, p, n.key, k)
    requires n.parent == p && n.children == [] && Depth(n.kind) == Depth(tb[p].kind) + 1
    ensures Linked(Add(tb, p, x, n, k))
  {
    var tb' := Add(tb, p, x, n, k);
    forall y | y in tb' ensures ListOrdered(tb', y) {
      if y != x {
        AddOther(tb, p, x, n, k, y);
      }
    }
    forall y | y in tb' && y != 0 ensures InParent(tb', y) { AddParent(tb, p, x, n, k, y); }
  }

  lemma AddCounted(tb: Table, holds: multiset<Ptr>, p: Ptr, x: Ptr, n: Node, k: int)
    requires Counted(tb, holds) && 0 in tb && p in tb && x !in tb && 0 <= k <= |tb[p].children|
    requires n.children == [] && n.refcount == 1 && n.asyncs == map[] && ProperPins(n)
    ensures Counted(Add(tb, p, x, n, k), if n.registered then holds else holds + multiset{x})
  {
    var tb', holds' := Add(tb, p, x, n, k), if n.registered then holds else holds + multiset{x};
    forall y | y in tb' && y != 0 ensures NodeCounted(tb', holds', y) {
      assert y != x ==> NodeCounted(tb, holds, y);
      assert InTable(tb, x) || x !in holds;
    }
    forall y | y in holds' ensures InTable(tb', y) { assert y == x || (y in holds && InTable(tb, y)); }
  }

  lemma AddInv(tb: Table, holds: multiset<Ptr>, p: Ptr, x: Ptr, n: Node, k: int)
    requires Inv(tb, holds) && p in tb && x !in tb && ListOrdered(tb, p) && Slot(tb, p, n.key, k)
    requires n.parent == p && n.children == [] && Depth(n.kind) == Depth(tb[p].kind) + 1
    requires n.refcount == 1 && n.asyncs == map[] && ProperPins(n)
    ensures Inv(Add(tb, p, x, n, k), if n.registered then holds else holds + multiset{x})
  {
    AddLinked(tb, p, x, n, k);
    AddCounted(tb, holds, p, x, n, k);
  }

  // ---- freed nodes ----

  /** Take node `x`, whose own list is empty, off its parent's list and free it. */
  function Cut(tb: Table, x: Ptr): Table
    requires x in tb && tb[x].parent in tb && x in tb[tb[x].parent].children
  {
    var p := tb[x].parent;
    tb[p := tb[p].(children := Without(tb[p].children, x), gen := tb[p].gen + 1)] - {x}
  }

  lemma CutList(tb: Table, x: Ptr)
    requires x in tb && tb[x].parent in tb && x in tb[tb[x].parent].children && tb[x].parent != x
    requires ListOrdered(tb, tb[x].parent)
    ensures ListOrdered(Cut(tb, x), tb[x].parent)
  {
    var p := tb[x].parent;
    var tb', k := Cut(tb, x), IndexIn(tb[p].children, x);
    var l, l' := tb[p].children, tb'[p].children;
    WithoutMembers(l, x);
    forall i, j | 0 <= i < j < |l'|
      ensures l'[i] != l'[j] && tb'[l'[i]].key <= tb'[l'[j]].key
              && (tb[p].kind != Root ==> tb'[l'[i]].key < tb'[l'[j]].key)
    {
      var i', j' := if i < k then i else i + 1, if j < k then j else j + 1;
      assert l'[i] == l[i'] && l'[j] == l[j'];
    }
  }

  lemma CutOther(tb: Table, x: Ptr, y: Ptr)
    requires x in tb && InParent(tb, x) && tb[x].children == [] && tb[x].parent != x
    requires ListOrdered(tb, tb[x].parent) && y in tb && y != x && ListOrdered(tb, y)
    ensures ListOrdered(Cut(tb, x), y)
  {
    if y == tb[x].parent {
      CutList(tb, x);
    }
  }

  lemma CutParent(tb: Table, x: Ptr, y: Ptr)
    requires x in tb && InParent(tb, x) && tb[x].children == [] && tb[x].parent != x
    requires ListOrdered(tb, tb[x].parent) && y in tb && y != x && InParent(tb, y)
    ensures InParent(Cut(tb, x), y)
  {
    WithoutMembers(tb[tb[x].parent].children, x);
  }

  lemma CutLinked(tb: Table, x: Ptr)
    requires Linked(tb) && x in tb && x != 0 && InParent(tb, x) && tb[x].children == []
    ensures Linked(Cut(tb, x))
  {
    var tb' := Cut(tb, x);
    assert ListOrdered(tb, tb[x].parent);
    forall y | y in tb' ensures ListOrdered(tb', y) { CutOther(tb, x, y); }
    forall y | y in tb' && y != 0 ensures InParent(tb', y) { CutParent(tb, x, y); }
  }

  lemma CutCounted(tb: Table, holds: multiset<Ptr>, holds': multiset<Ptr>, x: Ptr)
    requires Counted(tb, holds) && x in tb && x != 0 && InParent(tb, x) && holds[x] == 1
    requires var p := tb[x].parent;
             p != x && holds' == holds - multiset{x} + if p == 0 then multiset{} else multiset{p}
    ensures Counted(Cut(tb, x), holds')
  {
    var tb' := Cut(tb, x);
    forall y | y in tb' && y != 0 ensures NodeCounted(tb', holds', y) { assert NodeCounted(tb, holds, y); }
    assert holds'[x] == 0;
    forall y | y in holds' ensures InTable(tb', y) {
      assert InTable(tb, y) || y !in holds;
    }
  }

  /** The last reference to `x` goes; the reference its list membership held is passed on to a holder of the parent. */
  lemma CutInv(tb: Table, holds: multiset<Ptr>, x: Ptr)
    requires Inv(tb, holds) && InTable(tb, x) && x in holds && InParent(tb, x) && tb[x].refcount == 1
    ensures tb[x].children == []
    ensures var p := tb[x].parent;
            Inv(Cut(tb, x), holds - multiset{x} + if p == 0 then multiset{} else multiset{p})
  {
    assert NodeCounted(tb, holds, x);
    CutLinked(tb, x);
    var p := tb[x].parent;
    CutCounted(tb, holds, holds - multiset{x} + if p == 0 then multiset{} else multiset{p}, x);
  }

  /**
   Give a reference to `x` back: xpt_release_device, xpt_release_target and
   xpt_release_bus.  The last one frees the node, a device only when it is
   unconfigured, and then gives back the reference to its parent.
   */
  function Drop(tb: Table, x: Ptr): Table
    requires Linked(tb) && x in tb && x != 0
    decreases if x in tb then Depth(tb[x].kind) else 0
  {
    if tb[x].refcount - 1 == 0 && tb[x].children == [] && (tb[x].kind == Device ==> tb[x].unconfigured) then
      assert InParent(tb, x);
      CutLinked(tb, x);
      var p := tb[x].parent;
      if p == 0 then Cut(tb, x) else Drop(Cut(tb, x), p)
    else Bump(tb, x, -1)
  }

  lemma {:induction false} DropInv(tb: Table, holds: multiset<Ptr>, x: Ptr)
    requires Inv(tb, holds) && InTable(tb, x) && x in holds
    ensures Inv(Drop(tb, x), holds - multiset{x})
    decreases if x in tb then Depth(tb[x].kind) else 0
  {
    assert NodeCounted(tb, holds, x) && InParent(tb, x);
    if tb[x].refcount == 1 && (tb[x].kind == Device ==> tb[x].unconfigured) {
      CutInv(tb, holds, x);
      var p := tb[x].parent;
      var rest := holds - multiset{x};
      if p == 0 {
        assert rest + multiset{} == rest;
      } else {
        assert rest + multiset{p} - multiset{p} == rest;
        assert InTable(Cut(tb, x), p);
        DropInv(Cut(tb, x), rest + multiset{p}, p);
      }
    } else {
      UnholdInv(tb, holds, x);
    }
  }

  /** The part of a node that paths do not change. */
  ghost predicate SameNode(m: Node, n: Node) {
    n == m.(refcount := n.refcount, children := n.children, gen := n.gen)
  }

  /** Registered busses and devices with callbacks survive, and survivors keep their place, flags and callbacks. */
  ghost predicate Keeps(tb: Table, tb': Table) {
    forall x {:trigger Kept(tb, tb', x)} :: x in tb ==> Kept(tb, tb', x)
  }

  ghost predicate Kept(tb: Table, tb': Table, x: Ptr)
    requires x in tb
  {
    (Pins(tb[x]) > 0 ==> x in tb') && (x in tb' ==> SameNode(tb[x], tb'[x]))
  }

  lemma CutKeeps(tb: Table, x: Ptr)
    requires x in tb && InParent(tb, x) && Pins(tb[x]) == 0
    ensures Keeps(tb, Cut(tb, x)) && Cut(tb, x).Keys <= tb.Keys
  {
  }

  lemma KeepsTwice(tb: Table, tb': Table, tb'': Table)
    requires Keeps(tb, tb') && Keeps(tb', tb'') && (tb''.Keys <= tb'.Keys || tb.Keys <= tb'.Keys)
    ensures Keeps(tb, tb'')
  {
    forall x | x in tb ensures Kept(tb, tb'', x) {
      assert Kept(tb, tb', x) && (x in tb' ==> Kept(tb', tb'', x));
    }
  }

  lemma {:induction false} DropKeeps(tb: Table, holds: multiset<Ptr>, x: Ptr)
    requires Inv(tb, holds) && InTable(tb, x) && x in holds
    ensures Keeps(tb, Drop(tb, x)) && Drop(tb, x).Keys <= tb.Keys
    decreases if x in tb then Depth(tb[x].kind) else 0
  {
    assert NodeCounted(tb, holds, x) && InParent(tb, x);
    if tb[x].refcount == 1 && (tb[x].kind == Device ==> tb[x].unconfigured) {
      var p := tb[x].parent;
      CutInv(tb, holds, x);
      CutKeeps(tb, x);
      if p != 0 {
        DropKeeps(Cut(tb, x), holds - multiset{x} + multiset{p}, p);
        KeepsTwice(tb, Cut(tb, x), Drop(tb, x));
      }
    }
  }

  /** A node and those above it. */
  function Line(tb: Table, x: Ptr): set<Ptr>
    requires Linked(tb) && x in tb && x != 0
    decreases Depth(tb[x].kind)
  {
    assert InParent(tb, x);
    if tb[x].parent == 0 then {x} else {x} + Line(tb, tb[x].parent)
  }

  lemma {:induction false} CutLine(tb: Table, x: Ptr, y: Ptr)
    requires Linked(tb) && x in tb && x != 0 && InParent(tb, x) && tb[x].children == [] && Linked(Cut(tb, x))
    requires y in tb && y != 0 && y != x && y in Cut(tb, x)
    ensures Line(Cut(tb, x), y) == Line(tb, y)
    decreases Depth(tb[y].kind)
  {
    assert InParent(tb, y) && InParent(Cut(tb, x), y);
    if tb[y].parent != 0 {
      CutLine(tb, x, tb[y].parent);
    }
  }

  /** Giving a reference back frees at most the node and those above it. */
  lemma {:induction false} DropLine(tb: Table, x: Ptr)
    requires Linked(tb) && x in tb && x != 0
    ensures tb.Keys - Line(tb, x) <= Drop(tb, x).Keys
    decreases Depth(tb[x].kind)
  {
    if tb[x].refcount == 1 && tb[x].children == [] && (tb[x].kind == Device ==> tb[x].unconfigured) {
      assert InParent(tb, x);
      CutLinked(tb, x);
      var p := tb[x].parent;
      if p != 0 {
        assert InParent(tb, p);
        CutLine(tb, x, p);
        DropLine(Cut(tb, x), p);
      }
    }
  }

  /** A node with children, and a configured device, stay when a reference is given back. */
  predicate Stays(n: Node) {
    n.children != [] || (n.kind == Device && !n.unconfigured)
  }

  // ---- paths ----

  datatype Path = Path(bus: Ptr, target: Ptr, device: Ptr)

  function Holds(paths: seq<Path>): multiset<Ptr> {
    if paths == [] then multiset{}
    else Holds(paths[..|paths| - 1]) + Nodes(paths[|paths| - 1])
  }

  function Nodes(p: Path): multiset<Ptr> {
    multiset{p.bus, p.target, p.device}
  }

  /** The nodes of a path exist, and are the device's target and the target's bus. */
  ghost predicate PathOk(tb: Table, p: Path) {
    && p.bus in tb && p.target in tb && p.device in tb
    && tb[p.bus].kind == Bus && tb[p.target].kind == Target && tb[p.device].kind == Device
    && tb[p.device].parent == p.target && tb[p.target].parent == p.bus
  }

  ghost predicate PathsOk(tb: Table, paths: seq<Path>) {
    forall i :: 0 <= i < |paths| ==> PathOk(tb, paths[i])
  }

  lemma {:induction false} HoldsOne(paths: seq<Path>, i: int)
    requires 0 <= i < |paths|
    ensures paths[i].bus in Holds(paths) && paths[i].target in Holds(paths) && paths[i].device in Holds(paths)
    decreases |paths|
  {
    if i < |paths| - 1 {
      HoldsOne(paths[..|paths| - 1], i);
    }
  }

  /** The list without its i-th path. */
  function Removed(paths: seq<Path>, i: int): (r: seq<Path>)
    requires 0 <= i < |paths|
    ensures r == paths[..i] + paths[i + 1..]
  {
    var n := |paths| - 1;
    if i == n then paths[..n] else Removed(paths[..n], i) + [paths[n]]
  }

  lemma {:induction false} HoldsRemove(paths: seq<Path>, i: int)
    requires 0 <= i < |paths|
    ensures Holds(paths) == Holds(Removed(paths, i)) + Nodes(paths[i])
    decreases |paths|
  {
    var n := |paths| - 1;
    if i < n {
      var init := paths[..n];
      HoldsRemove(init, i);
      HoldsAppend(Removed(init, i), paths[n]);
      Swap(Holds(Removed(init, i)), Nodes(paths[i]), Nodes(paths[n]));
    }
  }

  lemma NodesSplit(h: multiset<Ptr>, p: Path)
    ensures h + Nodes(p) == h + multiset{p.bus} + multiset{p.target} + multiset{p.device}
  {
  }

  lemma PlusMinus(h: multiset<Ptr>, x: Ptr)
    ensures h + multiset{x} - multiset{x} == h
  {
  }

  lemma Swap(a: multiset<Ptr>, b: multiset<Ptr>, c: multiset<Ptr>)
    ensures (a + b) + c == (a + c) + b
  {
  }

  lemma HoldsAppend(paths: seq<Path>, p: Path)
    ensures Holds(paths + [p]) == Holds(paths) + Nodes(p)
  {
    assert (paths + [p])[..|paths|] == paths;
  }

  /** Number of paths through node `x`. */
  function Through(paths: seq<Path>, x: Ptr): nat {
    if paths == [] then 0
    else var p := paths[|paths| - 1];
         Through(paths[..|paths| - 1], x) + (if x == p.bus || x == p.target || x == p.device then 1 else 0)
  }

  lemma {:induction false} HoldsThrough(tb: Table, paths: seq<Path>, x: Ptr)
    requires PathsOk(tb, paths)
    ensures Holds(paths)[x] == Through(paths, x)
    decreases |paths|
  {
    if paths != [] {
      HoldsThrough(tb, paths[..|paths| - 1], x);
      assert PathOk(tb, paths[|paths| - 1]);
    }
  }

  lemma SurvivingPaths(tb: Table, tb': Table, holds: multiset<Ptr>, paths: seq<Path>)
    requires PathsOk(tb, paths) && Keeps(tb, tb') && Counted(tb', holds) && Holds(paths) <= holds
    ensures PathsOk(tb', paths)
  {
    forall i | 0 <= i < |paths| ensures PathOk(tb', paths[i]) {
      HoldsOne(paths, i);
      var p := paths[i];
      assert InTable(tb', p.bus) && InTable(tb', p.target) && InTable(tb', p.device);
      assert PathOk(tb, p) && Kept(tb, tb', p.bus) && Kept(tb, tb', p.target) && Kept(tb, tb', p.device);
    }
  }

  /** References that were taken and will never be given back; only busses are taken so. */
  ghost predicate LeaksOk(tb: Table, leaked: multiset<Ptr>) {
    forall x {:trigger Leak(tb, x)} :: x in leaked ==> Leak(tb, x)
  }

  ghost predicate Leak(tb: Table, x: Ptr) {
    x in tb && tb[x].kind == Bus
  }

  /**
   Counts in terms of paths: what each node's reference count is the number of.
   The leaked references are exactly what paths, children, callbacks and
   registration do not explain.
   */
  lemma CountsExplained(tb: Table, paths: seq<Path>, leaked: multiset<Ptr>, x: Ptr)
    requires Inv(tb, Holds(paths) + leaked) && PathsOk(tb, paths) && x in tb && x != 0
    ensures tb[x].refcount == Through(paths, x) + |tb[x].children| + Pins(tb[x]) + leaked[x]
    ensures tb[x].refcount == Through(paths, x) + |tb[x].children| + Pins(tb[x]) <==> leaked[x] == 0
    ensures tb[x].kind != Device ==>
              Through(paths, x) > 0 || tb[x].children != [] || tb[x].registered || leaked[x] > 0
  {
    HoldsThrough(tb, paths, x);
    assert NodeCounted(tb, Holds(paths) + leaked, x);
  }

  /** Some path, child or leaked reference holds `b`. */
  ghost predicate Wanted(tb: Table, paths: seq<Path>, leaked: multiset<Ptr>, b: Ptr) {
    Through(paths, b) > 0 || leaked[b] > 0 || exists t :: t in tb && t != 0 && tb[t].parent == b
  }

  /** An unregistered bus is there exactly as long as a path, a target or a leaked reference holds it. */
  lemma BusStays(tb: Table, paths: seq<Path>, leaked: multiset<Ptr>, b: Ptr)
    requires Inv(tb, Holds(paths) + leaked) && PathsOk(tb, paths) && b != 0
    requires b in tb ==> tb[b].kind == Bus && !tb[b].registered
    ensures b in tb <==> Wanted(tb, paths, leaked, b)
  {
    HoldsThrough(tb, paths, b);
    if b in tb {
      CountsExplained(tb, paths, leaked, b);
      assert ListOrdered(tb, b);
      assert tb[b].children != [] ==> tb[tb[b].children[0]].parent == b;
    } else {
      assert !InTable(tb, b);
      forall t | t in tb && t != 0 ensures tb[t].parent != b { assert InParent(tb, t); }
    }
  }

  /** `y` is `x` or a node below it. */
  ghost predicate AtOrBelow(tb: Table, y: Ptr, x: Ptr)
    requires Linked(tb) && y in tb
    decreases Depth(tb[y].kind)
  {
    y == x || (y != 0 && InParent(tb, y) && AtOrBelow(tb, tb[y].parent, x))
  }

  /** What keeps `y` in the table and can come to an end: a configured device, a path, a callback or a registration. */
  ghost predicate Motive(tb: Table, paths: seq<Path>, y: Ptr)
    requires y in tb
  {
    (tb[y].kind == Device && !tb[y].unconfigured) || Through(paths, y) > 0 || Pins(tb[y]) > 0
  }

  /** Some node at or below `x` has a reason to be there. */
  ghost predicate HasReason(tb: Table, paths: seq<Path>, x: Ptr)
    requires Linked(tb)
  {
    exists y :: y in tb && y != 0 && AtOrBelow(tb, y, x) && Motive(tb, paths, y)
  }

  /** A device that was lost after its last reference had gone: no reference is left whose return would free it. */
  predicate Forgotten(n: Node) {
    n.kind == Device && n.unconfigured && n.refcount == 0
  }

  lemma FirstChild(tb: Table, y: Ptr) returns (c: Ptr)
    requires Linked(tb) && y in tb && tb[y].children != []
    ensures c in tb && c != 0 && Depth(tb[c].kind) == Depth(tb[y].kind) + 1
  {
    assert ListOrdered(tb, y);
    c := tb[y].children[0];
    assert InParent(tb, c);
  }

  lemma LeafDevice(tb: Table, d: Ptr)
    requires Linked(tb) && d in tb && tb[d].kind == Device
    ensures tb[d].children == []
  {
    if tb[d].children != [] {
      var c := FirstChild(tb, d);
      assert false;
    }
  }

  /** A device has no motive exactly when it is forgotten. */
  lemma DeviceMotive(tb: Table, paths: seq<Path>, leaked: multiset<Ptr>, d: Ptr)
    requires Inv(tb, Holds(paths) + leaked) && PathsOk(tb, paths) && LeaksOk(tb, leaked)
    requires d in tb && d != 0 && tb[d].kind == Device
    ensures !Motive(tb, paths, d) <==> Forgotten(tb[d])
  {
    LeafDevice(tb, d);
    CountsExplained(tb, paths, leaked, d);
    assert d in leaked ==> Leak(tb, d);
  }

  /** Below every node there is a reason, a forgotten device, or it is itself a childless bus with a leaked reference. */
  lemma {:induction false} Reason(tb: Table, paths: seq<Path>, leaked: multiset<Ptr>, x: Ptr) returns (y: Ptr)
    requires Inv(tb, Holds(paths) + leaked) && PathsOk(tb, paths) && LeaksOk(tb, leaked) && x in tb && x != 0
    ensures y in tb && y != 0 && AtOrBelow(tb, y, x)
    ensures Motive(tb, paths, y) || Forgotten(tb[y]) || (y == x && tb[x].children == [] && leaked[x] > 0)
    decreases 3 - Depth(tb[x].kind)
  {
    y := x;
    assert x in leaked ==> Leak(tb, x);
    if tb[x].kind == Device {
      DeviceMotive(tb, paths, leaked, x);
    } else if tb[x].children == [] {
      CountsExplained(tb, paths, leaked, x);
    } else {
      assert ListOrdered(tb, x) && InParent(tb, x);
      var c := tb[x].children[0];
      assert InParent(tb, c);
      y := Reason(tb, paths, leaked, c);
      assert c in leaked ==> Leak(tb, c);
      BelowParent(tb, y, c);
    }
  }

  /** All devices at or below `x` are forgotten. */
  ghost predicate AllForgotten(tb: Table, x: Ptr)
    requires Linked(tb)
  {
    forall d {:trigger AtOrBelow(tb, d, x)} :: d in tb && tb[d].kind == Device && AtOrBelow(tb, d, x) ==> Forgotten(tb[d])
  }

  /**
   A node is there for no reason exactly when no path goes through it, it is not
   registered and all devices at or below it are forgotten; and then a forgotten
   device or a leaked reference keeps it.
   */
  lemma Stranded(tb: Table, paths: seq<Path>, leaked: multiset<Ptr>, x: Ptr)
    requires Inv(tb, Holds(paths) + leaked) && PathsOk(tb, paths) && LeaksOk(tb, leaked) && x in tb && x != 0
    ensures !HasReason(tb, paths, x) <==> Through(paths, x) == 0 && !tb[x].registered && AllForgotten(tb, x)
    ensures !HasReason(tb, paths, x) ==>
              leaked[x] > 0 || exists d :: d in tb && d != 0 && AtOrBelow(tb, d, x) && Forgotten(tb[d])
  {
    if Through(paths, x) == 0 && !tb[x].registered && AllForgotten(tb, x) {
      forall y | y in tb && y != 0 && AtOrBelow(tb, y, x) ensures !Motive(tb, paths, y) {
        NoMotive(tb, paths, leaked, x, y);
      }
    } else {
      SomeReason(tb, paths, leaked, x);
    }
    var y := Reason(tb, paths, leaked, x);
  }

  lemma NoMotive(tb: Table, paths: seq<Path>, leaked: multiset<Ptr>, x: Ptr, y: Ptr)
    requires Inv(tb, Holds(paths) + leaked) && PathsOk(tb, paths) && LeaksOk(tb, leaked) && x in tb && x != 0
    requires Through(paths, x) == 0 && !tb[x].registered && AllForgotten(tb, x)
    requires y in tb && y != 0 && AtOrBelow(tb, y, x)
    ensures !Motive(tb, paths, y)
  {
    if tb[y].kind == Device {
      DeviceMotive(tb, paths, leaked, y);
    } else {
      ThroughAbove(tb, paths, y, x);
      assert NodeCounted(tb, Holds(paths) + leaked, y);
      if y != x {
        BelowIsNoBus(tb, y, x);
      }
    }
  }

  lemma SomeReason(tb: Table, paths: seq<Path>, leaked: multiset<Ptr>, x: Ptr)
    requires Inv(tb, Holds(paths) + leaked) && PathsOk(tb, paths) && LeaksOk(tb, leaked) && x in tb && x != 0
    requires Through(paths, x) > 0 || tb[x].registered || !AllForgotten(tb, x)
    ensures HasReason(tb, paths, x)
  {
    if Through(paths, x) > 0 || tb[x].registered {
      assert AtOrBelow(tb, x, x) && Motive(tb, paths, x);
    } else {
      var d :| d in tb && tb[d].kind == Device && AtOrBelow(tb, d, x) && !Forgotten(tb[d]);
      DeviceMotive(tb, paths, leaked, d);
    }
  }

  /** Only the root is above a bus. */
  lemma BelowIsNoBus(tb: Table, y: Ptr, x: Ptr)
    requires Linked(tb) && y in tb && x in tb && x != 0 && y != x && AtOrBelow(tb, y, x)
    ensures tb[y].kind != Bus
  {
    if tb[y].kind == Bus {
      BusParent(tb, y);
      assert false;
    }
  }

  /** A path through a node goes through every node above it. */
  lemma {:induction false} ThroughAbove(tb: Table, paths: seq<Path>, y: Ptr, x: Ptr)
    requires Linked(tb) && PathsOk(tb, paths) && y in tb && y != 0 && x in tb && x != 0 && AtOrBelow(tb, y, x)
    ensures Through(paths, y) > 0 ==> Through(paths, x) > 0
    decreases Depth(tb[y].kind)
  {
    if y != x {
      var p := tb[y].parent;
      assert InParent(tb, y) && p != 0;
      if Through(paths, y) > 0 {
        var i := SomePath(paths, y);
        assert PathOk(tb, paths[i]);
        PathParent(tb, paths[i], y);
        OnPath(paths, i, p);
      }
      ThroughAbove(tb, paths, p, x);
    }
  }

  lemma PathParent(tb: Table, q: Path, y: Ptr)
    requires Linked(tb) && PathOk(tb, q) && y in tb && tb[y].parent != 0 && (y == q.bus || y == q.target || y == q.device)
    ensures tb[y].parent == q.bus || tb[y].parent == q.target
  {
    assert q.bus != 0;
    BusParent(tb, q.bus);
  }

  lemma {:induction false} SomePath(paths: seq<Path>, x: Ptr) returns (i: int)
    requires Through(paths, x) > 0
    ensures 0 <= i < |paths| && (x == paths[i].bus || x == paths[i].target || x == paths[i].device)
    decreases |paths|
  {
    var n := |paths| - 1;
    var p := paths[n];
    if x == p.bus || x == p.target || x == p.device {
      i := n;
    } else {
      i := SomePath(paths[..n], x);
    }
  }

  lemma {:induction false} OnPath(paths: seq<Path>, i: int, x: Ptr)
    requires 0 <= i < |paths| && (x == paths[i].bus || x == paths[i].target || x == paths[i].device)
    ensures Through(paths, x) > 0
    decreases |paths|
  {
    if i < |paths| - 1 {
      OnPath(paths[..|paths| - 1], i, x);
    }
  }

  /** A reference to a bus given back that nobody held leaves a count that is not explained. */
  lemma UnheldDrop(tb: Table, holds: multiset<Ptr>, b: Ptr)
    requires Inv(tb, holds) && b in tb && b != 0 && tb[b].kind == Bus && !tb[b].registered
    ensures !Inv(Drop(tb, b), holds)
  {
    assert NodeCounted(tb, holds, b);
    BusParent(tb, b);
    if tb[b].refcount == 1 && tb[b].children == [] {
      assert b in holds && !InTable(Cut(tb, b), b);
    } else {
      var tb' := Bump(tb, b, -1);
      assert !NodeCounted(tb', holds, b);
    }
  }

  lemma BusParent(tb: Table, b: Ptr)
    requires Linked(tb) && b in tb && b != 0 && tb[b].kind == Bus
    ensures InParent(tb, b) && tb[b].parent == 0
  {
    assert InParent(tb, b);
    assert tb[b].parent != 0 ==> InParent(tb, tb[b].parent);
  }

  lemma {:induction false} BelowParent(tb: Table, y: Ptr, c: Ptr)
    requires Linked(tb) && y in tb && c in tb && c != 0 && AtOrBelow(tb, y, c)
    ensures AtOrBelow(tb, y, tb[c].parent)
    decreases Depth(tb[y].kind)
  {
    assert InParent(tb, c);
    if y != c {
      BelowParent(tb, tb[y].parent, c);
    }
  }
}
