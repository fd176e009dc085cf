/** Keys of CAM queue entries and their 32-bit comparison (sys/cam/cam_queue.c). */
module CamKeys {
  const WORD := 0x1_0000_0000
  const HALF := 0x8000_0000

  type Word = x: int | 0 <= x < WORD

  /** What an entry is ordered by; the generation counts insertions modulo 2^32. */
  datatype Key = Key(priority: Word, generation: Word)

  /** A difference of two 32-bit unsigned numbers, taken modulo 2^32 and returned as a 32-bit int. */
  function Signed(d: int): (r: int)
    requires -WORD < d < WORD
    ensures -HALF <= r < HALF && (r == d || r == d + WORD || r == d - WORD)
  {
    if d < -HALF then d + WORD else if d >= HALF then d - WORD else d
  }

  /** The comparison of the source: negative, zero or positive. */
  function Cmp(x: Key, y: Key): int {
    if x.priority == y.priority then Signed(x.generation - y.generation) else Signed(x.priority - y.priority)
  }

  /** Priorities less than 2^31 apart, and generations within 2^31 after `base`. */
  datatype Window = Window(low: int, base: Word)

  /** How long after `base` a generation is, counting round modulo 2^32. */
  function Age(w: Window, k: Key): (a: nat)
    ensures a < WORD
  {
    if k.generation >= w.base then k.generation - w.base else k.generation - w.base + WORD
  }

  ghost predicate Fits(w: Window, k: Key) {
    w.low <= k.priority < w.low + HALF && Age(w, k) < HALF
  }

  /** Position in the order by priority first, age second. */
  function Rank(w: Window, k: Key): int {
    k.priority * WORD + Age(w, k)
  }

  /** Inside a window the comparison is the order of the ranks, so it is total and transitive. */
  lemma CmpRank(w: Window, x: Key, y: Key)
    requires Fits(w, x) && Fits(w, y)
    ensures Cmp(x, y) <= 0 <==> Rank(w, x) <= Rank(w, y)
    ensures Cmp(x, y) < 0 <==> Rank(w, x) < Rank(w, y)
  {
  }

  /** What the order means: priority first, and the earlier insertion among equals. */
  ghost predicate Before(w: Window, x: Key, y: Key) {
    x.priority < y.priority || (x.priority == y.priority && Age(w, x) <= Age(w, y))
  }

  lemma RankBefore(w: Window, x: Key, y: Key)
    ensures Rank(w, x) <= Rank(w, y) <==> Before(w, x, y)
  {
  }

  /** Outside any window the comparison is not even transitive. */
  lemma CmpCycle()
    ensures var a, b, c := Key(0, 0), Key(0x6000_0000, 0), Key(0xc000_0000, 0);
            Cmp(a, b) < 0 && Cmp(b, c) < 0 && Cmp(c, a) < 0
  {
  }
}

/** The CAM priority queue: a heap of objects that know their own slot (sys/cam/cam_queue.c). */
module CamQueue {
  import opened CamKeys
  import opened CamHeap

  const CAM_UNQUEUED_INDEX := -1
  const CAMQ_HEAD := 1

  /** An entry with the key it is ordered by. */
  datatype Slot<+T> = Slot(who: T, key: Key)

  function SlotCmp<T>(x: Slot<T>, y: Slot<T>): int {
    Cmp(x.key, y.key)
  }

  function SlotRank<T>(w: Window): Slot<T> -> int {
    (x: Slot<T>) => Rank(w, x.key)
  }

  ghost predicate AllFit<T>(w: Window, s: seq<Slot<T>>) {
    forall x :: x in s ==> Fits(w, x.key)
  }

  lemma FitAgrees<T>(w: Window, s: seq<Slot<T>>)
    requires AllFit(w, s)
    ensures Agrees(SlotCmp, SlotRank(w), s)
  {
    forall x, y | x in s && y in s ensures Agree(SlotCmp, SlotRank(w), x, y) {
      CmpRank(w, x.key, y.key);
    }
  }

  lemma FitBag<T>(w: Window, s: seq<Slot<T>>, t: seq<Slot<T>>)
    requires AllFit(w, s) && multiset(t) <= multiset(s)
    ensures AllFit(w, t)
  {
    forall x | x in t ensures Fits(w, x.key) {
      assert x in multiset(t);
    }
  }

  function Rekey<T>(x: Slot<T>, priority: Word): Slot<T> {
    Slot(x.who, Key(priority, x.key.generation))
  }

  function Changed<T>(s: seq<Slot<T>>, i: nat, priority: Word): seq<Slot<T>>
    requires 1 <= i <= |s|
  {
    var m := s[i - 1 := Rekey(s[i - 1], priority)];
    if priority > s[i - 1].key.priority then Sink(SlotCmp, m, i) else Rise(SlotCmp, m, i)
  }

  lemma RekeyRank<T>(w: Window, x: Slot<T>, priority: Word)
    ensures priority >= x.key.priority ==> SlotRank(w)(Rekey(x, priority)) >= SlotRank(w)(x)
    ensures priority <= x.key.priority ==> SlotRank(w)(Rekey(x, priority)) <= SlotRank(w)(x)
  {
  }

  lemma UpdateBag<T>(s: seq<T>, i: nat, x: T)
    requires i < |s|
    ensures multiset(s[i := x]) == multiset(s) - multiset{s[i]} + multiset{x}
  {
  }

  lemma ChangeBag<T>(s: seq<Slot<T>>, i: nat, priority: Word)
    requires 1 <= i <= |s|
    ensures multiset(Changed(s, i, priority)) == multiset(s) - multiset{s[i - 1]} + multiset{Rekey(s[i - 1], priority)}
  {
    var m := s[i - 1 := Rekey(s[i - 1], priority)];
    UpdateBag(s, i - 1, Rekey(s[i - 1], priority));
    SinkBag(SlotCmp, m, i);
    RiseBag(SlotCmp, m, i);
  }

  /** Changing a priority keeps the order. */
  lemma ChangeOrder<T>(w: Window, s: seq<Slot<T>>, i: nat, priority: Word)
    requires AllFit(w, s) && Ordered(SlotCmp, s) && 1 <= i <= |s| && Fits(w, Rekey(s[i - 1], priority).key)
    ensures AllFit(w, Changed(s, i, priority)) && Ordered(SlotCmp, Changed(s, i, priority))
  {
    var x := Rekey(s[i - 1], priority);
    var m := s[i - 1 := x];
    ChangeBag(s, i, priority);
    UpdateBag(s, i - 1, x);
    FitBag(w, m, Changed(s, i, priority));
    FitAgrees(w, s);
    FitAgrees(w, m);
    FitAgrees(w, Changed(s, i, priority));
    OrderedRanks(SlotCmp, SlotRank(w), s);
    RekeyRank(w, s[i - 1], priority);
    if priority > s[i - 1].key.priority {
      RaisedHeap(SlotCmp, SlotRank(w), s, i, x);
    } else {
      LoweredHeap(SlotCmp, SlotRank(w), s, i, x);
    }
    OrderedRanks(SlotCmp, SlotRank(w), Changed(s, i, priority));
  }

  /** An ordered queue that a removal at slot 4 leaves out of order. */
  lemma RemoveLosesOrder()
    ensures exists s: seq<Slot<int>> :: |s| == 6 && Ordered(SlotCmp, s) && !Ordered(SlotCmp, Removed(SlotCmp, s, 4))
  {
    var k := [0, 10, 1, 20, 30, 2];
    var s := seq(6, i requires 0 <= i < 6 => Slot(i, Key(k[i], 0)));
    forall j | 2 <= j <= 6 ensures Below(SlotCmp, s, j) {
      assert j == 2 || j == 3 || j == 4 || j == 5 || j == 6;
    }
    FitAgrees(Window(0, 0), s);
    RemoveOrder(SlotCmp, SlotRank(Window(0, 0)), s, 4);
  }

  // Runs.

  /** A change or a removal names the entry and the slot its back-pointer gives. */
  datatype Op<+T> = Insert(x: Slot<T>) | RemoveHead | Remove(x: Slot<T>, slot: nat)
                  | Change(x: Slot<T>, slot: nat, priority: Word)

  /** One operation on the queue; removing the head of an empty queue gives nothing. */
  function Apply<T>(s: seq<Slot<T>>, op: Op<T>): seq<Slot<T>> {
    match op
    case Insert(x) => Inserted(SlotCmp, s, x)
    case RemoveHead => if s == [] then s else Removed(SlotCmp, s, CAMQ_HEAD)
    case Remove(_, i) => if 1 <= i <= |s| then Removed(SlotCmp, s, i) else s
    case Change(_, i, p) => if 1 <= i <= |s| then Changed(s, i, p) else s
  }

  function Run<T>(s: seq<Slot<T>>, ops: seq<Op<T>>): seq<Slot<T>> {
    if ops == [] then s else Apply(Run(s, ops[..|ops| - 1]), ops[|ops| - 1])
  }

  /**
   The keys in the queue and the one an operation brings in fit the window; a
   change or removal names an entry by its own slot, and a removal from the
   middle is one that keeps the order.
   */
  ghost predicate OpFits<T>(w: Window, s: seq<Slot<T>>, op: Op<T>) {
    AllFit(w, s) &&
    match op
    case Insert(x) => Fits(w, x.key)
    case RemoveHead => true
    case Remove(x, i) => 1 <= i <= |s| && s[i - 1] == x && RemoveKeepsOrder(SlotCmp, s, i)
    case Change(x, i, p) => 1 <= i <= |s| && s[i - 1] == x && Fits(w, Rekey(x, p).key)
  }

  /** At each step the keys that are live then fit a window of that step. */
  ghost predicate RunFits<T>(ws: seq<Window>, s: seq<Slot<T>>, ops: seq<Op<T>>) {
    |ws| == |ops| && forall n {:trigger ops[n]} :: 0 <= n < |ops| ==> OpFits(ws[n], Run(s, ops[..n]), ops[n])
  }

  /** The abstract priority queue: a bag, from which an element before all others is taken. */
  ghost predicate BagStep<T>(w: Window, b: multiset<Slot<T>>, op: Op<T>, b': multiset<Slot<T>>) {
    match op
    case Insert(x) => b' == b + multiset{x}
    case RemoveHead =>
      if b == multiset{} then b' == b
      else exists x :: x in b && b' == b - multiset{x} && forall y :: y in b ==> Before(w, x.key, y.key)
    case Remove(x, _) => x in b && b' == b - multiset{x}
    case Change(x, _, p) => x in b && b' == b - multiset{x} + multiset{Rekey(x, p)}
  }

  lemma InsertRefines<T>(w: Window, s: seq<Slot<T>>, x: Slot<T>)
    requires AllFit(w, s) && Ordered(SlotCmp, s) && Fits(w, x.key)
    ensures var t := Inserted(SlotCmp, s, x); Ordered(SlotCmp, t) && BagStep(w, multiset(s), Insert(x), multiset(t))
  {
    FitAgrees(w, s + [x]);
    InsertOrder(SlotCmp, SlotRank(w), s, x);
  }

  lemma RemoveHeadRefines<T>(w: Window, s: seq<Slot<T>>)
    requires AllFit(w, s) && Ordered(SlotCmp, s) && s != []
    ensures var t := Removed(SlotCmp, s, CAMQ_HEAD);
            Ordered(SlotCmp, t) && BagStep(w, multiset(s), RemoveHead, multiset(t))
  {
    FitAgrees(w, s);
    RemoveBag(SlotCmp, s, CAMQ_HEAD);
    RemoveOrder(SlotCmp, SlotRank(w), s, CAMQ_HEAD);
    HeadBefore(w, s);
    assert s[0] in multiset(s);
  }

  /** The head has the least priority, and among those the oldest generation. */
  lemma HeadBefore<T>(w: Window, s: seq<Slot<T>>)
    requires AllFit(w, s) && Ordered(SlotCmp, s) && s != []
    ensures forall y :: y in s ==> Before(w, s[0].key, y.key)
  {
    FitAgrees(w, s);
    HeadFirst(SlotCmp, SlotRank(w), s);
    forall y | y in s ensures Before(w, s[0].key, y.key) {
      assert y in multiset(s) && SlotCmp(s[0], y) <= 0;
      CmpRank(w, s[0].key, y.key);
      RankBefore(w, s[0].key, y.key);
    }
  }

  lemma ApplyRefines<T>(w: Window, s: seq<Slot<T>>, op: Op<T>)
    requires Ordered(SlotCmp, s) && OpFits(w, s, op)
    ensures Ordered(SlotCmp, Apply(s, op)) && BagStep(w, multiset(s), op, multiset(Apply(s, op)))
  {
    match op
    case Insert(x) =>
      InsertRefines(w, s, x);
    case RemoveHead =>
      if s != [] {
        RemoveHeadRefines(w, s);
      }
    case Remove(x, i) =>
      RemoveRefines(w, s, x, i);
    case Change(x, i, p) =>
      ChangeRefines(w, s, x, i, p);
  }

  lemma RemoveRefines<T>(w: Window, s: seq<Slot<T>>, x: Slot<T>, i: nat)
    requires Ordered(SlotCmp, s) && OpFits(w, s, Remove(x, i))
    ensures var t := Removed(SlotCmp, s, i); Ordered(SlotCmp, t) && BagStep(w, multiset(s), Remove(x, i), multiset(t))
  {
    FitAgrees(w, s);
    RemoveOrder(SlotCmp, SlotRank(w), s, i);
    RemoveBag(SlotCmp, s, i);
    assert x in multiset(s);
  }

  lemma ChangeRefines<T>(w: Window, s: seq<Slot<T>>, x: Slot<T>, i: nat, p: Word)
    requires Ordered(SlotCmp, s) && OpFits(w, s, Change(x, i, p))
    ensures var t := Changed(s, i, p); Ordered(SlotCmp, t) && BagStep(w, multiset(s), Change(x, i, p), multiset(t))
  {
    ChangeOrder(w, s, i, p);
    ChangeBag(s, i, p);
    assert x in multiset(s);
  }

  lemma {:induction false} RunOrder<T>(ws: seq<Window>, s: seq<Slot<T>>, ops: seq<Op<T>>, n: nat)
    requires Ordered(SlotCmp, s) && RunFits(ws, s, ops) && n <= |ops|
    ensures Ordered(SlotCmp, Run(s, ops[..n]))
    decreases n
  {
    if n > 0 {
      RunOrder(ws, s, ops, n - 1);
      RunNext(s, ops, n - 1);
      ApplyRefines(ws[n - 1], Run(s, ops[..n - 1]), ops[n - 1]);
    }
  }

  lemma RunNext<T>(s: seq<Slot<T>>, ops: seq<Op<T>>, n: nat)
    requires n < |ops|
    ensures Run(s, ops[..n + 1]) == Apply(Run(s, ops[..n]), ops[n])
  {
    assert ops[..n + 1][..n] == ops[..n];
  }

  /**
   Every run of inserts, removals and priority changes is a run of the abstract
   priority queue, step by step, as long as the keys that are live at a step
   fit some window: the window may move on without end.
   */
  lemma RunRefines<T>(ws: seq<Window>, s: seq<Slot<T>>, ops: seq<Op<T>>, n: nat)
    requires Ordered(SlotCmp, s) && RunFits(ws, s, ops) && n < |ops|
    ensures Ordered(SlotCmp, Run(s, ops[..n + 1]))
    ensures BagStep(ws[n], multiset(Run(s, ops[..n])), ops[n], multiset(Run(s, ops[..n + 1])))
  {
    RunOrder(ws, s, ops, n);
    RunNext(s, ops, n);
    ApplyRefines(ws[n], Run(s, ops[..n]), ops[n]);
  }

  /** Insert a key and take it out again, once for each generation. */
  function Turnover(gens: seq<Word>): (ops: seq<Op<int>>)
    ensures |ops| == 2 * |gens|
  {
    if gens == [] then []
    else Turnover(gens[..|gens| - 1]) + [Insert(Slot(0, Key(0, gens[|gens| - 1]))), RemoveHead]
  }

  /** However far the generation counter runs on, round after round, a queue that is emptied in between fits. */
  lemma {:induction false} TurnoverFits(gens: seq<Word>) returns (ws: seq<Window>)
    ensures RunFits(ws, [], Turnover(gens)) && Run([], Turnover(gens)) == []
  {
    if gens == [] {
      ws := [];
    } else {
      var front, g := gens[..|gens| - 1], gens[|gens| - 1];
      var v := TurnoverFits(front);
      ws := v + [Window(0, g), Window(0, g)];
      assert ws[..|v|] == v;
      TurnFits(ws, Turnover(front), Slot(0, Key(0, g)), g);
    }
  }

  lemma TurnFits(ws: seq<Window>, ops: seq<Op<int>>, x: Slot<int>, g: Word)
    requires |ws| == |ops| + 2 && RunFits(ws[..|ops|], [], ops) && Run([], ops) == [] && x.key == Key(0, g)
    requires ws[|ops|] == ws[|ops| + 1] == Window(0, g)
    ensures RunFits(ws, [], ops + [Insert(x), RemoveHead]) && Run([], ops + [Insert(x), RemoveHead]) == []
  {
    var all, m := ops + [Insert(x), RemoveHead], |ops|;
    assert all[..m] == ops && all[..m + 1] == ops + [Insert(x)] && all[..m + 2] == all;
    RunNext([], all, m);
    RunNext([], all, m + 1);
    var s: seq<Slot<int>> := [];
    assert Inserted(SlotCmp, s, x) == [x];
    assert Removed(SlotCmp, [x], CAMQ_HEAD) == [];
    forall n | 0 <= n < |all| ensures OpFits(ws[n], Run([], all[..n]), all[n]) {
      if n < m {
        assert all[..n] == ops[..n] && all[n] == ops[n] && ws[n] == ws[..m][n];
      }
    }
  }

  class Pinfo {
    var priority: Word
    var generation: Word
    var index: int

    constructor (priority: Word, generation: Word)
      ensures this.priority == priority && this.generation == generation && index == CAM_UNQUEUED_INDEX
    {
      this.priority, this.generation, index := priority, generation, CAM_UNQUEUED_INDEX;
    }
  }

  class Camq {
    var queue: array<Pinfo?>
    var entries: nat
    ghost var members: set<Pinfo>

    ghost predicate Held(n: nat)
      reads `queue, `members, queue
    {
      n < queue.Length && forall i {:trigger queue[i]} :: 1 <= i <= n ==> queue[i] in members
    }

    /** Each entry in the first `n` slots is a member and names its own slot. */
    ghost predicate Linked(n: nat)
      reads `queue, `members, queue, members
    {
      && Held(n)
      && (forall i {:trigger queue[i]} :: 1 <= i <= n ==> queue[i].index == i)
    }

    ghost function SlotAt(i: nat): Slot<Pinfo>
      reads `queue, `members, queue, members
      requires 1 <= i < queue.Length && queue[i] in members
    {
      Slot(queue[i], Key(queue[i].priority, queue[i].generation))
    }

    /** The entries in the first `n` slots with their keys. */
    ghost function Slots(n: nat): (s: seq<Slot<Pinfo>>)
      reads `queue, `members, queue, members
      requires Held(n)
      ensures |s| == n && forall i :: 0 <= i < n ==> s[i] == SlotAt(i + 1)
    {
      if n == 0 then [] else Slots(n - 1) + [SlotAt(n)]
    }

    constructor (size: nat)
      ensures Linked(0) && entries == 0 && queue.Length == size + 1 && members == {} && fresh(queue)
    {
      queue := new Pinfo?[size + 1](_ => null);
      entries, members := 0, {};
    }

    method Compare(i: nat, j: nat, ghost n: nat) returns (r: int)
      requires Linked(n) && 1 <= i <= n && 1 <= j <= n
      ensures r == SlotCmp(Slots(n)[i - 1], Slots(n)[j - 1])
    {
      if queue[i].priority == queue[j].priority {
        r := Signed(queue[i].generation - queue[j].generation);
      } else {
        r := Signed(queue[i].priority - queue[j].priority);
      }
    }

    method Swap(i: nat, j: nat, ghost n: nat)
      requires Linked(n) && 1 <= i <= n && 1 <= j <= n
      modifies queue, members`index
      ensures Linked(n) && Slots(n) == Exchange(old(Slots(n)), i, j)
    {
      var temp := queue[j];
      queue[j] := queue[i];
      queue[i] := temp;
      queue[j].index := j;
      queue[i].index := i;
    }

    /** The entry at `from` rises to its place. */
    method HeapUp(from: nat, ghost n: nat)
      requires Linked(n) && 1 <= from <= n
      modifies queue, members`index
      ensures Linked(n) && Slots(n) == Rise(SlotCmp, old(Slots(n)), from)
    {
      var child := from;
      while child != 1
        invariant 1 <= child <= n && Linked(n)
        invariant Rise(SlotCmp, Slots(n), child) == Rise(SlotCmp, old(Slots(n)), from)
      {
        var parent := child / 2;
        var c := Compare(parent, child, n);
        if c <= 0 {
          break;
        }
        Swap(parent, child, n);
        child := parent;
      }
    }

    /** The least child of `parent` among the first `n` slots. */
    method PickChild(parent: nat, n: nat) returns (child: nat)
      requires Linked(n) && 1 <= parent && 2 * parent <= n
      ensures child == Picked(SlotCmp, Slots(n), parent)
    {
      child := 2 * parent;
      if child < n {
        var c := Compare(child + 1, child, n);
        if c < 0 {
          child := child + 1;
        }
      }
    }

    /** One exchange on the way down, unless the entry at `parent` is in place. */
    method StepDown(parent: nat, n: nat) returns (next: nat, moved: bool)
      requires Linked(n) && 1 <= parent && 2 * parent <= n
      modifies queue, members`index
      ensures Linked(n) && parent < next <= n
      ensures moved ==> Sink(SlotCmp, Slots(n), next) == Sink(SlotCmp, old(Slots(n)), parent)
      ensures !moved ==> Slots(n) == old(Slots(n)) == Sink(SlotCmp, old(Slots(n)), parent)
    {
      next := PickChild(parent, n);
      var c := Compare(parent, next, n);
      moved := c > 0;
      if moved {
        Swap(next, parent, n);
      }
    }

    /** The entry at `top` sinks to its place among the first `n` slots. */
    method HeapDown(top: nat, n: nat)
      requires Linked(n) && 1 <= top <= n
      modifies queue, members`index
      ensures Linked(n) && Slots(n) == Sink(SlotCmp, old(Slots(n)), top)
    {
      var parent := top;
      while 2 * parent <= n
        invariant 1 <= parent <= n && Linked(n)
        invariant Sink(SlotCmp, Slots(n), parent) == Sink(SlotCmp, old(Slots(n)), top)
        decreases n - parent
      {
        var child, moved := StepDown(parent, n);
        if !moved {
          break;
        }
        parent := child;
      }
    }

    /** A new entry in the slot after the last. */
    method Append(e: Pinfo)
      requires Linked(entries) && e !in members && entries < queue.Length - 1
      modifies this`entries, this`members, queue, e`index
      ensures Linked(entries) && members == old(members) + {e} && entries == old(entries) + 1
      ensures Slots(entries) == old(Slots(entries)) + [Slot(e, Key(e.priority, e.generation))]
      ensures queue == old(queue) && e.priority == old(e.priority) && e.generation == old(e.generation)
    {
      entries := entries + 1;
      queue[entries] := e;
      e.index := entries;
      members := members + {e};
    }

    /** One more entry, in a queue that has room for it. */
    method Insert(e: Pinfo)
      requires Linked(entries) && e !in members && entries < queue.Length - 1
      modifies this`entries, this`members, queue, members`index, e`index
      ensures Linked(entries) && members == old(members) + {e} && entries == old(entries) + 1
      ensures Slots(entries) == Inserted(SlotCmp, old(Slots(entries)), Slot(e, Key(e.priority, e.generation)))
    {
      Append(e);
      HeapUp(entries, entries);
    }

    /** The last entry takes over a slot. */
    method Replace(index: nat)
      requires Linked(entries) && 1 <= index < entries
      modifies this`members, queue, members`index
      ensures Linked(entries - 1) && members == old(members) - {old(queue[index])}
      ensures Slots(entries - 1) == Moved(old(Slots(entries)), index)
    {
      members := members - {queue[index]};
      queue[index] := queue[entries];
      queue[index].index := index;
    }

    /** The last slot goes out of use. */
    ghost method DropLast()
      requires Linked(entries) && entries > 0
      modifies this`members
      ensures Linked(entries - 1) && members == old(members) - {queue[entries]}
      ensures Slots(entries - 1) == old(Slots(entries))[..entries - 1]
    {
      members := members - {queue[entries]};
    }

    /** Close the gap that the entry at `index` leaves. */
    method CloseGap(index: nat)
      requires Linked(entries) && 1 <= index <= entries
      modifies this`members, queue, members`index
      ensures Linked(entries - 1) && members == old(members) - {old(queue[index])}
      ensures Slots(entries - 1) == Removed(SlotCmp, old(Slots(entries)), index)
    {
      if entries != index {
        Replace(index);
        HeapDown(index, entries - 1);
      } else {
        DropLast();
      }
    }

    /** Take out the entry at a slot; slots that hold none give null. */
    method Remove(index: nat) returns (e: Pinfo?)
      requires Linked(entries)
      modifies this`entries, this`members, queue, members`index
      ensures e == null <==> (index == 0 || index > old(entries))
      ensures e == null ==> unchanged(this) && unchanged(queue) && unchanged(old(members))
      ensures e != null ==> e == old(queue[index]) && e.index == CAM_UNQUEUED_INDEX
      ensures e != null ==> members == old(members) - {e} && entries == old(entries) - 1 && Linked(entries)
      ensures e != null ==> Slots(entries) == Removed(SlotCmp, old(Slots(entries)), index)
    {
      if index == 0 || index > entries {
        return null;
      }
      e := queue[index];
      CloseGap(index);
      e.index := CAM_UNQUEUED_INDEX;
      entries := entries - 1;
    }

    /** A new priority for the entry at a slot. */
    method ChangePriority(index: nat, priority: Word)
      requires Linked(entries) && 1 <= index <= entries
      modifies queue, members`index, members`priority
      ensures Linked(entries) && Slots(entries) == Changed(old(Slots(entries)), index, priority)
      ensures old(queue[index]).priority == priority
      ensures forall m :: m in members && m != old(queue[index]) ==> m.priority == old(m.priority)
    {
      ghost var s := Slots(entries);
      if priority > queue[index].priority {
        SetPriority(index, priority);
        HeapDown(index, entries);
      } else {
        SetPriority(index, priority);
        HeapUp(index, entries);
      }
    }

    method SetPriority(index: nat, priority: Word)
      requires Linked(entries) && 1 <= index <= entries
      modifies members`priority
      ensures Linked(entries) && Slots(entries) == old(Slots(entries))[index - 1 := Rekey(old(Slots(entries))[index - 1], priority)]
      ensures queue[index].priority == priority
      ensures forall m :: m in members && m != queue[index] ==> m.priority == old(m.priority)
    {
      queue[index].priority := priority;
    }

    /** A new array that still holds every entry; `memory` says whether it could be allocated. */
    method Resize(size: nat, memory: bool) returns (ok: bool)
      requires Linked(entries) && entries <= size
      modifies this`queue
      ensures ok == memory && Linked(entries) && Slots(entries) == old(Slots(entries))
      ensures if ok then queue.Length == size + 1 && fresh(queue) else queue == old(queue)
    {
      ok := memory;
      if !memory {
        return;
      }
      var copy := new Pinfo?[size + 1](_ => null);
      for i := 1 to entries + 1
        invariant queue == old(queue) && forall k :: 1 <= k < i ==> copy[k] == queue[k]
      {
        copy[i] := queue[i];
      }
      ghost var s := Slots(entries);
      queue := copy;
      assert Slots(entries) == s;
    }
  }
}
