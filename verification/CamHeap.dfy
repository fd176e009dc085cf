/**
 * Heaps as the CAM priority queues use them (sys/cam/cam_queue.c).
 * Heap slots are numbered from 1, so the slot `i` of a sequence `s` is `s[i - 1]`.
 */
module CamHeap {
  // Heaps of numbers.

  ghost predicate Edge(r: seq<int>, j: nat)
    requires 2 <= j <= |r|
  {
    r[j / 2 - 1] <= r[j - 1]
  }

  ghost predicate Heap(r: seq<int>) {
    forall j {:trigger Edge(r, j)} :: 2 <= j <= |r| ==> Edge(r, j)
  }

  /** The grandparent of `j` is not above it. */
  ghost predicate Grand(r: seq<int>, j: nat)
    requires 4 <= j <= |r|
  {
    r[j / 2 / 2 - 1] <= r[j - 1]
  }

  function Exchange<T>(s: seq<T>, i: nat, j: nat): (t: seq<T>)
    requires 1 <= i <= |s| && 1 <= j <= |s|
    ensures |t| == |s|
  {
    s[i - 1 := s[j - 1]][j - 1 := s[i - 1]]
  }

  lemma ExchangeBag<T>(s: seq<T>, i: nat, j: nat)
    requires 1 <= i <= |s| && 1 <= j <= |s|
    ensures multiset(Exchange(s, i, j)) == multiset(s)
  {
  }

  /** Only the edge into `c` may be out of order while an entry rises. */
  ghost predicate Rising(r: seq<int>, c: nat) {
    && 1 <= c <= |r|
    && (forall j {:trigger Edge(r, j)} :: 2 <= j <= |r| && j != c ==> Edge(r, j))
    && (forall j {:trigger Grand(r, j)} :: 4 <= j <= |r| && j / 2 == c ==> Grand(r, j))
  }

  lemma RiseStep(r: seq<int>, c: nat)
    requires Rising(r, c) && 2 <= c && !Edge(r, c)
    ensures Rising(Exchange(r, c / 2, c), c / 2)
  {
    var t, p := Exchange(r, c / 2, c), c / 2;
    forall j | 2 <= j <= |t| && j != p ensures Edge(t, j) {
      if j != c {
        assert Edge(r, j);
        if j / 2 == c {
          assert Grand(r, j);
        }
      }
    }
    forall j | 4 <= j <= |t| && j / 2 == p ensures Grand(t, j) {
      assert Edge(r, p);
      if j != c {
        assert Edge(r, j);
      }
    }
  }

  lemma RiseDone(r: seq<int>, c: nat)
    requires Rising(r, c) && (c == 1 || Edge(r, c))
    ensures Heap(r)
  {
  }

  /** Only the edges out of `p` and the one into `top` may be out of order while an entry sinks from `top`. */
  ghost predicate Sinking(r: seq<int>, top: nat, p: nat) {
    && 1 <= top <= p <= |r|
    && (forall j {:trigger Edge(r, j)} :: 2 <= j <= |r| && j / 2 != p && j != top ==> Edge(r, j))
    && (p != top ==> forall j {:trigger Grand(r, j)} :: 4 <= j <= |r| && j / 2 == p ==> Grand(r, j))
  }

  /** `c` is the least child of `p`. */
  ghost predicate LeastChild(r: seq<int>, p: nat, c: nat) {
    && 1 <= p && c / 2 == p && 2 <= c <= |r|
    && forall j :: 2 <= j <= |r| && j / 2 == p ==> r[c - 1] <= r[j - 1]
  }

  lemma SinkStep(r: seq<int>, top: nat, p: nat, c: nat)
    requires Sinking(r, top, p) && LeastChild(r, p, c) && !Edge(r, c)
    ensures Sinking(Exchange(r, c, p), top, c)
  {
    var t := Exchange(r, c, p);
    forall j | 2 <= j <= |t| && j / 2 != c && j != top ensures Edge(t, j) {
      if j == p {
        assert Grand(r, c);
      } else if j / 2 != p {
        assert Edge(r, j);
      }
    }
    forall j | 4 <= j <= |t| && j / 2 == c ensures Grand(t, j) {
      assert Edge(r, j);
    }
  }

  /** All edges but the one into `top` are in order. */
  ghost predicate HeapBelow(r: seq<int>, top: nat) {
    forall j {:trigger Edge(r, j)} :: 2 <= j <= |r| && j != top ==> Edge(r, j)
  }

  lemma SinkDone(r: seq<int>, top: nat, p: nat, c: nat)
    requires Sinking(r, top, p) && (2 * p > |r| || (LeastChild(r, p, c) && Edge(r, c)))
    ensures HeapBelow(r, top)
  {
  }

  /** The head of a heap is a minimum. */
  lemma {:induction false} HeadLeast(r: seq<int>, j: nat)
    requires Heap(r) && 1 <= j <= |r|
    ensures r[0] <= r[j - 1]
  {
    if j >= 2 {
      assert Edge(r, j);
      HeadLeast(r, j / 2);
    }
  }

  // Heaps of elements, by a comparison.

  /** The comparison orders two elements as their ranks do. */
  ghost predicate Agree<T>(cmp: (T, T) -> int, rank: T -> int, x: T, y: T) {
    (cmp(x, y) <= 0 <==> rank(x) <= rank(y)) && (cmp(x, y) < 0 <==> rank(x) < rank(y))
  }

  ghost predicate Agrees<T>(cmp: (T, T) -> int, rank: T -> int, s: seq<T>) {
    forall x, y {:trigger Agree(cmp, rank, x, y)} :: x in s && y in s ==> Agree(cmp, rank, x, y)
  }

  lemma AgreesBag<T>(cmp: (T, T) -> int, rank: T -> int, s: seq<T>, t: seq<T>)
    requires Agrees(cmp, rank, s) && multiset(t) <= multiset(s)
    ensures Agrees(cmp, rank, t)
  {
    forall x | x in t ensures x in s {
      assert x in multiset(t);
    }
  }

  function Ranks<T>(rank: T -> int, s: seq<T>): (r: seq<int>)
    ensures |r| == |s| && forall i :: 0 <= i < |s| ==> r[i] == rank(s[i])
  {
    seq(|s|, i requires 0 <= i < |s| => rank(s[i]))
  }

  lemma RanksPrefix<T>(rank: T -> int, s: seq<T>, t: seq<T>, n: nat)
    requires n <= |s| && n <= |t| && s[..n] == t[..n]
    ensures Ranks(rank, s)[..n] == Ranks(rank, t)[..n]
  {
    forall k | 0 <= k < n ensures Ranks(rank, s)[k] == Ranks(rank, t)[k] {
      assert s[..n][k] == t[..n][k];
    }
  }

  ghost predicate Below<T>(cmp: (T, T) -> int, s: seq<T>, j: nat)
    requires 2 <= j <= |s|
  {
    cmp(s[j / 2 - 1], s[j - 1]) <= 0
  }

  /** Heap order by the comparison. */
  ghost predicate Ordered<T>(cmp: (T, T) -> int, s: seq<T>) {
    forall j {:trigger Below(cmp, s, j)} :: 2 <= j <= |s| ==> Below(cmp, s, j)
  }

  lemma OrderedRanks<T>(cmp: (T, T) -> int, rank: T -> int, s: seq<T>)
    requires Agrees(cmp, rank, s)
    ensures Ordered(cmp, s) <==> Heap(Ranks(rank, s))
  {
    forall j | 2 <= j <= |s| ensures Below(cmp, s, j) <==> Edge(Ranks(rank, s), j) {
      assert Agree(cmp, rank, s[j / 2 - 1], s[j - 1]);
    }
  }

  lemma ExchangeRanks<T>(rank: T -> int, s: seq<T>, i: nat, j: nat)
    requires 1 <= i <= |s| && 1 <= j <= |s|
    ensures Ranks(rank, Exchange(s, i, j)) == Exchange(Ranks(rank, s), i, j)
  {
  }

  /** The least child of `p`. */
  function Picked<T>(cmp: (T, T) -> int, s: seq<T>, p: nat): (c: nat)
    requires 1 <= p && 2 * p <= |s|
    ensures p < c <= |s| && c / 2 == p
  {
    if 2 * p < |s| && cmp(s[2 * p], s[2 * p - 1]) < 0 then 2 * p + 1 else 2 * p
  }

  /** The element at `c` moves up past every parent that is greater. */
  function Rise<T>(cmp: (T, T) -> int, s: seq<T>, c: nat): (t: seq<T>)
    requires 1 <= c <= |s|
    ensures |t| == |s|
    decreases c
  {
    if c == 1 || cmp(s[c / 2 - 1], s[c - 1]) <= 0 then s else Rise(cmp, Exchange(s, c / 2, c), c / 2)
  }

  /** The element at `p` moves down past the least child while that is less. */
  function Sink<T>(cmp: (T, T) -> int, s: seq<T>, p: nat): (t: seq<T>)
    requires 1 <= p <= |s|
    ensures |t| == |s|
    decreases |s| - p
  {
    if 2 * p > |s| then s
    else
      var c := Picked(cmp, s, p);
      if cmp(s[p - 1], s[c - 1]) <= 0 then s else Sink(cmp, Exchange(s, c, p), c)
  }

  lemma PickedLeast<T>(cmp: (T, T) -> int, rank: T -> int, s: seq<T>, p: nat)
    requires Agrees(cmp, rank, s) && 1 <= p && 2 * p <= |s|
    ensures LeastChild(Ranks(rank, s), p, Picked(cmp, s, p))
  {
    if 2 * p < |s| {
      assert Agree(cmp, rank, s[2 * p], s[2 * p - 1]);
    }
  }

  /** Rising only moves elements. */
  lemma {:induction false} RiseBag<T>(cmp: (T, T) -> int, s: seq<T>, c: nat)
    requires 1 <= c <= |s|
    ensures multiset(Rise(cmp, s, c)) == multiset(s)
    decreases c
  {
    if c != 1 {
      ExchangeBag(s, c / 2, c);
      RiseBag(cmp, Exchange(s, c / 2, c), c / 2);
    }
  }

  /** Rising repairs the one edge that may be out of order. */
  lemma {:induction false} RiseHeap<T>(cmp: (T, T) -> int, rank: T -> int, s: seq<T>, c: nat)
    requires Agrees(cmp, rank, s) && Rising(Ranks(rank, s), c)
    ensures Heap(Ranks(rank, Rise(cmp, s, c)))
    decreases c
  {
    if c == 1 {
      RiseDone(Ranks(rank, s), c);
    } else {
      assert Agree(cmp, rank, s[c / 2 - 1], s[c - 1]);
      if cmp(s[c / 2 - 1], s[c - 1]) <= 0 {
        RiseDone(Ranks(rank, s), c);
      } else {
        RiseStep(Ranks(rank, s), c);
        ExchangeRanks(rank, s, c / 2, c);
        RiseHeap(cmp, rank, Exchange(s, c / 2, c), c / 2);
      }
    }
  }

  /** Sinking only moves elements. */
  lemma {:induction false} SinkBag<T>(cmp: (T, T) -> int, s: seq<T>, p: nat)
    requires 1 <= p <= |s|
    ensures multiset(Sink(cmp, s, p)) == multiset(s)
    decreases |s| - p
  {
    if 2 * p <= |s| {
      var c := Picked(cmp, s, p);
      ExchangeBag(s, c, p);
      SinkBag(cmp, Exchange(s, c, p), c);
    }
  }

  /** Slots before the one an element sinks from stay as they are. */
  lemma {:induction false} SinkAt<T>(cmp: (T, T) -> int, s: seq<T>, p: nat, k: nat)
    requires 1 <= k < p <= |s|
    ensures Sink(cmp, s, p)[k - 1] == s[k - 1]
    decreases |s| - p
  {
    if 2 * p <= |s| {
      var c := Picked(cmp, s, p);
      SinkAt(cmp, Exchange(s, c, p), c, k);
    }
  }

  lemma SinkPrefix<T>(cmp: (T, T) -> int, s: seq<T>, p: nat)
    requires 1 <= p <= |s|
    ensures Sink(cmp, s, p)[..p - 1] == s[..p - 1]
  {
    forall k | 0 <= k < p - 1 ensures Sink(cmp, s, p)[k] == s[k] {
      SinkAt(cmp, s, p, k + 1);
    }
  }

  /** An element no greater than its least child has arrived. */
  lemma SinkStop<T>(cmp: (T, T) -> int, rank: T -> int, s: seq<T>, top: nat, p: nat)
    requires Agrees(cmp, rank, s) && Sinking(Ranks(rank, s), top, p) && 2 * p <= |s|
    requires cmp(s[p - 1], s[Picked(cmp, s, p) - 1]) <= 0
    ensures HeapBelow(Ranks(rank, s), top)
  {
    var c := Picked(cmp, s, p);
    PickedLeast(cmp, rank, s, p);
    assert Agree(cmp, rank, s[p - 1], s[c - 1]);
    SinkDone(Ranks(rank, s), top, p, c);
  }

  /** One exchange with the least child moves the disorder down to it. */
  lemma SinkTurn<T>(cmp: (T, T) -> int, rank: T -> int, s: seq<T>, top: nat, p: nat)
    requires Agrees(cmp, rank, s) && Sinking(Ranks(rank, s), top, p) && 2 * p <= |s|
    requires cmp(s[p - 1], s[Picked(cmp, s, p) - 1]) > 0
    ensures var c := Picked(cmp, s, p); var t := Exchange(s, c, p);
            Agrees(cmp, rank, t) && Sinking(Ranks(rank, t), top, c)
  {
    var c := Picked(cmp, s, p);
    PickedLeast(cmp, rank, s, p);
    assert Agree(cmp, rank, s[p - 1], s[c - 1]);
    SinkStep(Ranks(rank, s), top, p, c);
    ExchangeRanks(rank, s, c, p);
  }

  /** Sinking repairs the edges below, all but the one into the slot it started from. */
  lemma {:induction false} SinkHeap<T>(cmp: (T, T) -> int, rank: T -> int, s: seq<T>, top: nat, p: nat)
    requires Agrees(cmp, rank, s) && Sinking(Ranks(rank, s), top, p)
    ensures HeapBelow(Ranks(rank, Sink(cmp, s, p)), top)
    decreases |s| - p
  {
    if 2 * p > |s| {
      SinkDone(Ranks(rank, s), top, p, 0);
    } else {
      var c := Picked(cmp, s, p);
      if cmp(s[p - 1], s[c - 1]) <= 0 {
        SinkStop(cmp, rank, s, top, p);
      } else {
        SinkTurn(cmp, rank, s, top, p);
        SinkHeap(cmp, rank, Exchange(s, c, p), top, c);
      }
    }
  }

  /** What sinking leaves at its first slot: the element itself if no child is less, else a lesser child. */
  ghost predicate TopAfter(r: seq<int>, x: int, top: nat) {
    || (1 <= top <= |r| && x == r[top - 1] && forall j :: 2 <= j <= |r| && j / 2 == top ==> x <= r[j - 1])
    || (1 <= top <= |r| && exists j :: 2 <= j <= |r| && j / 2 == top && x == r[j - 1] < r[top - 1])
  }

  lemma SinkTop<T>(cmp: (T, T) -> int, rank: T -> int, s: seq<T>, top: nat)
    requires Agrees(cmp, rank, s) && 1 <= top <= |s|
    ensures TopAfter(Ranks(rank, s), rank(Sink(cmp, s, top)[top - 1]), top)
  {
    if 2 * top <= |s| {
      var c := Picked(cmp, s, top);
      PickedLeast(cmp, rank, s, top);
      assert Agree(cmp, rank, s[top - 1], s[c - 1]);
      if cmp(s[top - 1], s[c - 1]) > 0 {
        SinkAt(cmp, Exchange(s, c, top), c, top);
        assert Sink(cmp, s, top)[top - 1] == s[c - 1];
        assert rank(s[c - 1]) == Ranks(rank, s)[c - 1];
      }
    }
  }

  // Insertion.

  function Inserted<T>(cmp: (T, T) -> int, s: seq<T>, x: T): seq<T> {
    Rise(cmp, s + [x], |s| + 1)
  }

  lemma InsertRising<T>(rank: T -> int, s: seq<T>, x: T)
    requires Heap(Ranks(rank, s))
    ensures Rising(Ranks(rank, s + [x]), |s| + 1)
  {
    var r, r' := Ranks(rank, s), Ranks(rank, s + [x]);
    forall j | 2 <= j <= |s| ensures Edge(r', j) {
      assert Edge(r, j);
    }
  }

  /** Inserting keeps the order and adds the element. */
  lemma InsertOrder<T>(cmp: (T, T) -> int, rank: T -> int, s: seq<T>, x: T)
    requires Agrees(cmp, rank, s + [x]) && Ordered(cmp, s)
    ensures Ordered(cmp, Inserted(cmp, s, x)) && multiset(Inserted(cmp, s, x)) == multiset(s) + multiset{x}
  {
    assert Agrees(cmp, rank, s);
    OrderedRanks(cmp, rank, s);
    InsertRising(rank, s, x);
    RiseHeap(cmp, rank, s + [x], |s| + 1);
    RiseBag(cmp, s + [x], |s| + 1);
    AgreesBag(cmp, rank, s + [x], Inserted(cmp, s, x));
    OrderedRanks(cmp, rank, Inserted(cmp, s, x));
  }

  // Removal.

  /** The elements left when the last one takes the place of the one at `i`. */
  function Moved<T>(s: seq<T>, i: nat): (t: seq<T>)
    requires 1 <= i < |s|
    ensures |t| == |s| - 1
  {
    s[..|s| - 1][i - 1 := s[|s| - 1]]
  }

  function Removed<T>(cmp: (T, T) -> int, s: seq<T>, i: nat): (t: seq<T>)
    requires 1 <= i <= |s|
    ensures |t| == |s| - 1
  {
    if i == |s| then s[..|s| - 1] else Sink(cmp, Moved(s, i), i)
  }

  /** A removal keeps the other elements. */
  lemma RemoveBag<T>(cmp: (T, T) -> int, s: seq<T>, i: nat)
    requires 1 <= i <= |s|
    ensures multiset(Removed(cmp, s, i)) == multiset(s) - multiset{s[i - 1]}
  {
    MovedBag(s, i);
    if i < |s| {
      SinkBag(cmp, Moved(s, i), i);
    }
  }

  lemma MovedBag<T>(s: seq<T>, i: nat)
    requires 1 <= i <= |s|
    ensures multiset(if i == |s| then s[..|s| - 1] else Moved(s, i)) == multiset(s) - multiset{s[i - 1]}
  {
    assert s == s[..|s| - 1] + [s[|s| - 1]];
    assert multiset(s) == multiset(s[..|s| - 1]) + multiset{s[|s| - 1]};
  }

  /** The moved element is not less than the parent of the slot it moves to. */
  ghost predicate RemoveKeepsOrder<T>(cmp: (T, T) -> int, s: seq<T>, i: nat)
    requires 1 <= i <= |s|
  {
    i == 1 || i == |s| || cmp(s[|s| - 1], s[i / 2 - 1]) >= 0
  }

  lemma PrefixHeap<T>(rank: T -> int, s: seq<T>)
    requires Heap(Ranks(rank, s)) && |s| > 0
    ensures Heap(Ranks(rank, s[..|s| - 1]))
  {
    var r := Ranks(rank, s[..|s| - 1]);
    forall j | 2 <= j <= |r| ensures Edge(r, j) {
      assert Edge(Ranks(rank, s), j);
    }
  }

  lemma MovedSinking<T>(rank: T -> int, s: seq<T>, i: nat)
    requires Heap(Ranks(rank, s)) && 1 <= i < |s|
    ensures Sinking(Ranks(rank, Moved(s, i)), i, i)
  {
    var r, r' := Ranks(rank, s), Ranks(rank, Moved(s, i));
    forall j | 2 <= j <= |r'| && j / 2 != i && j != i ensures Edge(r', j) {
      assert Edge(r, j);
    }
  }

  /** The edge into slot `i` after something sank from it. */
  lemma EdgeInto(r: seq<int>, m: seq<int>, r': seq<int>, i: nat)
    requires Heap(r) && 2 <= i <= |m| <= |r| && |r'| == |m| && m[..i - 1] == r[..i - 1] && m[i..] == r[i..|m|]
    requires r'[..i - 1] == r[..i - 1] && TopAfter(m, r'[i - 1], i)
    ensures Edge(r', i) <==> m[i - 1] >= r[i / 2 - 1]
  {
    assert r'[..i - 1][i / 2 - 1] == r[..i - 1][i / 2 - 1];
    assert Edge(r, i);
    forall j | 2 <= j <= |m| && j / 2 == i ensures m[j - 1] >= r[i / 2 - 1] {
      assert Edge(r, j);
      assert m[i..][j - 1 - i] == r[i..|m|][j - 1 - i];
    }
  }

  /** Ranks before, after the last element moved into slot `i`, and after it sank. */
  lemma RemovedRanks<T>(cmp: (T, T) -> int, rank: T -> int, s: seq<T>, i: nat)
    requires Agrees(cmp, rank, s) && 1 < i < |s|
    ensures var r, m, r' := Ranks(rank, s), Ranks(rank, Moved(s, i)), Ranks(rank, Removed(cmp, s, i));
            && |r'| == |m| == |s| - 1 && m[..i - 1] == r[..i - 1] && m[i..] == r[i..|m|] && m[i - 1] == r[|s| - 1]
            && r'[..i - 1] == r[..i - 1] && TopAfter(m, r'[i - 1], i)
  {
    var m, t := Moved(s, i), Removed(cmp, s, i);
    MovedBag(s, i);
    AgreesBag(cmp, rank, s, m);
    SinkTop(cmp, rank, m, i);
    SinkPrefix(cmp, m, i);
    RanksPrefix(rank, t, m, i - 1);
    RanksPrefix(rank, m, s, i - 1);
    assert Ranks(rank, m)[i..] == Ranks(rank, s)[i..|m|];
  }

  lemma RemovedEdge<T>(cmp: (T, T) -> int, rank: T -> int, s: seq<T>, i: nat)
    requires Agrees(cmp, rank, s) && Heap(Ranks(rank, s)) && 1 < i < |s|
    ensures Edge(Ranks(rank, Removed(cmp, s, i)), i) <==> cmp(s[|s| - 1], s[i / 2 - 1]) >= 0
  {
    RemovedRanks(cmp, rank, s, i);
    EdgeInto(Ranks(rank, s), Ranks(rank, Moved(s, i)), Ranks(rank, Removed(cmp, s, i)), i);
    assert Agree(cmp, rank, s[|s| - 1], s[i / 2 - 1]);
  }

  /** The order after a removal, exactly: what the comment of the source claims for every slot needs this condition. */
  lemma RemoveOrder<T>(cmp: (T, T) -> int, rank: T -> int, s: seq<T>, i: nat)
    requires Agrees(cmp, rank, s) && Ordered(cmp, s) && 1 <= i <= |s|
    ensures Ordered(cmp, Removed(cmp, s, i)) <==> RemoveKeepsOrder(cmp, s, i)
  {
    var t := Removed(cmp, s, i);
    RemoveBag(cmp, s, i);
    AgreesBag(cmp, rank, s, t);
    OrderedRanks(cmp, rank, s);
    OrderedRanks(cmp, rank, t);
    if i == |s| {
      PrefixHeap(rank, s);
    } else {
      MovedSinking(rank, s, i);
      MovedBag(s, i);
      AgreesBag(cmp, rank, s, Moved(s, i));
      SinkHeap(cmp, rank, Moved(s, i), i, i);
      if i > 1 {
        RemovedEdge(cmp, rank, s, i);
        assert Heap(Ranks(rank, t)) <==> Edge(Ranks(rank, t), i);
      }
    }
  }

  // Change of rank.

  /** A lower rank leaves an element that can only rise. */
  lemma LoweredRising(r: seq<int>, i: nat, x: int)
    requires Heap(r) && 1 <= i <= |r| && x <= r[i - 1]
    ensures Rising(r[i - 1 := x], i)
  {
    var r' := r[i - 1 := x];
    forall j | 2 <= j <= |r| && j != i ensures Edge(r', j) {
      assert Edge(r, j);
    }
    forall j | 4 <= j <= |r| && j / 2 == i ensures Grand(r', j) {
      assert Edge(r, j) && Edge(r, i);
    }
  }

  /** A higher rank leaves an element that can only sink. */
  lemma RaisedSinking(r: seq<int>, i: nat, x: int)
    requires Heap(r) && 1 <= i <= |r|
    ensures Sinking(r[i - 1 := x], i, i)
  {
    var r' := r[i - 1 := x];
    forall j | 2 <= j <= |r| && j / 2 != i && j != i ensures Edge(r', j) {
      assert Edge(r, j);
    }
  }

  lemma RaisedHeap<T>(cmp: (T, T) -> int, rank: T -> int, s: seq<T>, i: nat, x: T)
    requires Heap(Ranks(rank, s)) && 1 <= i <= |s| && Agrees(cmp, rank, s[i - 1 := x]) && rank(x) >= rank(s[i - 1])
    ensures Heap(Ranks(rank, Sink(cmp, s[i - 1 := x], i)))
  {
    var r, m := Ranks(rank, s), s[i - 1 := x];
    assert Ranks(rank, m) == r[i - 1 := rank(x)];
    RaisedSinking(r, i, rank(x));
    SinkHeap(cmp, rank, m, i, i);
    if i > 1 {
      SinkTop(cmp, rank, m, i);
      SinkPrefix(cmp, m, i);
      RanksPrefix(rank, Sink(cmp, m, i), m, i - 1);
      assert Edge(r, i);
      EdgeInto(r, Ranks(rank, m), Ranks(rank, Sink(cmp, m, i)), i);
    }
  }

  lemma LoweredHeap<T>(cmp: (T, T) -> int, rank: T -> int, s: seq<T>, i: nat, x: T)
    requires Heap(Ranks(rank, s)) && 1 <= i <= |s| && Agrees(cmp, rank, s[i - 1 := x]) && rank(x) <= rank(s[i - 1])
    ensures Heap(Ranks(rank, Rise(cmp, s[i - 1 := x], i)))
  {
    assert Ranks(rank, s[i - 1 := x]) == Ranks(rank, s)[i - 1 := rank(x)];
    LoweredRising(Ranks(rank, s), i, rank(x));
    RiseHeap(cmp, rank, s[i - 1 := x], i);
  }

  // The head.

  /** The head of an ordered queue comes before every element. */
  lemma HeadFirst<T>(cmp: (T, T) -> int, rank: T -> int, s: seq<T>)
    requires Agrees(cmp, rank, s) && Ordered(cmp, s) && s != []
    ensures forall y :: y in multiset(s) ==> cmp(s[0], y) <= 0
  {
    OrderedRanks(cmp, rank, s);
    forall i | 0 <= i < |s| ensures cmp(s[0], s[i]) <= 0 {
      HeadLeast(Ranks(rank, s), i + 1);
      assert Agree(cmp, rank, s[0], s[i]);
    }
  }

  /** The elements in the order repeated head removal gives them. */
  function Drain<T>(cmp: (T, T) -> int, s: seq<T>): seq<T>
    decreases |s|
  {
    if s == [] then [] else [s[0]] + Drain(cmp, Removed(cmp, s, 1))
  }

  lemma {:induction false} DrainBag<T>(cmp: (T, T) -> int, s: seq<T>)
    ensures multiset(Drain(cmp, s)) == multiset(s)
    decreases |s|
  {
    if s != [] {
      RemoveBag(cmp, s, 1);
      DrainBag(cmp, Removed(cmp, s, 1));
      assert s[0] in multiset(s);
    }
  }

  /** Draining gives the elements sorted. */
  lemma {:induction false} DrainSorted<T>(cmp: (T, T) -> int, rank: T -> int, s: seq<T>)
    requires Agrees(cmp, rank, s) && Ordered(cmp, s)
    ensures forall i, j :: 0 <= i < j < |Drain(cmp, s)| ==> cmp(Drain(cmp, s)[i], Drain(cmp, s)[j]) <= 0
    decreases |s|
  {
    if s != [] {
      var t := Removed(cmp, s, 1);
      RemoveBag(cmp, s, 1);
      AgreesBag(cmp, rank, s, t);
      RemoveOrder(cmp, rank, s, 1);
      DrainSorted(cmp, rank, t);
      HeadFirst(cmp, rank, s);
      DrainBag(cmp, s);
      forall i, j | 0 <= i < j < |Drain(cmp, s)| ensures cmp(Drain(cmp, s)[i], Drain(cmp, s)[j]) <= 0 {
        if i > 0 {
          assert Drain(cmp, s)[i] == Drain(cmp, t)[i - 1] && Drain(cmp, s)[j] == Drain(cmp, t)[j - 1];
        } else {
          assert Drain(cmp, s)[j] in multiset(Drain(cmp, s));
        }
      }
    }
  }
}
