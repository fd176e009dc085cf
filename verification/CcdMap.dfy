/**
 The address arithmetic of a concatenated disk, apart from any table.

 A component with `cs[d]` chunks is a column of `cs[d]` cells; row `r` of the
 array holds one chunk of every component that has more than `r` chunks.  The
 concatenated disk numbers the cells row by row, and within a row by component.
 `Rank` is that numbering: the reference against which the interleave table of
 module Ccd is proved.
 */
module CcdMap {
  import opened Numbers

  function Min(a: int, b: int): int {
    if a < b then a else b
  }

  function Sum(s: seq<int>): int {
    if s == [] then 0 else Sum(s[..|s| - 1]) + s[|s| - 1]
  }

  /** Number of cells in rows before `r`. */
  function Below(cs: seq<int>, r: int): int {
    if cs == [] then 0 else Below(cs[..|cs| - 1], r) + Min(cs[|cs| - 1], r)
  }

  /** Components that reach row `r`, in order. */
  function Active(cs: seq<int>, r: int): seq<int> {
    if cs == [] then []
    else if cs[|cs| - 1] > r then Active(cs[..|cs| - 1], r) + [|cs| - 1]
    else Active(cs[..|cs| - 1], r)
  }

  /** The logical number of the cell in row `r` of component `d`. */
  function Rank(cs: seq<int>, d: int, r: int): int
    requires 0 <= d < |cs|
  {
    Below(cs, r) + |Active(cs[..d], r)|
  }

  lemma {:induction false} ActiveMembers(cs: seq<int>, r: int)
    ensures forall d :: d in Active(cs, r) <==> 0 <= d < |cs| && cs[d] > r
  {
    if cs != [] {
      ActiveMembers(cs[..|cs| - 1], r);
    }
  }

  /** The i-th component of a row has exactly `i` row-mates before it. */
  lemma {:induction false} ActivePosition(cs: seq<int>, r: int, i: int)
    requires 0 <= i < |Active(cs, r)|
    ensures 0 <= Active(cs, r)[i] < |cs| && cs[Active(cs, r)[i]] > r
    ensures |Active(cs[..Active(cs, r)[i]], r)| == i
  {
    var init := cs[..|cs| - 1];
    if i < |Active(init, r)| {
      ActivePosition(init, r, i);
      var d := Active(init, r)[i];
      assert init[..d] == cs[..d];
    } else {
      assert cs[..Active(cs, r)[i]] == init;
    }
  }

  lemma {:induction false} ActivePrefix(cs: seq<int>, r: int, d: int)
    requires 0 <= d <= |cs|
    ensures Active(cs[..d], r) <= Active(cs, r)
    ensures d < |cs| && cs[d] > r ==>
              |Active(cs[..d], r)| < |Active(cs, r)| && Active(cs, r)[|Active(cs[..d], r)|] == d
    decreases |cs|
  {
    if d < |cs| {
      var init := cs[..|cs| - 1];
      ActivePrefix(init, r, d);
      assert init[..d] == cs[..d];
    } else {
      assert cs[..d] == cs;
    }
  }

  /** Row `r` adds one cell per component that reaches it. */
  lemma {:induction false} BelowStep(cs: seq<int>, r: int)
    ensures Below(cs, r + 1) == Below(cs, r) + |Active(cs, r)|
  {
    if cs != [] {
      BelowStep(cs[..|cs| - 1], r);
    }
  }

  lemma {:induction false} BelowMonotone(cs: seq<int>, r: int, r': int)
    requires r <= r'
    ensures Below(cs, r) <= Below(cs, r')
  {
    if cs != [] {
      BelowMonotone(cs[..|cs| - 1], r, r');
    }
  }

  lemma {:induction false} BelowZero(cs: seq<int>)
    requires forall d :: 0 <= d < |cs| ==> cs[d] >= 0
    ensures Below(cs, 0) == 0
  {
    if cs != [] {
      BelowZero(cs[..|cs| - 1]);
    }
  }

  lemma {:induction false} BelowTop(cs: seq<int>, r: int)
    requires forall d :: 0 <= d < |cs| ==> cs[d] <= r
    ensures Below(cs, r) == Sum(cs) && Active(cs, r) == []
  {
    if cs != [] {
      BelowTop(cs[..|cs| - 1], r);
    }
  }

  /** No component ends strictly between rows `lo` and `hi`. */
  ghost predicate Gap(cs: seq<int>, lo: int, hi: int) {
    forall d :: 0 <= d < |cs| ==> cs[d] <= lo || cs[d] >= hi
  }

  lemma {:induction false} GapActive(cs: seq<int>, lo: int, hi: int, r: int)
    requires lo <= r < hi && Gap(cs, lo, hi)
    ensures Active(cs, r) == Active(cs, lo)
  {
    if cs != [] {
      GapActive(cs[..|cs| - 1], lo, hi, r);
    }
  }

  /** Within a gap every row is as wide as the first, so the numbering is linear. */
  lemma {:induction false} GapBelow(cs: seq<int>, lo: int, hi: int, r: int)
    requires lo <= r <= hi && Gap(cs, lo, hi)
    ensures Below(cs, r) == Below(cs, lo) + (r - lo) * |Active(cs, lo)|
    decreases r - lo
  {
    if lo < r {
      GapBelow(cs, lo, hi, r - 1);
      GapActive(cs, lo, hi, r - 1);
      BelowStep(cs, r - 1);
      var a := |Active(cs, lo)|;
      assert (r - lo) * a == (r - 1 - lo) * a + a;
    }
  }

  /** Dividing an offset inside a gap by the row width names the cell of that rank. */
  lemma GapLookup(cs: seq<int>, lo: int, hi: int, c: int)
    requires Gap(cs, lo, hi) && lo < hi
    requires Below(cs, lo) <= c < Below(cs, hi)
    ensures |Active(cs, lo)| > 0
    ensures var a := |Active(cs, lo)|; var off := c - Below(cs, lo);
            var d := Active(cs, lo)[off % a]; var r := lo + off / a;
            && 0 <= d < |cs| && lo <= r < cs[d] && r < hi
            && Rank(cs, d, r) == c
  {
    var a := |Active(cs, lo)|;
    GapBelow(cs, lo, hi, hi);
    var off := c - Below(cs, lo);
    assert 0 <= off < (hi - lo) * a;
    DivBounds(off, a, hi - lo);
    var r := lo + off / a;
    GapActive(cs, lo, hi, r);
    ActivePosition(cs, lo, off % a);
    var d := Active(cs, lo)[off % a];
    GapBelow(cs, lo, hi, r);
    ActivePosition(cs, r, off % a);
  }

  lemma DivBounds(off: int, a: int, n: int)
    requires 0 <= off < n * a && 0 <= a
    ensures 0 < a && 0 <= off / a < n && 0 <= off % a < a && off == (off / a) * a + off % a
  {
  }

  lemma RankInRow(cs: seq<int>, d: int, r: int)
    requires 0 <= d < |cs| && cs[d] > r
    ensures Below(cs, r) <= Rank(cs, d, r) < Below(cs, r + 1)
  {
    ActivePrefix(cs, r, d);
    BelowStep(cs, r);
  }

  /** Distinct cells have distinct ranks. */
  lemma RankInjective(cs: seq<int>, d: int, r: int, d': int, r': int)
    requires 0 <= d < |cs| && cs[d] > r
    requires 0 <= d' < |cs| && cs[d'] > r'
    requires Rank(cs, d, r) == Rank(cs, d', r')
    ensures d == d' && r == r'
  {
    RankInRow(cs, d, r);
    RankInRow(cs, d', r');
    if r < r' {
      BelowMonotone(cs, r + 1, r');
    } else if r' < r {
      BelowMonotone(cs, r' + 1, r);
    }
    ActivePrefix(cs, r, d);
    ActivePrefix(cs, r, d');
  }

  /** Every cell has a rank below the total number of cells. */
  lemma RankBounds(cs: seq<int>, d: int, r: int)
    requires forall k :: 0 <= k < |cs| ==> cs[k] >= 0
    requires 0 <= d < |cs| && 0 <= r < cs[d]
    ensures 0 <= Rank(cs, d, r) < Sum(cs)
  {
    RankInRow(cs, d, r);
    BelowZero(cs);
    BelowMonotone(cs, 0, r);
    BelowSum(cs, r + 1);
  }

  lemma {:induction false} BelowSum(cs: seq<int>, r: int)
    ensures Below(cs, r) <= Sum(cs)
  {
    if cs != [] {
      BelowSum(cs[..|cs| - 1], r);
    }
  }

  // ---- blocks ----

  /** Component sizes, in blocks, that the interleave `il` divides (`il` 0: plain concatenation). */
  ghost predicate WellSized(sizes: seq<int>, il: int) {
    && il >= 0
    && forall d :: 0 <= d < |sizes| ==> sizes[d] > 0 && (il > 0 ==> sizes[d] % il == 0)
  }

  function Chunks(sizes: seq<int>, il: int): (cs: seq<int>)
    requires il > 0
    ensures |cs| == |sizes| && forall d :: 0 <= d < |cs| ==> cs[d] == sizes[d] / il
  {
    seq(|sizes|, d requires 0 <= d < |sizes| => sizes[d] / il)
  }

  /**
   The logical block held at block `o` of component `d`: the row-by-row
   numbering of chunks refined to blocks, or plain concatenation.
   */
  function LogicalOf(sizes: seq<int>, il: int, d: int, o: int): int
    requires il >= 0 && 0 <= d < |sizes|
  {
    if il == 0 then Sum(sizes[..d]) + o
    else il * Rank(Chunks(sizes, il), d, o / il) + o % il
  }

  ghost predicate Cell(sizes: seq<int>, d: int, o: int) {
    0 <= d < |sizes| && 0 <= o < sizes[d]
  }

  lemma {:induction false} SumChunks(sizes: seq<int>, il: int)
    requires il > 0 && WellSized(sizes, il)
    ensures Sum(sizes) == il * Sum(Chunks(sizes, il))
  {
    if sizes != [] {
      var init := sizes[..|sizes| - 1];
      SumChunks(init, il);
      var cs := Chunks(sizes, il);
      assert cs[..|cs| - 1] == Chunks(init, il);
      assert sizes[|sizes| - 1] == il * cs[|cs| - 1];
      Distribute(il, Sum(cs[..|cs| - 1]), cs[|cs| - 1]);
    }
  }

  lemma Distribute(x: int, y: int, z: int)
    ensures x * (y + z) == x * y + x * z
  {
  }

  lemma {:induction false} PrefixSums(sizes: seq<int>, d: int, d': int)
    requires forall k :: 0 <= k < |sizes| ==> sizes[k] > 0
    requires 0 <= d < d' <= |sizes|
    ensures Sum(sizes[..d]) + sizes[d] <= Sum(sizes[..d'])
    ensures 0 <= Sum(sizes[..d])
    decreases d'
  {
    var init := sizes[..d'];
    assert init[..d' - 1] == sizes[..d' - 1];
    if d < d' - 1 {
      PrefixSums(sizes, d, d' - 1);
    } else if d > 0 {
      PrefixSums(sizes, d - 1, d);
    }
  }

  lemma CellChunk(sizes: seq<int>, il: int, d: int, o: int)
    requires il > 0 && WellSized(sizes, il) && Cell(sizes, d, o)
    ensures 0 <= o / il < Chunks(sizes, il)[d]
    ensures o == il * (o / il) + o % il && 0 <= o % il < il
  {
    var q := sizes[d] / il;
    assert sizes[d] == il * q;
    DivBounds(o, il, q);
  }

  /** Every block of every component has a logical number below the sum of the sizes. */
  lemma LogicalBounds(sizes: seq<int>, il: int, d: int, o: int)
    requires WellSized(sizes, il) && Cell(sizes, d, o)
    ensures 0 <= LogicalOf(sizes, il, d, o) < Sum(sizes)
  {
    if il == 0 {
      PrefixSums(sizes, d, |sizes|);
      assert sizes[..|sizes|] == sizes;
    } else {
      CellChunk(sizes, il, d, o);
      var cs := Chunks(sizes, il);
      forall k | 0 <= k < |cs| ensures cs[k] >= 0 { }
      RankBounds(cs, d, o / il);
      SumChunks(sizes, il);
      ScaledLess(il, Rank(cs, d, o / il), o % il, Sum(cs));
    }
  }

  lemma ScaledLess(il: int, q: int, m: int, n: int)
    requires 0 <= m < il && 0 <= q < n
    ensures 0 <= il * q + m < il * n
  {
    assert il * (q + 1) <= il * n;
    assert il * (q + 1) == il * q + il;
  }

  /** No two blocks share a logical number. */
  lemma LogicalInjective(sizes: seq<int>, il: int, d: int, o: int, d': int, o': int)
    requires WellSized(sizes, il) && Cell(sizes, d, o) && Cell(sizes, d', o')
    requires LogicalOf(sizes, il, d, o) == LogicalOf(sizes, il, d', o')
    ensures d == d' && o == o'
  {
    if il == 0 {
      if d < d' {
        PrefixSums(sizes, d, d');
      } else if d' < d {
        PrefixSums(sizes, d', d);
      }
    } else {
      var cs := Chunks(sizes, il);
      CellChunk(sizes, il, d, o);
      CellChunk(sizes, il, d', o');
      EuclidUnique(il, Rank(cs, d, o / il), o % il, Rank(cs, d', o' / il), o' % il);
      RankInjective(cs, d, o / il, d', o' / il);
    }
  }

  lemma {:induction false} FindRow(cs: seq<int>, c: int, top: int) returns (r: int)
    requires top >= 0 && Below(cs, 0) <= c < Below(cs, top)
    ensures 0 <= r < top && Below(cs, r) <= c < Below(cs, r + 1)
    decreases top
  {
    if c >= Below(cs, top - 1) {
      r := top - 1;
    } else {
      r := FindRow(cs, c, top - 1);
    }
  }

  lemma {:induction false} Tallest(cs: seq<int>) returns (top: int)
    ensures top >= 0 && forall d :: 0 <= d < |cs| ==> cs[d] <= top
  {
    top := 0;
    if cs != [] {
      top := Tallest(cs[..|cs| - 1]);
      top := if cs[|cs| - 1] > top then cs[|cs| - 1] else top;
    }
  }

  /** Every number below the total is the rank of a cell. */
  lemma RankSurjective(cs: seq<int>, c: int) returns (d: int, r: int)
    requires forall k :: 0 <= k < |cs| ==> cs[k] >= 0
    requires 0 <= c < Sum(cs)
    ensures 0 <= d < |cs| && 0 <= r < cs[d] && Rank(cs, d, r) == c
  {
    var top := Tallest(cs);
    BelowTop(cs, top);
    BelowZero(cs);
    r := FindRow(cs, c, top);
    BelowStep(cs, r);
    ActivePosition(cs, r, c - Below(cs, r));
    d := Active(cs, r)[c - Below(cs, r)];
  }

  lemma {:induction false} SerialSurjective(sizes: seq<int>, b: int) returns (d: int, o: int)
    requires 0 <= b < Sum(sizes)
    ensures Cell(sizes, d, o) && Sum(sizes[..d]) + o == b
  {
    var n := |sizes| - 1;
    if b >= Sum(sizes[..n]) {
      d, o := n, b - Sum(sizes[..n]);
    } else {
      d, o := SerialSurjective(sizes[..n], b);
      assert sizes[..n][..d] == sizes[..d];
    }
  }

  /** Every logical block below the sum of the sizes is some component's block. */
  lemma LogicalSurjective(sizes: seq<int>, il: int, b: int) returns (d: int, o: int)
    requires WellSized(sizes, il) && 0 <= b < Sum(sizes)
    ensures Cell(sizes, d, o) && LogicalOf(sizes, il, d, o) == b
  {
    if il == 0 {
      d, o := SerialSurjective(sizes, b);
    } else {
      var cs := Chunks(sizes, il);
      SumChunks(sizes, il);
      DivBounds(b, il, Sum(cs));
      var r;
      d, r := RankSurjective(cs, b / il);
      BlockOfChunk(sizes, il, d, r, b % il);
      o := il * r + b % il;
    }
  }

  /** Block `m` of chunk `r` on component `d`. */
  lemma BlockOfChunk(sizes: seq<int>, il: int, d: int, r: int, m: int)
    requires il > 0 && WellSized(sizes, il) && 0 <= d < |sizes| && 0 <= m < il
    requires 0 <= r < Chunks(sizes, il)[d]
    ensures Cell(sizes, d, il * r + m) && (il * r + m) % il == m
    ensures LogicalOf(sizes, il, d, il * r + m) == il * Rank(Chunks(sizes, il), d, r) + m
  {
    var o := il * r + m;
    assert o == il * (o / il) + o % il;
    EuclidUnique(il, o / il, o % il, r, m);
    assert sizes[d] == il * Chunks(sizes, il)[d];
    ScaledLess(il, r, m, Chunks(sizes, il)[d]);
  }
}
