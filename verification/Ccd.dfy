/**
 The concatenated disk driver: component sizing, construction of the interleave
 table, block lookup and request splitting.
 */
module Ccd {
  import opened CcdMap
  import opened Numbers

  const DEV_BSIZE := 512
  const CCD_OFFSET := 16
  const ENODEV := 19
  const EINVAL := 22

  /** One interleave group; an entry with `ndisk` 0 ends the table. */
  datatype IInfo = IInfo(ndisk: int, startblk: int, startoff: int, index: seq<int>)

  const ZeroInfo := IInfo(0, 0, 0, [])

  datatype Flags = Flags(uniform: bool, mirror: bool, noOffset: bool, linux: bool)

  datatype Command = Read | Write | Delete

  /** A request to the concatenated disk; offsets and lengths in bytes. */
  datatype Request = Request(cmd: Command, offset: int, length: int, data: int)

  /** A request to one component. */
  datatype ComponentBio = ComponentBio(disk: int, offset: int, length: int, data: int)

  /** C's remainder, which takes the sign of the dividend. */
  function CMod(a: int, b: int): int
    requires b > 0
  {
    if a >= 0 then a % b else -((-a) % b)
  }

  /** Assignment of a 64-bit block count to an `int`. */
  function IntCast(x: int): int {
    (x + 0x8000_0000) % 0x1_0000_0000 - 0x8000_0000
  }

  function OffsetFor(f: Flags): int {
    if f.linux || f.noOffset then 0 else CCD_OFFSET
  }

  /** Size of a component in blocks after the reserved blocks and truncation to the interleave. */
  function EffectiveSize(media: int, offset: int, il: int): int {
    var s := media / DEV_BSIZE - offset;
    if il > 1 then s - CMod(s, il) else s
  }

  function EffectiveSizes(media: seq<int>, offset: int, il: int): (e: seq<int>)
    ensures |e| == |media|
  {
    seq(|media|, d requires 0 <= d < |media| => EffectiveSize(media[d], offset, il))
  }

  /** Truncation never moves a count across zero. */
  lemma TruncatedSign(s: int, il: int)
    requires il > 0
    ensures s >= 0 ==> s - CMod(s, il) >= 0
    ensures s <= 0 ==> s - CMod(s, il) <= 0
  {
    var a := if s >= 0 then s else -s;
    assert 0 <= a % il <= a by {
      EuclidBound(a, il);
    }
  }

  lemma EuclidBound(a: int, il: int)
    requires il > 0 && a >= 0
    ensures 0 <= a % il <= a
  {
    if a < il {
      assert a % il == a;
    }
  }

  /**
   A component that survives the zero test has a positive size exactly when it is
   larger than the reserved area: the test alone lets negative sizes through.
   */
  lemma AcceptedSizePositive(media: int, offset: int, il: int)
    requires EffectiveSize(media, offset, il) != 0
    ensures EffectiveSize(media, offset, il) > 0 <==> media / DEV_BSIZE > offset
  {
    if il > 1 {
      TruncatedSign(media / DEV_BSIZE - offset, il);
    }
  }

  /** A component of one block is configured with the size -12. */
  method NegativeSizeAccepted() returns (cs: Softc, err: int)
    ensures err == 0 && cs.ndisks == cs.sizes.Length == 1 && cs.sizes[0] == cs.size == -12 && !cs.Valid()
  {
    cs := new Softc(Flags(false, false, false, false), 4, 1);
    var media := [512];
    err := cs.Init(media, media);
    assert EffectiveSize(512, CCD_OFFSET, 4) == -12;
    assert EffectiveSizes(media, CCD_OFFSET, 4) == [-12];
    assert media[0] / DEV_BSIZE == 1;
    SumOne(cs.sizes[..]);
  }

  lemma SumOne(s: seq<int>)
    requires |s| == 1
    ensures Sum(s) == s[0]
  {
    assert s[..0] == [];
  }

  /** What the interleave table makes of a size: none below zero. */
  function Clamped(sizes: seq<int>): (z: seq<int>)
    ensures |z| == |sizes| && forall d :: 0 <= d < |z| ==> z[d] == Max(0, sizes[d])
  {
    seq(|sizes|, d requires 0 <= d < |sizes| => Max(0, sizes[d]))
  }

  function Max(a: int, b: int): int {
    if a < b then b else a
  }

  ghost predicate Multiples(sizes: seq<int>, il: int) {
    && il >= 0
    && (il > 0 ==> forall d :: 0 <= d < |sizes| ==> sizes[d] % il == 0)
  }

  lemma ClampedMultiples(sizes: seq<int>, il: int)
    requires Multiples(sizes, il)
    ensures Multiples(Clamped(sizes), il) && forall d :: 0 <= d < |sizes| ==> Clamped(sizes)[d] >= 0
    ensures (forall d :: 0 <= d < |sizes| ==> sizes[d] > 0) ==> Clamped(sizes) == sizes && WellSized(sizes, il)
  {
  }

  // ---- the table ----

  /**
   `table` describes components of `cs` chunks: `levels` are the rows at which
   its groups begin, followed by the row at which the last component ends.
   */
  ghost predicate TableFor(cs: seq<int>, table: seq<IInfo>, levels: seq<int>) {
    && 0 < |levels| <= |table| && levels[0] == 0
    && (forall k :: 0 <= k < |levels| - 1 ==> Group(cs, table[k], levels[k], levels[k + 1]))
    && (forall d :: 0 <= d < |cs| ==> cs[d] <= levels[|levels| - 1])
    && table[|levels| - 1].ndisk == 0
  }

  ghost predicate Group(cs: seq<int>, ii: IInfo, lo: int, hi: int) {
    && lo < hi && Gap(cs, lo, hi) && hi in cs
    && ii == IInfo(|Active(cs, lo)|, Below(cs, lo), lo, Active(cs, lo))
    && ii.ndisk > 0
  }

  lemma {:induction false} LevelsIncrease(cs: seq<int>, table: seq<IInfo>, levels: seq<int>, j: int, k: int)
    requires TableFor(cs, table, levels) && 0 <= j <= k < |levels|
    ensures levels[j] <= levels[k]
    decreases k
  {
    if j < k {
      LevelsIncrease(cs, table, levels, j, k - 1);
      assert Group(cs, table[k - 1], levels[k - 1], levels[k]);
    }
  }

  /** The group chosen by the linear search holds the chunk. */
  lemma GroupHolds(cs: seq<int>, table: seq<IInfo>, levels: seq<int>, k: int, c: int)
    requires TableFor(cs, table, levels)
    requires forall d :: 0 <= d < |cs| ==> cs[d] >= 0
    requires 0 < k < |levels|
    requires 0 <= c < Sum(cs)
    requires table[k - 1].startblk <= c
    requires k < |levels| - 1 ==> c < table[k].startblk
    ensures Group(cs, table[k - 1], levels[k - 1], levels[k])
    ensures Below(cs, levels[k - 1]) <= c < Below(cs, levels[k])
  {
    assert Group(cs, table[k - 1], levels[k - 1], levels[k]);
    if k < |levels| - 1 {
      assert Group(cs, table[k], levels[k], levels[k + 1]);
    } else {
      BelowTop(cs, levels[k]);
    }
  }

  /** The chunk map of mirrored components is the map of the first half of them. */
  lemma {:induction false} EqualColumns(cs: seq<int>, m: int, r: int)
    requires 0 <= r < m && forall d :: 0 <= d < |cs| ==> cs[d] == m
    ensures |Active(cs, r)| == |cs| && forall d :: 0 <= d < |cs| ==> Active(cs, r)[d] == d
    ensures Below(cs, r) == |cs| * r
  {
    if cs != [] {
      var init := cs[..|cs| - 1];
      EqualColumns(init, m, r);
      assert |cs| * r == |init| * r + r;
    }
  }

  lemma EqualRank(cs: seq<int>, m: int, d: int, r: int)
    requires 0 <= r < m && 0 <= d < |cs| && forall k :: 0 <= k < |cs| ==> cs[k] == m
    ensures Rank(cs, d, r) == |cs| * r + d
  {
    EqualColumns(cs, m, r);
    EqualColumns(cs[..d], m, r);
  }

  /** Blocks of one chunk, or of one component when not interleaved, are consecutive. */
  lemma RunContiguous(sizes: seq<int>, il: int, d: int, o: int, t: int)
    requires WellSized(sizes, il) && Cell(sizes, d, o)
    requires 0 <= t < if il == 0 then sizes[d] - o else il - o % il
    ensures Cell(sizes, d, o + t)
    ensures LogicalOf(sizes, il, d, o + t) == LogicalOf(sizes, il, d, o) + t
  {
    if il > 0 {
      CellChunk(sizes, il, d, o);
      var q, m := o / il, o % il;
      assert o + t == il * q + (m + t);
      assert (o + t) / il == q && (o + t) % il == m + t by {
        EuclidUnique(il, (o + t) / il, (o + t) % il, q, m + t);
      }
      ChunkEnd(il, q, m + t, Chunks(sizes, il)[d]);
    }
  }

  lemma ChunkEnd(il: int, q: int, m: int, n: int)
    requires 0 <= m < il && 0 <= q < n
    ensures il * q + m < il * n
  {
    ScaledLess(il, q, m, n);
  }

  lemma {:induction false} ActiveShrinks(cs: seq<int>, lo: int, hi: int)
    requires lo <= hi
    ensures |Active(cs, hi)| <= |Active(cs, lo)|
    ensures (exists d :: 0 <= d < |cs| && lo < cs[d] <= hi) ==> |Active(cs, hi)| < |Active(cs, lo)|
  {
    if cs != [] {
      var init := cs[..|cs| - 1];
      ActiveShrinks(init, lo, hi);
      if d :| 0 <= d < |cs| && lo < cs[d] <= hi {
        assert d < |init| ==> lo < init[d] <= hi;
      }
    }
  }

  /** The running minimum of sizes: 0 stands for none yet. */
  function Least(s: seq<int>, n: int): int
    requires 0 <= n <= |s|
  {
    if n == 0 then 0 else
      var m := Least(s, n - 1);
      if m == 0 || s[n - 1] < m then s[n - 1] else m
  }

  lemma {:induction false} LeastIsMinimum(s: seq<int>, n: int)
    requires 0 < n <= |s| && forall d :: 0 <= d < n ==> s[d] != 0
    ensures exists d :: 0 <= d < n && s[d] == Least(s, n)
    ensures forall d :: 0 <= d < n ==> Least(s, n) <= s[d]
  {
    if n > 1 {
      LeastIsMinimum(s, n - 1);
    }
    assert s[n - 1] >= Least(s, n);
  }

  /** The running maximum of sector sizes, from 0. */
  function Largest(s: seq<int>, n: int): int
    requires 0 <= n <= |s|
  {
    if n == 0 then 0 else
      var m := Largest(s, n - 1);
      if s[n - 1] > m then s[n - 1] else m
  }

  lemma {:induction false} LargestIsMaximum(s: seq<int>, n: int)
    requires 0 < n <= |s| && forall d :: 0 <= d < n ==> s[d] >= 0
    ensures exists d :: 0 <= d < n && s[d] == Largest(s, n)
    ensures forall d :: 0 <= d < n ==> s[d] <= Largest(s, n)
  {
    if n > 1 {
      LargestIsMaximum(s, n - 1);
    }
    assert s[n - 1] <= Largest(s, n);
  }

  lemma SumStep(s: seq<int>, k: int)
    requires 0 <= k < |s|
    ensures Sum(s[..k + 1]) == Sum(s[..k]) + s[k]
  {
    assert s[..k + 1][..k] == s[..k];
  }

  lemma ScaledStep(il: int, b: int, a: int, lo: int, hi: int)
    ensures il * b + a * (il * hi - il * lo) == il * (b + (hi - lo) * a)
  {
    calc {
      il * b + a * (il * hi - il * lo);
      == { assert il * hi - il * lo == il * (hi - lo); }
      il * b + a * (il * (hi - lo));
      == { assert a * (il * (hi - lo)) == il * ((hi - lo) * a); }
      il * b + il * ((hi - lo) * a);
      ==
      il * (b + (hi - lo) * a);
    }
  }

  /** Sizes compare as their chunk counts do. */
  lemma ChunkOrder(sizes: seq<int>, il: int)
    requires il > 0 && Multiples(sizes, il)
    ensures var cs := Chunks(sizes, il);
            && (forall d :: 0 <= d < |cs| ==> sizes[d] == il * cs[d])
            && (forall d :: 0 <= d < |cs| && sizes[d] > 0 ==> cs[d] > 0)
            && (forall d :: 0 <= d < |cs| && sizes[d] >= 0 ==> cs[d] >= 0)
            && (forall d, l {:trigger il * l, cs[d]} :: 0 <= d < |cs| ==> (sizes[d] > il * l <==> cs[d] > l))
  {
    var cs := Chunks(sizes, il);
    forall d, l {:trigger il * l, cs[d]} | 0 <= d < |cs|
      ensures sizes[d] == il * cs[d] && (sizes[d] > 0 ==> cs[d] > 0) && (sizes[d] >= 0 ==> cs[d] >= 0)
      ensures sizes[d] > il * l <==> cs[d] > l
    {
      if cs[d] > l {
        MulStep(il, l, cs[d]);
      } else if cs[d] < l {
        MulStep(il, cs[d], l);
      }
    }
  }

  lemma ChunkBelow(il: int, b: int, n: int)
    requires il > 0 && 0 <= b < il * n
    ensures 0 <= b / il < n && b == il * (b / il) + b % il
  {
    DivBounds(b, il, n);
  }

  /** Equal components make one group, which begins at row 0. */
  lemma OneGroup(cs: seq<int>, table: seq<IInfo>, levels: seq<int>, k: int)
    requires TableFor(cs, table, levels) && 0 <= k < |levels| - 1
    requires |cs| > 0 && forall d :: 0 <= d < |cs| ==> cs[d] == cs[0] > 0
    ensures k == 0
  {
    assert Group(cs, table[0], levels[0], levels[1]);
    assert Group(cs, table[k], levels[k], levels[k + 1]);
    ActiveMembers(cs, levels[k]);
    assert Active(cs, levels[k])[0] in Active(cs, levels[k]);
    LevelsIncrease(cs, table, levels, if k == 0 then 0 else 1, k);
  }

  /** Striping over the first half of equal components. */
  lemma MirrorLookup(cs: seq<int>, h: int, m: int, c: int)
    requires |cs| == 2 * h && h > 0 && m > 0 && forall d :: 0 <= d < |cs| ==> cs[d] == m
    requires 0 <= c < m * h
    ensures |Active(cs, 0)| == |cs| && Below(cs, 0) == 0
    ensures Active(cs, 0)[c % h] == c % h
    ensures 0 <= c / h < m && Rank(cs[..h], c % h, c / h) == c
  {
    EqualColumns(cs, m, 0);
    DivBounds(c, h, m);
    var half := cs[..h];
    EqualRank(half, m, c % h, c / h);
    assert h * (c / h) == (c / h) * h;
  }

  /** In the group that holds chunk `c` the offset of the chunk fits the `int` that holds it. */
  ghost predicate ChunkFits(cs: seq<int>, levels: seq<int>, c: int) {
    forall k {:trigger InGroup(cs, levels, k, c)} :: InGroup(cs, levels, k, c) ==> c - Below(cs, levels[k]) < 0x8000_0000
  }

  ghost predicate InGroup(cs: seq<int>, levels: seq<int>, k: int, c: int) {
    0 <= k < |levels| - 1 && Below(cs, levels[k]) <= c < Below(cs, levels[k + 1])
  }

  /** An offset within a group is not negative and, when it fits, survives the cast. */
  lemma GroupOffset(cs: seq<int>, table: seq<IInfo>, levels: seq<int>, k: int, c: int)
    requires TableFor(cs, table, levels) && 0 <= k < |levels| - 1
    requires Group(cs, table[k], levels[k], levels[k + 1])
    requires forall d :: 0 <= d < |cs| ==> cs[d] > 0
    requires table[k].startblk <= c < Below(cs, levels[k + 1]) && ChunkFits(cs, levels, c)
    ensures IntCast(c - table[k].startblk) == c - table[k].startblk
    ensures levels[k] >= 0
  {
    LevelsIncrease(cs, table, levels, 0, k);
    assert InGroup(cs, levels, k, c);
    CastKeeps(c - table[k].startblk);
  }

  /** Dividing by the width of the group finds the cell of rank `c`. */
  lemma EntryLookup(cs: seq<int>, ii: IInfo, lo: int, hi: int, c: int)
    requires Group(cs, ii, lo, hi) && Below(cs, lo) <= c < Below(cs, hi)
    ensures var off := c - ii.startblk;
            var d := ii.index[off % ii.ndisk]; var r := ii.startoff + off / ii.ndisk;
            0 <= d < |cs| && lo <= r < cs[d] && Rank(cs, d, r) == c
  {
    GapLookup(cs, lo, hi, c);
  }

  lemma MirrorEntry(cs: seq<int>, table: seq<IInfo>, levels: seq<int>, k: int, h: int, m: int, c: int)
    requires TableFor(cs, table, levels) && 0 <= k < |levels| - 1
    requires |cs| == 2 * h && h > 0 && m > 0 && forall d :: 0 <= d < |cs| ==> cs[d] == m
    requires 0 <= c < m * h
    ensures table[k].ndisk == |cs| == |table[k].index| && table[k].startblk == table[k].startoff == 0
    ensures 0 <= c % h < h && table[k].index[c % h] == c % h
    ensures 0 <= c / h < m && Rank(cs[..h], c % h, c / h) == c
  {
    OneGroup(cs, table, levels, k);
    assert Group(cs, table[0], levels[0], levels[1]);
    MirrorLookup(cs, h, m, c);
  }

  /** The cell of rank `c`, found by dividing by the number of distinct columns of the group. */
  lemma EntryFor(cs: seq<int>, table: seq<IInfo>, levels: seq<int>, k: int, mirror: bool, c: int)
    requires TableFor(cs, table, levels) && 0 <= k < |levels| - 1
    requires Group(cs, table[k], levels[k], levels[k + 1])
    requires Below(cs, levels[k]) <= c < Below(cs, levels[k + 1])
    requires mirror ==> && 0 < |cs| && |cs| % 2 == 0 && 0 <= c < cs[0] * (|cs| / 2)
                        && forall d :: 0 <= d < |cs| ==> cs[d] == cs[0] > 0
    ensures var ii := table[k];
            var off := c - ii.startblk;
            var w := if mirror then ii.ndisk / 2 else ii.ndisk;
            var half := if mirror then cs[..|cs| / 2] else cs;
            && w > 0 && 0 <= off % w < |ii.index| && (mirror ==> w == |cs| / 2)
            && 0 <= ii.index[off % w] < |half|
            && levels[k] <= ii.startoff + off / w < half[ii.index[off % w]]
            && Rank(half, ii.index[off % w], ii.startoff + off / w) == c
            && (ii.ndisk == 1 ==> !mirror && off % w == 0 && off / w == off)
  {
    if mirror {
      MirrorEntry(cs, table, levels, k, |cs| / 2, cs[0], c);
      OneGroup(cs, table, levels, k);
    } else {
      EntryLookup(cs, table[k], levels[k], levels[k + 1], c);
    }
  }

  class Softc {
    var flags: Flags
    var ileave: int
    var ndisks: int
    var size: int
    var offset: int
    var secsize: int
    var pick: int
    var blk: seq<int>
    var sizes: array<int>
    var itable: array<IInfo>
    ghost var levels: seq<int>

    ghost predicate Sized()
      reads this, sizes
    {
      sizes.Length == ndisks > 0 && WellSized(sizes[..], ileave)
    }

    ghost predicate Aligned()
      reads this, sizes
    {
      sizes.Length == ndisks > 0 && Multiples(sizes[..], ileave)
    }

    /** The chunks each component contributes. */
    ghost function Columns(): seq<int>
      reads this, sizes
      requires ileave > 0
    {
      Chunks(Clamped(sizes[..]), ileave)
    }

    /** First component of least size among those larger than `s`. */
    method SmallestAbove(s: int) returns (small: int)
      requires sizes.Length == ndisks
      ensures -1 <= small < ndisks
      ensures small == -1 ==> forall d :: 0 <= d < ndisks ==> sizes[d] <= s
      ensures small >= 0 ==> sizes[small] > s
      ensures small >= 0 ==> forall d :: 0 <= d < ndisks && sizes[d] > s ==> sizes[small] <= sizes[d]
      ensures small >= 0 ==> forall d :: 0 <= d < small && sizes[d] > s ==> sizes[small] < sizes[d]
    {
      small := -1;
      for ci := 0 to ndisks
        invariant -1 <= small < ci
        invariant small == -1 ==> forall d :: 0 <= d < ci ==> sizes[d] <= s
        invariant small >= 0 ==> sizes[small] > s
        invariant small >= 0 ==> forall d :: 0 <= d < ci && sizes[d] > s ==> sizes[small] <= sizes[d]
        invariant small >= 0 ==> forall d :: 0 <= d < small && sizes[d] > s ==> sizes[small] < sizes[d]
      {
        if sizes[ci] > s && (small == -1 || sizes[ci] < sizes[small]) {
          small := ci;
        }
      }
    }

    /** The components no smaller than component `small`, in order. */
    method Participants(small: int, ghost lo: int) returns (index: seq<int>)
      requires Aligned() && ileave > 0 && 0 <= small < ndisks
      requires forall d :: 0 <= d < ndisks ==> (sizes[d] >= sizes[small] <==> Columns()[d] > lo)
      ensures index == Active(Columns(), lo)
    {
      ghost var cs := Columns();
      index := [];
      for ci := 0 to ndisks
        invariant index == Active(cs[..ci], lo)
      {
        assert cs[..ci + 1][..ci] == cs[..ci];
        if sizes[ci] >= sizes[small] {
          index := index + [ci];
        }
      }
      assert cs[..ndisks] == cs;
    }

    /** One step of the table: the row at which the next group begins. */
    lemma NextGroup(lo: int, small: int)
      requires Aligned() && ileave > 0 && 0 <= small < ndisks && lo >= 0
      requires sizes[small] > ileave * lo
      requires forall d :: 0 <= d < ndisks && sizes[d] > ileave * lo ==> sizes[small] <= sizes[d]
      ensures var cs := Columns(); var hi := sizes[small] / ileave;
              && lo < hi && sizes[small] == ileave * hi && Gap(cs, lo, hi) && hi in cs
              && (forall d :: 0 <= d < ndisks ==> (sizes[d] >= sizes[small] <==> cs[d] > lo))
              && |Active(cs, hi)| < |Active(cs, lo)|
              && ileave * Below(cs, lo) + |Active(cs, lo)| * (sizes[small] - ileave * lo) == ileave * Below(cs, hi)
    {
      var cs, hi := Columns(), sizes[small] / ileave;
      NextRow(sizes[..], ileave, lo, small);
      ActiveShrinks(cs, lo, hi);
      GapBelow(cs, lo, hi, hi);
      ScaledStep(ileave, Below(cs, lo), |Active(cs, lo)|, lo, hi);
    }

    /** Build the interleave table; `ndisks + 1` entries always suffice. */
    method Interleave()
      requires Aligned()
      modifies this`itable, this`levels
      ensures fresh(itable) && itable.Length == ndisks + 1
      ensures ileave > 0 ==> TableFor(Columns(), itable[..], levels)
      ensures ileave == 0 ==> itable[ndisks].ndisk == 0
                              && forall k :: 0 <= k < ndisks ==> itable[k] == IInfo(1, Sum(sizes[..k]), 0, [k])
    {
      itable := new IInfo[ndisks + 1](_ => ZeroInfo);
      levels := [0];
      if ileave == 0 {
        var bn := 0;
        for ix := 0 to ndisks
          invariant fresh(itable) && itable.Length == ndisks + 1
          invariant bn == Sum(sizes[..ix])
          invariant forall k :: 0 <= k < ix ==> itable[k] == IInfo(1, Sum(sizes[..k]), 0, [k])
          invariant itable[ndisks].ndisk == 0
        {
          itable[ix] := IInfo(1, bn, 0, [ix]);
          assert sizes[..ix + 1][..ix] == sizes[..ix];
          bn := bn + sizes[ix];
        }
        return;
      }
      InterleaveGroups();
    }

    /** The loop over groups: each turn adds the group that begins at row `lbn`. */
    method InterleaveGroups()
      requires Aligned() && ileave > 0
      requires itable.Length == ndisks + 1 && levels == [0]
      modifies itable, this`levels
      ensures TableFor(Columns(), itable[..], levels)
    {
      ghost var cs := Columns();
      var s, bn, lbn, k := 0, 0, 0, 0;
      FirstLevel(sizes[..], ileave);
      while true
        invariant lbn >= 0 && 0 <= k <= ndisks && |levels| == k + 1 && levels[0] == 0 && levels[k] == lbn
        invariant s == ileave * lbn && bn == ileave * Below(cs, lbn)
        invariant |Active(cs, lbn)| <= ndisks - k
        invariant forall j :: 0 <= j < k ==> Group(cs, itable[j], levels[j], levels[j + 1])
        decreases ndisks - k
      {
        ghost var lo := lbn;
        var ii, small := NextEntry(s, bn, lbn);
        itable[k] := ii;
        if small == -1 {
          break;
        }
        bn := bn + ii.ndisk * (sizes[small] - s);
        lbn := sizes[small] / ileave;
        s := sizes[small];
        levels := levels + [lbn];
        k := k + 1;
      }
    }

    method NextEntry(s: int, bn: int, lbn: int) returns (ii: IInfo, small: int)
      requires Aligned() && ileave > 0 && lbn >= 0
      requires s == ileave * lbn && bn == ileave * Below(Columns(), lbn)
      ensures -1 <= small < ndisks
      ensures small == -1 ==> ii.ndisk == 0 && forall d :: 0 <= d < ndisks ==> Columns()[d] <= lbn
      ensures small >= 0 ==> var cs := Columns(); var hi := sizes[small] / ileave;
                             && Group(cs, ii, lbn, hi) && sizes[small] == ileave * hi
                             && |Active(cs, hi)| < |Active(cs, lbn)|
                             && bn + ii.ndisk * (sizes[small] - s) == ileave * Below(cs, hi)
    {
      small := SmallestAbove(s);
      ghost var cs := Columns();
      if small == -1 {
        ii := ZeroInfo;
        NoGroup(sizes[..], ileave, lbn);
        return;
      }
      NextGroup(lbn, small);
      var index := Participants(small, lbn);
      DivExact(ileave, Below(cs, lbn));
      ii := IInfo(|index|, bn / ileave, lbn, index);
    }

    // ---- sizing ----

    constructor (flags: Flags, ileave: int, ndisks: int)
      requires ndisks > 0
      ensures this.ileave == ileave && this.ndisks == ndisks && fresh(sizes) && sizes.Length == ndisks
      ensures this.flags.linux == flags.linux && this.flags.noOffset == flags.noOffset
      ensures this.flags.mirror == (flags.mirror && ileave != 0)
      ensures this.flags.uniform == (flags.uniform || this.flags.mirror)
      ensures pick == 0 && blk == [0, 0]
    {
      this.ileave, this.ndisks := ileave, ndisks;
      var mirror := flags.mirror && ileave != 0;
      this.flags := flags.(mirror := mirror, uniform := flags.uniform || mirror);
      pick, blk, size, offset, secsize := 0, [0, 0], 0, 0, 0;
      sizes := new int[ndisks](_ => 0);
      itable := new IInfo[0];
      levels := [];
    }

    /** Sizes of the components that carry distinct data: all of them, or one side of the mirror. */
    ghost function MapSizes(): seq<int>
      reads this, sizes
      requires sizes.Length == ndisks > 0
    {
      if flags.mirror then sizes[..ndisks / 2] else sizes[..]
    }

    ghost predicate Valid()
      reads this, sizes, itable
    {
      && Sized()
      && (ileave > 0 ==> TableFor(Chunks(sizes[..], ileave), itable[..], levels))
      && (flags.mirror ==> ileave > 0 && ndisks % 2 == 0 && forall d :: 0 <= d < ndisks ==> sizes[d] == sizes[0])
      && size == Sum(MapSizes())
      && 0 <= pick <= 1 && |blk| == 2
    }

    /**
     Read the media sizes; the first loop of ccdinit.  The sizes accepted are all
     positive exactly when every component is larger than the reserved area.
     */
    method Measure(media: seq<nat>, sectors: seq<nat>) returns (err: int, maxsecsize: int, minsize: int)
      requires |media| == |sectors| == ndisks == sizes.Length && ndisks > 0
      requires size == 0
      modifies sizes, this`size
      ensures err == 0 || err == ENODEV
      ensures err == ENODEV <==> 0 in EffectiveSizes(media, offset, ileave)
      ensures err == 0 ==> && sizes[..] == EffectiveSizes(media, offset, ileave) && size == Sum(sizes[..])
                           && (exists d :: 0 <= d < ndisks && sizes[d] == minsize)
                           && (forall d :: 0 <= d < ndisks ==> minsize <= sizes[d])
                           && (exists d :: 0 <= d < ndisks && sectors[d] == maxsecsize)
                           && (forall d :: 0 <= d < ndisks ==> sectors[d] <= maxsecsize)
                           && (minsize > 0 <==> LargeEnough(media, offset))
    {
      err, maxsecsize, minsize := 0, 0, 0;
      ghost var e := EffectiveSizes(media, offset, ileave);
      for ix := 0 to ndisks
        invariant forall d :: 0 <= d < ix ==> sizes[d] == e[d] != 0
        invariant size == Sum(e[..ix])
        invariant minsize == Least(e, ix) && maxsecsize == Largest(sectors, ix)
      {
        maxsecsize := if sectors[ix] > maxsecsize then sectors[ix] else maxsecsize;
        var s := ComponentSize(media[ix]);
        assert s == e[ix];
        if s == 0 {
          err := ENODEV;
          return;
        }
        minsize := if minsize == 0 || s < minsize then s else minsize;
        sizes[ix] := s;
        size := size + s;
        SumStep(e, ix);
      }
      assert sizes[..] == e == e[..ndisks];
      LeastIsMinimum(e, ndisks);
      LargestIsMaximum(sectors, ndisks);
      LargeEnoughPositive(media, offset, ileave, minsize);
    }

    /** The usable size of one component. */
    method ComponentSize(bytes: nat) returns (s: int)
      ensures s == EffectiveSize(bytes, offset, ileave)
      ensures s >= 0 <== bytes / DEV_BSIZE >= offset
      ensures s <= 0 <== bytes / DEV_BSIZE <= offset
    {
      s := bytes / DEV_BSIZE - offset;
      if ileave > 1 {
        TruncatedSign(s, ileave);
        s := s - CMod(s, ileave);
      }
    }

    /** ccdinit: size the components, reject bad configurations, build the table. */
    method Init(media: seq<nat>, sectors: seq<nat>) returns (err: int)
      requires |media| == |sectors| == ndisks == sizes.Length && ndisks > 0 && ileave >= 0
      requires flags.mirror ==> flags.uniform
      requires pick == 0 && blk == [0, 0]
      modifies this, sizes
      ensures flags == old(flags) && ndisks == old(ndisks) && sizes == old(sizes)
      ensures offset == OffsetFor(flags) && ileave == if flags.linux then 2 * old(ileave) else old(ileave)
      ensures err == 0 || err == ENODEV || err == EINVAL
      ensures err == ENODEV <==> 0 in EffectiveSizes(media, offset, ileave)
      ensures err == EINVAL <==> && 0 !in EffectiveSizes(media, offset, ileave)
                                 && (|| (ileave > 0 && exists ix :: 0 <= ix < ndisks && sectors[ix] / DEV_BSIZE > ileave)
                                     || (flags.mirror && (ndisks % 2 == 1 || ileave == 0)))
      ensures err == 0 ==> (Valid() <==> LargeEnough(media, offset))
      ensures err == 0 && !flags.uniform ==> sizes[..] == EffectiveSizes(media, offset, ileave) && size == Sum(sizes[..])
      ensures err == 0 && flags.uniform ==>
                && (forall d :: 0 <= d < ndisks ==> sizes[d] == sizes[0] <= EffectiveSizes(media, offset, ileave)[d])
                && sizes[0] in EffectiveSizes(media, offset, ileave)
      ensures err == 0 ==> secsize in sectors && forall d :: 0 <= d < ndisks ==> sectors[d] <= secsize
    {
      Adjust();
      err := Arrange(media, sectors);
    }

    /** The interleave and the reserved area the flags ask for. */
    method Adjust()
      modifies this`size, this`ileave, this`offset
      ensures size == 0 && offset == OffsetFor(flags) && ileave == if flags.linux then 2 * old(ileave) else old(ileave)
    {
      size := 0;
      if flags.linux {
        ileave := ileave * 2;
      }
      offset := if flags.linux || flags.noOffset then 0 else CCD_OFFSET;
    }

    /** The rest of ccdinit, once interleave and offset are known. */
    method Arrange(media: seq<nat>, sectors: seq<nat>) returns (err: int)
      requires |media| == |sectors| == ndisks == sizes.Length && ndisks > 0 && ileave >= 0 && size == 0
      requires flags.mirror ==> flags.uniform
      requires pick == 0 && blk == [0, 0]
      modifies sizes, this`size, this`secsize, this`itable, this`levels
      ensures err == 0 || err == ENODEV || err == EINVAL
      ensures err == ENODEV <==> 0 in EffectiveSizes(media, offset, ileave)
      ensures err == EINVAL <==> && 0 !in EffectiveSizes(media, offset, ileave)
                                 && (|| (ileave > 0 && exists ix :: 0 <= ix < ndisks && sectors[ix] / DEV_BSIZE > ileave)
                                     || (flags.mirror && (ndisks % 2 == 1 || ileave == 0)))
      ensures err == 0 ==> (Valid() <==> LargeEnough(media, offset))
      ensures err == 0 && !flags.uniform ==> sizes[..] == EffectiveSizes(media, offset, ileave) && size == Sum(sizes[..])
      ensures err == 0 && flags.uniform ==>
                && (forall d :: 0 <= d < ndisks ==> sizes[d] == sizes[0] <= EffectiveSizes(media, offset, ileave)[d])
                && sizes[0] in EffectiveSizes(media, offset, ileave)
      ensures err == 0 ==> secsize in sectors && forall d :: 0 <= d < ndisks ==> sectors[d] <= secsize
    {
      var maxsecsize, minsize;
      err, maxsecsize, minsize := Measure(media, sectors);
      if err != 0 {
        return;
      }
      ghost var e := EffectiveSizes(media, offset, ileave);
      assert e == sizes[..];
      assert forall d :: 0 <= d < ndisks ==> minsize <= e[d];
      assert minsize in e;
      WidestSector(sectors, maxsecsize, ileave);
      EffectiveMultiples(media, offset, ileave);
      if ileave > 0 && ileave < maxsecsize / DEV_BSIZE {
        err := EINVAL;
        return;
      }
      err := Layout(minsize, maxsecsize);
    }

    /** The uniform and mirror rules of ccdinit, and the table. */
    method Layout(minsize: int, maxsecsize: int) returns (err: int)
      requires Aligned() && size == Sum(sizes[..])
      requires exists d :: 0 <= d < ndisks && sizes[d] == minsize
      requires forall d :: 0 <= d < ndisks ==> minsize <= sizes[d]
      requires flags.mirror ==> flags.uniform
      requires pick == 0 && blk == [0, 0]
      modifies sizes, this`size, this`secsize, this`itable, this`levels
      ensures err == if flags.mirror && (ndisks % 2 == 1 || ileave == 0) then EINVAL else 0
      ensures err == 0 ==> (Valid() <==> minsize > 0) && secsize == maxsecsize
      ensures err == 0 && ileave > 0 ==> TableFor(Columns(), itable[..], levels)
      ensures !flags.uniform ==> sizes[..] == old(sizes[..]) && size == old(size)
      ensures flags.uniform ==> forall d :: 0 <= d < ndisks ==> sizes[d] == minsize
    {
      err := Resize(minsize);
      if err != 0 {
        return;
      }
      Interleave();
      secsize := maxsecsize;
      PositiveValid();
    }

    /** With the table built, sizes above zero are all that a valid disk still needs. */
    lemma PositiveValid()
      requires Aligned() && size == Sum(MapSizes()) && 0 <= pick <= 1 && |blk| == 2
      requires ileave > 0 ==> TableFor(Columns(), itable[..], levels)
      requires flags.mirror ==> ileave > 0 && ndisks % 2 == 0 && forall d :: 0 <= d < ndisks ==> sizes[d] == sizes[0]
      ensures Valid() <==> forall d :: 0 <= d < ndisks ==> sizes[d] > 0
    {
      ClampedMultiples(sizes[..], ileave);
    }

    /** Uniform sizes, and the size of a mirror. */
    method Resize(minsize: int) returns (err: int)
      requires Aligned() && size == Sum(sizes[..])
      requires exists d :: 0 <= d < ndisks && sizes[d] == minsize
      requires forall d :: 0 <= d < ndisks ==> minsize <= sizes[d]
      requires flags.mirror ==> flags.uniform
      modifies sizes, this`size
      ensures err == if flags.mirror && (ndisks % 2 == 1 || ileave == 0) then EINVAL else 0
      ensures Aligned() && (err == 0 ==> size == Sum(MapSizes()))
      ensures (forall d :: 0 <= d < ndisks ==> sizes[d] > 0) <==> minsize > 0
      ensures !flags.uniform ==> sizes[..] == old(sizes[..]) && size == old(size)
      ensures flags.uniform ==> forall d :: 0 <= d < ndisks ==> sizes[d] == minsize
    {
      err := 0;
      if flags.uniform {
        Level(minsize);
      }
      if flags.mirror {
        if ndisks % 2 == 1 || ileave == 0 {
          err := EINVAL;
          return;
        }
        size := (ndisks / 2) * minsize;
        SumEqual(sizes[..ndisks / 2], minsize);
      }
    }

    /** Give every component the size of the smallest. */
    method Level(minsize: int)
      requires Aligned()
      requires exists d :: 0 <= d < ndisks && sizes[d] == minsize
      modifies sizes, this`size
      ensures forall d :: 0 <= d < ndisks ==> sizes[d] == minsize
      ensures Aligned() && size == Sum(sizes[..])
    {
      for ix := 0 to ndisks
        invariant forall d :: 0 <= d < ix ==> sizes[d] == minsize
        invariant Aligned()
        invariant exists d :: 0 <= d < ndisks && sizes[d] == minsize
      {
        ghost var w :| 0 <= w < ndisks && sizes[w] == minsize;
        sizes[ix] := minsize;
        assert sizes[w] == minsize;
      }
      size := ndisks * minsize;
      SumEqual(sizes[..], minsize);
    }

    // ---- lookup ----

    /** The offset of block `bn` within its group, in chunks, fits the `int` that holds it. */
    ghost predicate Addressable(bn: int)
      reads this`ileave, this`sizes, this`levels, sizes
    {
      ileave > 0 ==> ChunkFits(Chunks(sizes[..], ileave), levels, bn / ileave)
    }

    /** Plain concatenation: walk the components. */
    method LocateSerial(bn: int) returns (ci: int, cbn: int)
      requires Valid() && ileave == 0 && 0 <= bn < size
      ensures Cell(MapSizes(), ci, cbn) && LogicalOf(MapSizes(), ileave, ci, cbn) == bn
    {
      var sblk := 0;
      ci := 0;
      assert sizes[..ndisks] == sizes[..];
      while bn >= sblk + sizes[ci]
        invariant 0 <= ci < ndisks && sblk == Sum(sizes[..ci]) <= bn
        decreases ndisks - ci
      {
        assert sizes[..ci + 1][..ci] == sizes[..ci];
        sblk := sblk + sizes[ci];
        ci := ci + 1;
      }
      cbn := bn - sblk;
    }

    /** The table entry of chunk `c`: the last whose first chunk is not after `c`. */
    method FindGroup(c: int, ghost cs: seq<int>) returns (k: int)
      requires TableFor(cs, itable[..], levels) && 0 <= c < Sum(cs)
      requires |cs| > 0 && forall d :: 0 <= d < |cs| ==> cs[d] > 0
      ensures 0 <= k < |levels| - 1
      ensures Group(cs, itable[k], levels[k], levels[k + 1])
      ensures Below(cs, levels[k]) <= c < Below(cs, levels[k + 1])
    {
      ghost var t := itable[..];
      BelowZero(cs);
      assert cs[0] <= levels[|levels| - 1];
      assert Group(cs, t[0], levels[0], levels[1]);
      k := 0;
      while itable[k].ndisk != 0
        invariant 0 <= k < |levels|
        invariant k > 0 ==> t[k - 1].startblk <= c
        decreases |levels| - k
      {
        assert k < |levels| - 1;
        assert Group(cs, t[k], levels[k], levels[k + 1]);
        if itable[k].startblk > c {
          break;
        }
        k := k + 1;
      }
      assert k < |levels| - 1 ==> Group(cs, t[k], levels[k], levels[k + 1]);
      GroupHolds(cs, t, levels, k, c);
      k := k - 1;
    }
  
    /** The component, its mirror and the row of chunk `c`. */
    method LocateChunk(c: int, ghost cs: seq<int>) returns (disk: int, disk2: int, row: int)
      requires TableFor(cs, itable[..], levels) && 0 <= c < Sum(cs) && ChunkFits(cs, levels, c)
      requires |cs| > 0 && forall d :: 0 <= d < |cs| ==> cs[d] > 0
      requires flags.mirror ==> && |cs| % 2 == 0 && c < cs[0] * (|cs| / 2)
                                && forall d :: 0 <= d < |cs| ==> cs[d] == cs[0]
      ensures var half := if flags.mirror then cs[..|cs| / 2] else cs;
              0 <= disk < |half| && 0 <= row < half[disk] && Rank(half, disk, row) == c
      ensures flags.mirror ==> disk2 == disk + |cs| / 2
    {
      var k := FindGroup(c, cs);
      var ii := itable[k];
      var off := IntCast(c - ii.startblk);
      GroupOffset(cs, itable[..], levels, k, c);
      EntryFor(cs, itable[..], levels, k, flags.mirror, c);
      disk2 := -1;
      if ii.ndisk == 1 {
        disk := ii.index[0];
        row := ii.startoff + off;
      } else if flags.mirror {
        var ndisk2 := ii.ndisk / 2;
        disk := ii.index[off % ndisk2];
        row := ii.startoff + off / ndisk2;
        disk2 := disk + ndisk2;
      } else {
        disk := ii.index[off % ii.ndisk];
        row := ii.startoff + off / ii.ndisk;
      }
    }

    /** The component, its mirror, the first block of its chunk and the block within the chunk. */
    method Locate(bn: int) returns (disk: int, disk2: int, cbn: int, cboff: int)
      requires Valid() && Addressable(bn) && 0 <= bn < size
      ensures Cell(MapSizes(), disk, cbn + cboff) && LogicalOf(MapSizes(), ileave, disk, cbn + cboff) == bn
      ensures if ileave == 0 then cboff == 0 else cboff == (cbn + cboff) % ileave
      ensures flags.mirror ==> disk2 == disk + ndisks / 2
    {
      if ileave == 0 {
        disk, cbn := LocateSerial(bn);
        cboff, disk2 := 0, -1;
        return;
      }
      cboff := bn % ileave;
      ChunkTotal(bn);
      disk, disk2, cbn := LocateChunk(bn / ileave, Chunks(sizes[..], ileave));
      BlockOfChunk(MapSizes(), ileave, disk, cbn, cboff);
      cbn := cbn * ileave;
    }

    lemma ChunkTotal(bn: int)
      requires Valid() && 0 <= bn < size && ileave > 0
      ensures var c := bn / ileave; var cs := Chunks(sizes[..], ileave);
              && 0 <= c < Sum(cs)
              && bn == ileave * c + bn % ileave
              && WellSized(MapSizes(), ileave)
              && (forall d :: 0 <= d < |cs| ==> cs[d] > 0)
              && (flags.mirror ==> && c < cs[0] * (|cs| / 2) && Chunks(MapSizes(), ileave) == cs[..|cs| / 2]
                                   && forall d :: 0 <= d < |cs| ==> cs[d] == cs[0])
    {
      var s := sizes[..];
      var cs := Chunks(s, ileave);
      ChunkOrder(s, ileave);
      SumChunks(s, ileave);
      SumChunks(MapSizes(), ileave);
      var n := Sum(Chunks(MapSizes(), ileave));
      ChunkBelow(ileave, bn, n);
      if flags.mirror {
        assert Chunks(MapSizes(), ileave) == cs[..|cs| / 2];
        SumEqual(cs, cs[0]);
        SumEqual(cs[..|cs| / 2], cs[0]);
        HalfBelow(|cs|, cs[0]);
        assert cs[0] * (|cs| / 2) == |cs| / 2 * cs[0];
      }
    }
  
    // ---- splitting ----

    /** ccdbuffer: the component request, and its mirror, for the data at block `bn`. */
    method Buffer(bn: int, data: int, bcount: int) returns (cb: seq<ComponentBio>)
      requires Valid() && Addressable(bn) && 0 <= bn < size && bcount > 0
      ensures Buffered(Map(), cb, bn)
      ensures cb[0].data == data && 0 < cb[0].length <= bcount
      ensures cb[0].length < bcount ==> cb[0].length % DEV_BSIZE == 0
    {
      var disk, disk2, cbn, cboff := Locate(bn);
      var cbc := if ileave == 0 then DEV_BSIZE * (sizes[disk] - cbn) else DEV_BSIZE * (ileave - cboff);
      var length := if cbc < bcount then cbc else bcount;
      var cbp := ComponentBio(disk, DEV_BSIZE * (cbn + cboff + offset), length, data);
      cb := [cbp];
      if flags.mirror {
        cb := cb + [ComponentBio(disk2, cbp.offset, cbp.length, cbp.data)];
      }
      BlockAligned(if ileave == 0 then sizes[disk] - cbn else ileave - cboff);
      BufferFor(Map(), cb, bn, disk, cbn + cboff);
    }

    /** Where the next read goes: the side whose last read is near, otherwise the other. */
    method PickSide(bn: int, rcount: int) returns (side: int)
      requires Valid()
      modifies this`pick, this`blk
      ensures Valid() && Map() == old(Map()) && side == pick
      ensures blk == old(blk)[pick := bn + rcount / DEV_BSIZE]
      ensures pick == old(pick) <==>
                old(blk)[old(pick)] - size / 16 <= bn <= old(blk)[old(pick)] + size / 16
    {
      side := pick;
      var range := size / 16;
      if bn < blk[side] - range || bn > blk[side] + range {
        side := 1 - side;
        pick := side;
      }
      blk := blk[side := bn + rcount / DEV_BSIZE];
    }

    ghost function Map(): Geometry
      reads this, sizes
      requires sizes.Length == ndisks > 0
    {
      Geometry(MapSizes(), ileave, offset, if flags.mirror then ndisks / 2 else 0)
    }

    /** Which of the component requests are issued: both writes of a mirror, one of its reads. */
    method Issue(cmd: Command, bn: int, cbp: seq<ComponentBio>) returns (step: seq<ComponentBio>)
      requires Valid() && |cbp| == if flags.mirror then 2 else 1
      modifies this`pick, this`blk
      ensures Valid() && Map() == old(Map())
      ensures Chosen(flags.mirror, cmd, cbp, step)
    {
      if flags.mirror && cmd == Read {
        var side := PickSide(bn, cbp[0].length);
        step := [cbp[side]];
      } else {
        step := cbp;
      }
    }

    /** One turn of the splitting loop. */
    method Turn(cmd: Command, bn: int, addr: int, bcount: int) returns (step: seq<ComponentBio>)
      requires Valid() && Addressable(bn) && 0 <= bn < size && bcount > 0
      modifies this`pick, this`blk
      ensures Valid() && Map() == old(Map())
      ensures Routed(Map(), step, cmd, DEV_BSIZE * bn)
      ensures step[0].data == addr && 0 < step[0].length <= bcount
      ensures step[0].length < bcount ==> step[0].length % DEV_BSIZE == 0
    {
      var cbp := Buffer(bn, addr, bcount);
      ghost var g := Map();
      HalfWellSized();
      step := Issue(cmd, bn, cbp);
      BufferRouted(g, cbp, step, cmd, bn);
    }

    lemma HalfWellSized()
      requires Valid()
      ensures WellSized(MapSizes(), ileave)
    {
    }

    /**
     g_ccd_start: the requests issued, one element per turn of the loop.  The
     first block is counted in sectors of the disk and all others in blocks of
     DEV_BSIZE.  From that block on the turns cover the request in order without
     gap or overlap, and every byte goes to the component address the block map
     assigns to it.
     */
    method Start(bp: Request) returns (issued: seq<seq<ComponentBio>>)
      requires Valid() && secsize > 0
      requires bp.offset >= 0 && bp.length >= 0
      requires DEV_BSIZE * (bp.offset / secsize) + bp.length <= DEV_BSIZE * size
      requires forall b :: bp.offset / secsize <= b && DEV_BSIZE * (b - bp.offset / secsize) < bp.length ==> Addressable(b)
      modifies this`pick, this`blk
      ensures Valid() && Map() == old(Map())
      ensures Covers(Map(), issued, bp.(offset := DEV_BSIZE * (bp.offset / secsize)), bp.length)
      ensures bp.length > 0 && bp.offset % secsize == 0 ==>
                (Covers(Map(), issued, bp, bp.length) <==> secsize == DEV_BSIZE || bp.offset == 0)
    {
      issued := Split(bp.offset / secsize, bp);
      StartsInPlace(Map(), issued, bp, secsize);
    }

    method Split(bn0: int, bp: Request) returns (issued: seq<seq<ComponentBio>>)
      requires Valid() && bn0 >= 0 && bp.length >= 0 && DEV_BSIZE * bn0 + bp.length <= DEV_BSIZE * size
      requires forall b :: bn0 <= b && DEV_BSIZE * (b - bn0) < bp.length ==> Addressable(b)
      modifies this`pick, this`blk
      ensures Valid() && Map() == old(Map())
      ensures Covers(Map(), issued, bp.(offset := DEV_BSIZE * bn0), bp.length)
    {
      var bn, addr, bcount := bn0, bp.data, bp.length;
      issued := [];
      ghost var g, at := Map(), bp.(offset := DEV_BSIZE * bn0);
      while bcount > 0
        invariant Valid() && 0 <= bcount && Map() == g
        invariant Covers(g, issued, at, bp.length - bcount) && addr == bp.data + (bp.length - bcount)
        invariant bcount > 0 ==> DEV_BSIZE * bn == at.offset + (bp.length - bcount)
        decreases bcount
      {
        var step := Turn(bp.cmd, bn, addr, bcount);
        var rcount := step[0].length;
        CoversStep(g, issued, at, bp.length - bcount, step);
        issued := issued + [step];
        bn := bn + rcount / DEV_BSIZE;
        addr := addr + rcount;
        bcount := bcount - rcount;
      }
    }
  }

  /** The bytes a list of pieces covers are determined by the pieces. */
  lemma OneOffset(g: Geometry, issued: seq<seq<ComponentBio>>, bp: Request, at: int, done: int)
    requires Covers(g, issued, bp, done) && Covers(g, issued, bp.(offset := at), done) && done > 0
    ensures bp.offset == at
  {
    var last := issued[|issued| - 1];
    var from := done - last[0].length;
    var home := last[0].disk - if g.half > 0 && last[0].disk >= g.half then g.half else 0;
    FirstByte(g, last, bp.cmd, bp.offset + from, home);
    FirstByte(g, last, bp.cmd, at + from, home);
  }

  lemma FirstByte(g: Geometry, step: seq<ComponentBio>, cmd: Command, at: int, home: int)
    requires Routed(g, step, cmd, at) && step[0].length > 0
    requires home == step[0].disk - if g.half > 0 && step[0].disk >= g.half then g.half else 0
    ensures ByteHome(g.sizes, g.il, g.offset, at, home, step[0].offset, 0)
  {
  }

  /** The first piece carries the first byte. */
  lemma {:induction false} FirstPiece(g: Geometry, issued: seq<seq<ComponentBio>>, bp: Request, done: int)
    requires Covers(g, issued, bp, done) && done > 0
    ensures issued != [] && issued[0] != [] && issued[0][0].length > 0 && Routed(g, issued[0], bp.cmd, bp.offset)
    decreases |issued|
  {
    var front, at := issued[..|issued| - 1], done - issued[|issued| - 1][0].length;
    if front != [] {
      PieceBefore(g, front, bp, at);
      FirstPiece(g, front, bp, at);
    }
  }

  lemma {:induction false} PieceBefore(g: Geometry, issued: seq<seq<ComponentBio>>, bp: Request, done: int)
    requires Covers(g, issued, bp, done) && issued != []
    ensures done > 0
    decreases |issued|
  {
    var front := issued[..|issued| - 1];
    if front != [] {
      PieceBefore(g, front, bp, done - issued[|issued| - 1][0].length);
    }
  }

  /**
   What is issued for a request of whole sectors covers the bytes it names
   exactly when sectors are of DEV_BSIZE bytes or it is the first of the disk.
   */
  lemma StartsInPlace(g: Geometry, issued: seq<seq<ComponentBio>>, bp: Request, secsize: int)
    requires secsize > 0 && bp.offset >= 0
    requires Covers(g, issued, bp.(offset := DEV_BSIZE * (bp.offset / secsize)), bp.length)
    ensures bp.length > 0 && bp.offset % secsize == 0 ==>
              (Covers(g, issued, bp, bp.length) <==> secsize == DEV_BSIZE || bp.offset == 0)
  {
    if bp.length > 0 && bp.offset % secsize == 0 {
      var at := DEV_BSIZE * (bp.offset / secsize);
      SameByte(bp.offset, secsize);
      if Covers(g, issued, bp, bp.length) {
        OneOffset(g, issued, bp, at, bp.length);
      }
      assert at == bp.offset ==> bp.(offset := at) == bp;
    }
  }

  lemma SameByte(offset: int, secsize: int)
    requires secsize > 0 && offset >= 0 && offset % secsize == 0
    ensures DEV_BSIZE * (offset / secsize) == offset <==> secsize == DEV_BSIZE || offset == 0
  {
    var q := offset / secsize;
    assert offset == secsize * q;
    if q > 0 && secsize != DEV_BSIZE {
      OtherFactor(secsize, DEV_BSIZE, q);
    }
  }

  /** A disk of one component of 100 blocks with sectors of 2048 bytes. */
  method LargeSectors() returns (cs: Softc)
    ensures fresh(cs) && fresh(cs.sizes) && cs.Valid() && cs.secsize == 2048 && cs.size == 84 && cs.ileave == 0
    ensures cs.ndisks == 1 && cs.sizes[..] == [84] && cs.offset == CCD_OFFSET && !cs.flags.mirror
  {
    cs := new Softc(Flags(false, false, false, false), 0, 1);
    var media, sectors := [51200], [2048];
    var err := cs.Init(media, sectors);
    assert EffectiveSize(51200, CCD_OFFSET, 0) == 84;
    assert EffectiveSizes(media, CCD_OFFSET, 0) == [84];
    assert media[0] / DEV_BSIZE == 100;
    SumOne(cs.sizes[..]);
  }

  /** Its second sector is read from block 1 of the component instead of block 4. */
  method LargeSectorMisplaced() returns (issued: seq<seq<ComponentBio>>)
    ensures |issued| > 0 && |issued[0]| == 1 && issued[0][0].disk == 0
    ensures issued[0][0].offset == DEV_BSIZE * (CCD_OFFSET + 1) != DEV_BSIZE * (CCD_OFFSET + 4)
  {
    var cs := LargeSectors();
    var bp := Request(Read, 2048, 2048, 0);
    ghost var g := cs.Map();
    issued := cs.Start(bp);
    FirstPiece(g, issued, bp.(offset := 512), 2048);
    SecondBlock(g, issued[0]);
  }

  lemma SecondBlock(g: Geometry, step: seq<ComponentBio>)
    requires g == Geometry([84], 0, CCD_OFFSET, 0) && Routed(g, step, Read, 512) && step[0].length > 0
    ensures step[0].disk == 0 && step[0].offset == DEV_BSIZE * (CCD_OFFSET + 1)
  {
    FirstByte(g, step, Read, 512, step[0].disk);
    assert g.sizes[..0] == [] && Sum(g.sizes[..0]) == 0;
  }

  // ---- what the provider lets through ----

  /** A request inside the media the disk advertises, of whole sectors. */
  ghost predicate Accepted(size: int, secsize: int, offset: int, length: int)
    requires secsize > 0
  {
    offset >= 0 && length >= 0 && offset % secsize == 0 && length % secsize == 0 && offset + length <= size * secsize
  }

  /** Counted as `Start` counts it, the request ends on the components. */
  ghost predicate StaysOn(size: int, secsize: int, offset: int, length: int)
    requires secsize > 0
  {
    DEV_BSIZE * (offset / secsize) + length <= DEV_BSIZE * size
  }

  /** Every request the provider accepts stays on the components exactly when sectors are no larger than DEV_BSIZE. */
  lemma AcceptedStays(size: int, secsize: int)
    requires size > 0 && secsize > 0
    ensures (forall offset, length :: Accepted(size, secsize, offset, length) ==> StaysOn(size, secsize, offset, length))
            <==> secsize <= DEV_BSIZE
  {
    if secsize <= DEV_BSIZE {
      forall offset, length | Accepted(size, secsize, offset, length)
        ensures StaysOn(size, secsize, offset, length)
      {
        SmallSectors(size, secsize, offset / secsize, length / secsize);
      }
    } else {
      WholeDisk(size, secsize);
    }
  }

  lemma SmallSectors(size: int, secsize: int, q: int, m: int)
    requires 0 < secsize <= DEV_BSIZE && m >= 0 && secsize * q + secsize * m <= size * secsize
    ensures DEV_BSIZE * q + secsize * m <= DEV_BSIZE * size
  {
    if q + m > size {
      MulStep(secsize, size, q + m);
    }
    assert secsize * m <= DEV_BSIZE * m;
  }

  /** With larger sectors already the request for the whole disk runs past its components. */
  lemma WholeDisk(size: int, secsize: int)
    requires size > 0 && secsize > DEV_BSIZE
    ensures Accepted(size, secsize, 0, size * secsize) && !StaysOn(size, secsize, 0, size * secsize)
  {
    MultipleMod(secsize, size);
    assert secsize * size == size * secsize;
    MulStep(size, DEV_BSIZE, secsize);
  }

  /** The `int` that holds the offset within a group keeps it exactly below 2^31. */
  lemma CastKeeps(x: int)
    requires x >= 0
    ensures IntCast(x) == x <==> x < 0x8000_0000
  {
  }

  lemma OtherFactor(a: int, b: int, q: int)
    requires q > 0 && a != b
    ensures a * q != b * q
  {
    if a < b {
      MulStep(q, a, b);
    } else {
      MulStep(q, b, a);
    }
  }

  /** The block map of a configured disk; `half` is the distance to the mirror, 0 when not mirrored. */
  datatype Geometry = Geometry(sizes: seq<int>, il: int, offset: int, half: int)

  /** What one turn of the splitting loop may issue for the data of logical byte `at`. */
  ghost predicate Routed(g: Geometry, step: seq<ComponentBio>, cmd: Command, at: int) {
    && |step| == (if g.half > 0 && cmd != Read then 2 else 1)
    && (|step| == 2 ==> step[0].disk < g.half && step[1] == step[0].(disk := step[0].disk + g.half))
    && var home := step[0].disk - if g.half > 0 && step[0].disk >= g.half then g.half else 0;
       && (forall x :: 0 <= x < step[0].length ==> ByteHome(g.sizes, g.il, g.offset, at, home, step[0].offset, x))
       && WithinRun(g, home, step[0].offset, step[0].length)
  }

  /** The bytes stay inside one chunk or, not interleaved, inside one component. */
  ghost predicate WithinRun(g: Geometry, d: int, a: int, len: int) {
    && g.il >= 0 && 0 <= d < |g.sizes| && a % DEV_BSIZE == 0
    && len <= DEV_BSIZE * Run(g.sizes, g.il, d, a / DEV_BSIZE - g.offset)
  }

  /** `issued` splits the first `done` bytes of the request, in order and without gap or overlap. */
  ghost predicate Covers(g: Geometry, issued: seq<seq<ComponentBio>>, bp: Request, done: int)
    decreases |issued|
  {
    if issued == [] then done == 0
    else
      var last := issued[|issued| - 1];
      && last != [] && last[0].length > 0
      && var at := done - last[0].length;
         && Routed(g, last, bp.cmd, bp.offset + at) && last[0].data == bp.data + at
         && Covers(g, issued[..|issued| - 1], bp, at)
  }

  lemma CoversStep(g: Geometry, issued: seq<seq<ComponentBio>>, bp: Request, done: int, step: seq<ComponentBio>)
    requires Covers(g, issued, bp, done) && Routed(g, step, bp.cmd, bp.offset + done)
    requires step[0].length > 0 && step[0].data == bp.data + done
    ensures Covers(g, issued + [step], bp, done + step[0].length)
  {
    assert (issued + [step])[..|issued|] == issued;
  }

  /** The component requests built for block `bn`. */
  ghost predicate Buffered(g: Geometry, cb: seq<ComponentBio>, bn: int) {
    && |cb| == (if g.half > 0 then 2 else 1)
    && (g.half > 0 ==> cb[0].disk < g.half && cb[1] == cb[0].(disk := cb[0].disk + g.half))
    && WithinRun(g, cb[0].disk, cb[0].offset, cb[0].length)
    && Cell(g.sizes, cb[0].disk, cb[0].offset / DEV_BSIZE - g.offset)
    && LogicalOf(g.sizes, g.il, cb[0].disk, cb[0].offset / DEV_BSIZE - g.offset) == bn
  }

  ghost predicate Chosen(mirror: bool, cmd: Command, cb: seq<ComponentBio>, step: seq<ComponentBio>) {
    if mirror && cmd == Read then |cb| == 2 && (step == [cb[0]] || step == [cb[1]]) else step == cb
  }

  lemma BufferRouted(g: Geometry, cb: seq<ComponentBio>, step: seq<ComponentBio>, cmd: Command, bn: int)
    requires WellSized(g.sizes, g.il) && Buffered(g, cb, bn) && Chosen(g.half > 0, cmd, cb, step)
    ensures Routed(g, step, cmd, DEV_BSIZE * bn)
    ensures step[0] == cb[0].(disk := step[0].disk)
  {
    var c := cb[0];
    forall x | 0 <= x < c.length
      ensures ByteHome(g.sizes, g.il, g.offset, DEV_BSIZE * bn, c.disk, c.offset, x)
    {
      RunByte(g, bn, c.disk, c.offset, c.length, x);
    }
  }

  /** Byte `x` of a run is in block `x / DEV_BSIZE` of it, on both sides of the map. */
  lemma RunByte(g: Geometry, bn: int, d: int, a: int, len: int, x: int)
    requires WellSized(g.sizes, g.il) && WithinRun(g, d, a, len) && 0 <= x < len
    requires Cell(g.sizes, d, a / DEV_BSIZE - g.offset)
    requires LogicalOf(g.sizes, g.il, d, a / DEV_BSIZE - g.offset) == bn
    ensures ByteHome(g.sizes, g.il, g.offset, DEV_BSIZE * bn, d, a, x)
  {
    var o, t := a / DEV_BSIZE - g.offset, x / DEV_BSIZE;
    BlockSplit(a, x);
    BlockSplit(DEV_BSIZE * bn, x);
    assert 0 <= t < Run(g.sizes, g.il, d, o);
    RunContiguous(g.sizes, g.il, d, o, t);
    assert (a + x) / DEV_BSIZE - g.offset == o + t;
  }

  lemma BlockSplit(a: int, x: int)
    requires a % DEV_BSIZE == 0 && x >= 0
    ensures (a + x) / DEV_BSIZE == a / DEV_BSIZE + x / DEV_BSIZE
    ensures (a + x) % DEV_BSIZE == x % DEV_BSIZE
  {
  }

  lemma BlockAligned(n: int)
    ensures (DEV_BSIZE * n) % DEV_BSIZE == 0 && (DEV_BSIZE * n) / DEV_BSIZE == n
  {
  }

  /** A request at block `o` of a component, up to the end of the run, is one for logical block `bn`. */
  lemma BufferFor(g: Geometry, cb: seq<ComponentBio>, bn: int, d: int, o: int)
    requires g.il >= 0 && Cell(g.sizes, d, o) && LogicalOf(g.sizes, g.il, d, o) == bn
    requires |cb| == (if g.half > 0 then 2 else 1)
    requires g.half > 0 ==> d < g.half && cb[1] == cb[0].(disk := d + g.half)
    requires cb[0].disk == d && cb[0].offset == DEV_BSIZE * (o + g.offset)
    requires cb[0].length <= DEV_BSIZE * Run(g.sizes, g.il, d, o)
    ensures Buffered(g, cb, bn)
  {
    BlockAligned(o + g.offset);
    assert cb[0].offset / DEV_BSIZE - g.offset == o;
  }

  /** Blocks from block `o` of component `d` to the end of its chunk or, not interleaved, of the component. */
  function Run(sizes: seq<int>, il: int, d: int, o: int): int
    requires il >= 0 && 0 <= d < |sizes|
  {
    if il == 0 then sizes[d] - o else il - o % il
  }

  /** Byte `at + x` of the concatenated disk lives at byte `a + x` of component `d`. */
  ghost predicate ByteHome(sizes: seq<int>, il: int, offset: int, at: int, d: int, a: int, x: int) {
    var o := (a + x) / DEV_BSIZE - offset;
    && il >= 0 && Cell(sizes, d, o)
    && LogicalOf(sizes, il, d, o) == (at + x) / DEV_BSIZE
    && (a + x) % DEV_BSIZE == (at + x) % DEV_BSIZE
  }

  /** A byte has one home. */
  lemma ByteHomeUnique(sizes: seq<int>, il: int, offset: int, at: int, d: int, a: int, x: int, d': int, a': int)
    requires WellSized(sizes, il)
    requires ByteHome(sizes, il, offset, at, d, a, x) && ByteHome(sizes, il, offset, at, d', a', x)
    ensures d == d' && a == a'
  {
    LogicalInjective(sizes, il, d, (a + x) / DEV_BSIZE - offset, d', (a' + x) / DEV_BSIZE - offset);
  }

  lemma HalfBelow(n: int, x: int)
    requires n >= 0 && x >= 0
    ensures n / 2 * x <= n * x
  {
  }

  lemma WidestSector(sectors: seq<int>, m: int, il: int)
    requires m in sectors && forall d :: 0 <= d < |sectors| ==> sectors[d] <= m
    ensures m / DEV_BSIZE > il <==> exists ix :: 0 <= ix < |sectors| && sectors[ix] / DEV_BSIZE > il
  {
    var w :| 0 <= w < |sectors| && sectors[w] == m;
  }

  lemma {:induction false} SumEqual(s: seq<int>, m: int)
    requires forall d :: 0 <= d < |s| ==> s[d] == m
    ensures Sum(s) == |s| * m
  {
    if s != [] {
      SumEqual(s[..|s| - 1], m);
      assert |s| * m == (|s| - 1) * m + m;
    }
  }

  /** Every component is larger than the reserved area. */
  ghost predicate LargeEnough(media: seq<int>, offset: int) {
    forall d :: 0 <= d < |media| ==> media[d] / DEV_BSIZE > offset
  }

  lemma LargeEnoughPositive(media: seq<int>, offset: int, il: int, least: int)
    requires var e := EffectiveSizes(media, offset, il);
             && 0 !in e && least in e && forall d :: 0 <= d < |e| ==> least <= e[d]
    ensures least > 0 <==> LargeEnough(media, offset)
  {
    var e := EffectiveSizes(media, offset, il);
    forall d | 0 <= d < |media| ensures e[d] > 0 <==> media[d] / DEV_BSIZE > offset {
      assert e[d] != 0;
      AcceptedSizePositive(media[d], offset, il);
    }
  }

  lemma EffectiveMultiples(media: seq<int>, offset: int, il: int)
    requires il >= 0
    ensures Multiples(EffectiveSizes(media, offset, il), il)
  {
    var e := EffectiveSizes(media, offset, il);
    forall d | 0 <= d < |e| ensures il > 0 ==> e[d] % il == 0 {
      if il > 1 {
        Truncation(media[d] / DEV_BSIZE - offset, il);
      }
    }
  }

  lemma Truncation(s: int, il: int)
    requires il > 0
    ensures (s - CMod(s, il)) % il == 0
  {
    var a := if s >= 0 then s else -s;
    QuotientBelow(a, il);
    MultipleMod(il, a / il);
    MultipleMod(il, -(a / il));
    assert il * -(a / il) == -(il * (a / il));
  }

  lemma QuotientBelow(s: int, il: int)
    requires s >= 0 && il > 0
    ensures s - s % il == il * (s / il) && 0 <= s - s % il <= s
  {
  }

  lemma MultipleMod(il: int, q: int)
    requires il > 0
    ensures il * q % il == 0
  {
    var p := il * q;
    DivExact(il, q);
    assert p == il * (p / il) + p % il;
  }

  lemma FirstLevel(sizes: seq<int>, il: int)
    requires il > 0 && Multiples(sizes, il)
    ensures var cs := Chunks(Clamped(sizes), il); Below(cs, 0) == 0 && |Active(cs, 0)| <= |sizes|
  {
    var cs := Chunks(Clamped(sizes), il);
    ClampedMultiples(sizes, il);
    ChunkOrder(Clamped(sizes), il);
    BelowZero(cs);
    ActiveCount(cs, 0);
  }

  /** No component ends between row `lo` and the row at which the smallest above it does. */
  lemma NextRow(sizes: seq<int>, il: int, lo: int, small: int)
    requires il > 0 && Multiples(sizes, il) && 0 <= small < |sizes| && lo >= 0 && sizes[small] > il * lo
    requires forall d :: 0 <= d < |sizes| && sizes[d] > il * lo ==> sizes[small] <= sizes[d]
    ensures var cs := Chunks(Clamped(sizes), il); var hi := sizes[small] / il;
            && lo < hi == cs[small] && sizes[small] == il * hi && Gap(cs, lo, hi) && hi in cs
            && (forall d :: 0 <= d < |sizes| ==> (sizes[d] >= sizes[small] <==> cs[d] > lo))
  {
    var z := Clamped(sizes);
    var cs := Chunks(z, il);
    ClampedMultiples(sizes, il);
    ChunkOrder(z, il);
    ScaledNat(il, lo);
    var hi := cs[small];
    forall d | 0 <= d < |cs|
      ensures cs[d] <= lo || cs[d] >= hi
      ensures z[d] >= z[small] <==> cs[d] > lo
    {
      assert z[d] > il * lo <==> cs[d] > lo;
      if cs[d] < hi {
        MulStep(il, cs[d], hi);
      }
    }
  }

  /** When no component reaches above row `r` the table is complete. */
  lemma NoGroup(sizes: seq<int>, il: int, r: int)
    requires il > 0 && Multiples(sizes, il) && r >= 0 && forall d :: 0 <= d < |sizes| ==> sizes[d] <= il * r
    ensures forall d :: 0 <= d < |sizes| ==> Chunks(Clamped(sizes), il)[d] <= r
  {
    var z := Clamped(sizes);
    ClampedMultiples(sizes, il);
    ChunkOrder(z, il);
    ScaledNat(il, r);
    forall d | 0 <= d < |z| ensures Chunks(z, il)[d] <= r {
      assert !(z[d] > il * r);
    }
  }

  lemma ScaledNat(il: int, r: int)
    requires il > 0 && r >= 0
    ensures il * r >= 0
  {
  }

  lemma DivExact(il: int, x: int)
    requires il > 0
    ensures il * x / il == x
  {
    var p := il * x;
    assert p == il * (p / il) + p % il;
    EuclidUnique(il, p / il, p % il, x, 0);
  }

  lemma {:induction false} ActiveCount(cs: seq<int>, r: int)
    ensures |Active(cs, r)| <= |cs|
  {
    if cs != [] {
      ActiveCount(cs[..|cs| - 1], r);
    }
  }
}
