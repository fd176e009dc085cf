/** Exclusive or of numbers, and checksums made with it. */
module Xor {
  import opened Numbers

  type Word = x: int | 0 <= x < 65536

  type Op = (Word, Word) -> Word

  /** Exclusive or of the low `n` bits. */
  function Bits(n: nat, x: nat, y: nat): (r: nat)
    ensures r < Pow2(n)
  {
    if n == 0 then 0 else (x % 2 + y % 2) % 2 + 2 * Bits(n - 1, x / 2, y / 2)
  }

  lemma {:induction false} BitsCommute(n: nat, x: nat, y: nat)
    ensures Bits(n, x, y) == Bits(n, y, x)
  {
    if n > 0 {
      BitsCommute(n - 1, x / 2, y / 2);
    }
  }

  lemma {:induction false} BitsZero(n: nat, x: nat)
    requires x < Pow2(n)
    ensures Bits(n, x, 0) == x
  {
    if n > 0 {
      BitsZero(n - 1, x / 2);
    }
  }

  lemma {:induction false} BitsSelf(n: nat, x: nat)
    ensures Bits(n, x, x) == 0
  {
    if n > 0 {
      BitsSelf(n - 1, x / 2);
    }
  }

  lemma {:induction false} BitsAssociate(n: nat, x: nat, y: nat, z: nat, u: nat, v: nat)
    requires u == Bits(n, x, y) && v == Bits(n, y, z)
    ensures Bits(n, u, z) == Bits(n, x, v)
  {
    if n > 0 {
      Halve(n, x, y, u);
      Halve(n, y, z, v);
      BitsAssociate(n - 1, x / 2, y / 2, z / 2, u / 2, v / 2);
      JoinHalves(n, u, z, x, v, x % 2, y % 2, z % 2);
    }
  }

  /** Equal halves and equal parities make equal results. */
  lemma JoinHalves(n: nat, u: nat, z: nat, x: nat, v: nat, a: nat, b: nat, c: nat)
    requires n > 0 && a < 2 && b < 2 && c < 2 && x % 2 == a && z % 2 == c && u % 2 == (a + b) % 2 && v % 2 == (b + c) % 2
    requires Bits(n - 1, u / 2, z / 2) == Bits(n - 1, x / 2, v / 2)
    ensures Bits(n, u, z) == Bits(n, x, v)
  {
    Parity(a, b, c);
  }

  lemma Halve(n: nat, x: nat, y: nat, u: nat)
    requires n > 0 && u == Bits(n, x, y)
    ensures u / 2 == Bits(n - 1, x / 2, y / 2) && u % 2 == (x % 2 + y % 2) % 2
  {
  }

  lemma Parity(a: nat, b: nat, c: nat)
    requires a < 2 && b < 2 && c < 2
    ensures ((a + b) % 2 + c) % 2 == (a + (b + c) % 2) % 2
  {
  }

  lemma Pow16()
    ensures Pow2(16) == 65536
  {
    assert Pow2(4) == 16;
    assert Pow2(8) == 256;
    assert Pow2(12) == 4096;
  }

  /** The operator of the source on 16-bit numbers. */
  function Xor16(x: Word, y: Word): Word {
    Pow16();
    Bits(16, x, y)
  }

  /** What is needed of the operator: a group in which every element is its own inverse. */
  ghost predicate IsXor(op: Op) {
    && (forall x, y :: op(x, y) == op(y, x))
    && (forall x, y, z :: op(op(x, y), z) == op(x, op(y, z)))
    && (forall x :: op(x, 0) == x)
    && (forall x :: op(x, x) == 0)
  }

  lemma Xor16IsXor()
    ensures IsXor(Xor16)
  {
    Pow16();
    forall x: Word, y: Word ensures Xor16(x, y) == Xor16(y, x) {
      BitsCommute(16, x, y);
    }
    forall x: Word, y: Word, z: Word ensures Xor16(Xor16(x, y), z) == Xor16(x, Xor16(y, z)) {
      BitsAssociate(16, x, y, z, Xor16(x, y), Xor16(y, z));
    }
    forall x: Word ensures Xor16(x, 0) == x {
      BitsZero(16, x);
    }
    forall x: Word ensures Xor16(x, x) == 0 {
      BitsSelf(16, x);
    }
  }

  /** The words of a sequence combined from the front. */
  function Fold(op: Op, ws: seq<Word>): Word {
    if ws == [] then 0 else op(Fold(op, ws[..|ws| - 1]), ws[|ws| - 1])
  }

  lemma SwapLast(op: Op, a: Word, b: Word, c: Word)
    requires IsXor(op)
    ensures op(op(a, b), c) == op(op(a, c), b)
  {
    assert op(op(a, b), c) == op(a, op(b, c));
    assert op(op(a, c), b) == op(a, op(c, b));
  }

  /** A word put in the place of a zero adds itself to the checksum. */
  lemma {:induction false} FoldReplace(op: Op, ws: seq<Word>, k: nat, v: Word)
    requires IsXor(op) && k < |ws| && ws[k] == 0
    ensures Fold(op, ws[k := v]) == op(Fold(op, ws), v)
  {
    var n := |ws| - 1;
    if k == n {
      assert ws[k := v][..n] == ws[..n];
    } else {
      FoldReplace(op, ws[..n], k, v);
      assert ws[k := v][..n] == ws[..n][k := v];
      SwapLast(op, Fold(op, ws[..n]), v, ws[n]);
    }
  }

  /** Storing the checksum of the rest makes the whole checksum zero, and no other value does. */
  lemma FoldClears(op: Op, ws: seq<Word>, k: nat, v: Word)
    requires IsXor(op) && k < |ws| && ws[k] == 0
    ensures Fold(op, ws[k := v]) == 0 <==> v == Fold(op, ws)
  {
    FoldReplace(op, ws, k, v);
    var f := Fold(op, ws);
    if op(f, v) == 0 {
      assert op(op(f, v), v) == op(f, op(v, v)) == op(f, 0) == f;
      assert op(0, v) == op(v, 0) == v;
    }
  }
}

/** The on-disk form of BSD disk labels (sys/geom/geom_bsd_enc.c, sys/sys/disklabel.h). */
module DiskLabel {
  import opened Numbers
  import opened Xor

  type U32 = x: int | 0 <= x < 0x1_0000_0000

  const DISKMAGIC: U32 := 0x8256_4557
  const EINVAL := 22

  // Little-endian numbers.

  lemma Pows()
    ensures Pow256(2) == 65536 && Pow256(4) == 0x1_0000_0000
  {
    assert Pow256(3) == 256 * Pow256(2);
  }

  /** The low `n` bytes of a number, least significant first. */
  function Le(n: nat, v: nat): (b: seq<Byte>)
    ensures |b| == n
  {
    if n == 0 then [] else [v % 256] + Le(n - 1, v / 256)
  }

  /** The number some bytes stand for. */
  function Num(b: seq<Byte>): (v: nat)
    ensures v < Pow256(|b|)
  {
    if b == [] then 0 else b[0] as int + 256 * Num(b[1..])
  }

  lemma {:induction false} NumLe(n: nat, v: nat)
    requires v < Pow256(n)
    ensures Num(Le(n, v)) == v
  {
    if n > 0 {
      NumLe(n - 1, v / 256);
      assert Le(n, v)[1..] == Le(n - 1, v / 256);
    }
  }

  lemma {:induction false} LeNum(b: seq<Byte>)
    ensures Le(|b|, Num(b)) == b
  {
    if b != [] {
      LeNum(b[1..]);
      LowByte(b[0], Num(b[1..]));
    }
  }

  lemma LowByte(x: int, q: int)
    requires 0 <= x < 256
    ensures (x + 256 * q) % 256 == x && (x + 256 * q) / 256 == q
  {
  }

  function Le2(v: Word): (b: seq<Byte>)
    ensures |b| == 2
  {
    Le(2, v)
  }

  function Le4(v: U32): (b: seq<Byte>)
    ensures |b| == 4
  {
    Le(4, v)
  }

  function Get2(b: seq<Byte>, at: nat): Word
    requires at + 2 <= |b|
  {
    Pows();
    Num(b[at..at + 2])
  }

  function Get4(b: seq<Byte>, at: nat): U32
    requires at + 4 <= |b|
  {
    Pows();
    Num(b[at..at + 4])
  }

  lemma GetLe2(b: seq<Byte>, at: nat, v: Word)
    requires at + 2 <= |b| && b[at..at + 2] == Le2(v)
    ensures Get2(b, at) == v
  {
    Pows();
    NumLe(2, v);
  }

  lemma GetLe4(b: seq<Byte>, at: nat, v: U32)
    requires at + 4 <= |b| && b[at..at + 4] == Le4(v)
    ensures Get4(b, at) == v
  {
    Pows();
    NumLe(4, v);
  }

  lemma LeGet2(b: seq<Byte>, at: nat)
    requires at + 2 <= |b|
    ensures Le2(Get2(b, at)) == b[at..at + 2]
  {
    LeNum(b[at..at + 2]);
  }

  lemma LeGet4(b: seq<Byte>, at: nat)
    requires at + 4 <= |b|
    ensures Le4(Get4(b, at)) == b[at..at + 4]
  {
    LeNum(b[at..at + 4]);
  }

  // Groups of fields, in the order of the structure.

  type Name = s: seq<Byte> | |s| == 16 witness seq(16, _ => 0)
  type Five = s: seq<U32> | |s| == 5 witness [0, 0, 0, 0, 0]

  datatype Ident = Ident(magic: U32, kind: Word, subtype: Word, typename: Name, packname: Name)

  datatype Geometry = Geometry(secsize: U32, nsectors: U32, ntracks: U32, ncylinders: U32, secpercyl: U32, secperunit: U32,
                               sparespertrack: Word, sparespercyl: Word, acylinders: U32)

  datatype Timing = Timing(rpm: Word, interleave: Word, trackskew: Word, cylskew: Word,
                           headswitch: U32, trkseek: U32, flags: U32)

  datatype Tail = Tail(magic2: U32, checksum: Word, npartitions: Word, bbsize: U32, sbsize: U32)

  datatype Partition = Partition(size: U32, offset: U32, fsize: U32, fstype: Byte, frag: Byte, cpg: Word)

  datatype Label = Label(ident: Ident, geometry: Geometry, timing: Timing, drivedata: Five, spare: Five, tail: Tail,
                         partitions: seq<Partition>)

  function PutIdent(g: Ident): (b: seq<Byte>)
    ensures |b| == 40
  {
    Le4(g.magic) + Le2(g.kind) + Le2(g.subtype) + g.typename + g.packname
  }

  function GetIdent(b: seq<Byte>): Ident
    requires |b| == 40
  {
    Ident(Get4(b, 0), Get2(b, 4), Get2(b, 6), b[8..24], b[24..40])
  }

  /** The first five numbers of the geometry, and the rest. */
  function PutSectors(g: Geometry): (b: seq<Byte>)
    ensures |b| == 20
  {
    Le4(g.secsize) + Le4(g.nsectors) + Le4(g.ntracks) + Le4(g.ncylinders) + Le4(g.secpercyl)
  }

  function PutSpares(g: Geometry): (b: seq<Byte>)
    ensures |b| == 12
  {
    Le4(g.secperunit) + Le2(g.sparespertrack) + Le2(g.sparespercyl) + Le4(g.acylinders)
  }

  function PutGeometry(g: Geometry): (b: seq<Byte>)
    ensures |b| == 32
  {
    PutSectors(g) + PutSpares(g)
  }

  function GetGeometry(b: seq<Byte>): Geometry
    requires |b| == 32
  {
    Geometry(Get4(b, 0), Get4(b, 4), Get4(b, 8), Get4(b, 12), Get4(b, 16), Get4(b, 20), Get2(b, 24), Get2(b, 26), Get4(b, 28))
  }

  function PutTiming(g: Timing): (b: seq<Byte>)
    ensures |b| == 20
  {
    Le2(g.rpm) + Le2(g.interleave) + Le2(g.trackskew) + Le2(g.cylskew) + Le4(g.headswitch) + Le4(g.trkseek) + Le4(g.flags)
  }

  function GetTiming(b: seq<Byte>): Timing
    requires |b| == 20
  {
    Timing(Get2(b, 0), Get2(b, 2), Get2(b, 4), Get2(b, 6), Get4(b, 8), Get4(b, 12), Get4(b, 16))
  }

  function PutFive(g: Five): (b: seq<Byte>)
    ensures |b| == 20
  {
    Le4(g[0]) + Le4(g[1]) + Le4(g[2]) + Le4(g[3]) + Le4(g[4])
  }

  function GetFive(b: seq<Byte>): Five
    requires |b| == 20
  {
    [Get4(b, 0), Get4(b, 4), Get4(b, 8), Get4(b, 12), Get4(b, 16)]
  }

  function PutTail(g: Tail): (b: seq<Byte>)
    ensures |b| == 16
  {
    Le4(g.magic2) + Le2(g.checksum) + Le2(g.npartitions) + Le4(g.bbsize) + Le4(g.sbsize)
  }

  function GetTail(b: seq<Byte>): Tail
    requires |b| == 16
  {
    Tail(Get4(b, 0), Get2(b, 4), Get2(b, 6), Get4(b, 8), Get4(b, 12))
  }

  function PutPartition(g: Partition): (b: seq<Byte>)
    ensures |b| == 16
  {
    Le4(g.size) + Le4(g.offset) + Le4(g.fsize) + [g.fstype] + [g.frag] + Le2(g.cpg)
  }

  function GetPartition(b: seq<Byte>): Partition
    requires |b| == 16
  {
    Partition(Get4(b, 0), Get4(b, 4), Get4(b, 8), b[12], b[13], Get2(b, 14))
  }

  // Each group is read back as it was written, and written as it was read.

  lemma IdentBack(g: Ident)
    ensures GetIdent(PutIdent(g)) == g
  {
    var b := PutIdent(g);
    assert b[0..4] == Le4(g.magic) && b[4..6] == Le2(g.kind) && b[6..8] == Le2(g.subtype);
    assert b[8..24] == g.typename && b[24..40] == g.packname;
    GetLe4(b, 0, g.magic);
    GetLe2(b, 4, g.kind);
    GetLe2(b, 6, g.subtype);
  }

  lemma IdentAgain(b: seq<Byte>)
    requires |b| == 40
    ensures PutIdent(GetIdent(b)) == b
  {
    LeGet4(b, 0);
    LeGet2(b, 4);
    LeGet2(b, 6);
    assert b[0..4] + b[4..6] + b[6..8] + b[8..24] + b[24..40] == b;
  }

  lemma GeometryBack(g: Geometry)
    ensures GetGeometry(PutGeometry(g)) == g
  {
    var b := PutGeometry(g);
    SectorsAt(g);
    SparesAt(g);
    GetLe4(b, 0, g.secsize);
    GetLe4(b, 4, g.nsectors);
    GetLe4(b, 8, g.ntracks);
    GetLe4(b, 12, g.ncylinders);
    GetLe4(b, 16, g.secpercyl);
    GetLe4(b, 20, g.secperunit);
    GetLe2(b, 24, g.sparespertrack);
    GetLe2(b, 26, g.sparespercyl);
    GetLe4(b, 28, g.acylinders);
  }

  lemma SectorsAt(g: Geometry)
    ensures var b := PutGeometry(g);
            && b[0..4] == Le4(g.secsize) && b[4..8] == Le4(g.nsectors) && b[8..12] == Le4(g.ntracks)
            && b[12..16] == Le4(g.ncylinders) && b[16..20] == Le4(g.secpercyl)
  {
  }

  lemma SparesAt(g: Geometry)
    ensures var b := PutGeometry(g);
            && b[20..24] == Le4(g.secperunit) && b[24..26] == Le2(g.sparespertrack) && b[26..28] == Le2(g.sparespercyl)
            && b[28..32] == Le4(g.acylinders)
  {
    var b := PutGeometry(g);
    assert b[20..] == PutSpares(g);
  }

  lemma GeometryAgain(b: seq<Byte>)
    requires |b| == 32
    ensures PutGeometry(GetGeometry(b)) == b
  {
    SectorsAgain(b);
    SparesAgain(b);
    assert b[..20] + b[20..] == b;
  }

  lemma SectorsAgain(b: seq<Byte>)
    requires |b| == 32
    ensures PutSectors(GetGeometry(b)) == b[..20]
  {
    LeGet4(b, 0);
    LeGet4(b, 4);
    LeGet4(b, 8);
    LeGet4(b, 12);
    LeGet4(b, 16);
    assert b[0..4] + b[4..8] + b[8..12] + b[12..16] + b[16..20] == b[..20];
  }

  lemma SparesAgain(b: seq<Byte>)
    requires |b| == 32
    ensures PutSpares(GetGeometry(b)) == b[20..]
  {
    LeGet4(b, 20);
    LeGet2(b, 24);
    LeGet2(b, 26);
    LeGet4(b, 28);
    assert b[20..24] + b[24..26] + b[26..28] + b[28..32] == b[20..];
  }

  lemma TimingBack(g: Timing)
    ensures GetTiming(PutTiming(g)) == g
  {
    var b := PutTiming(g);
    assert b[0..2] == Le2(g.rpm) && b[2..4] == Le2(g.interleave) && b[4..6] == Le2(g.trackskew) && b[6..8] == Le2(g.cylskew);
    assert b[8..12] == Le4(g.headswitch) && b[12..16] == Le4(g.trkseek) && b[16..20] == Le4(g.flags);
    GetLe2(b, 0, g.rpm);
    GetLe2(b, 2, g.interleave);
    GetLe2(b, 4, g.trackskew);
    GetLe2(b, 6, g.cylskew);
    GetLe4(b, 8, g.headswitch);
    GetLe4(b, 12, g.trkseek);
    GetLe4(b, 16, g.flags);
  }

  lemma TimingAgain(b: seq<Byte>)
    requires |b| == 20
    ensures PutTiming(GetTiming(b)) == b
  {
    LeGet2(b, 0);
    LeGet2(b, 2);
    LeGet2(b, 4);
    LeGet2(b, 6);
    LeGet4(b, 8);
    LeGet4(b, 12);
    LeGet4(b, 16);
    assert b[0..2] + b[2..4] + b[4..6] + b[6..8] + b[8..12] + b[12..16] + b[16..20] == b;
  }

  lemma FiveBack(g: Five)
    ensures GetFive(PutFive(g)) == g
  {
    var b := PutFive(g);
    assert b[0..4] == Le4(g[0]) && b[4..8] == Le4(g[1]) && b[8..12] == Le4(g[2]);
    assert b[12..16] == Le4(g[3]);
    assert b[16..] == Le4(g[4]);
    assert b[16..20] == b[16..];
    GetLe4(b, 0, g[0]);
    GetLe4(b, 4, g[1]);
    GetLe4(b, 8, g[2]);
    GetLe4(b, 12, g[3]);
    GetLe4(b, 16, g[4]);
  }

  lemma FiveAgain(b: seq<Byte>)
    requires |b| == 20
    ensures PutFive(GetFive(b)) == b
  {
    LeGet4(b, 0);
    LeGet4(b, 4);
    LeGet4(b, 8);
    LeGet4(b, 12);
    LeGet4(b, 16);
    assert b[0..4] + b[4..8] + b[8..12] + b[12..16] + b[16..20] == b;
  }

  lemma TailBack(g: Tail)
    ensures GetTail(PutTail(g)) == g
  {
    var b := PutTail(g);
    assert b[0..4] == Le4(g.magic2) && b[4..6] == Le2(g.checksum) && b[6..8] == Le2(g.npartitions);
    assert b[8..12] == Le4(g.bbsize) && b[12..16] == Le4(g.sbsize);
    GetLe4(b, 0, g.magic2);
    GetLe2(b, 4, g.checksum);
    GetLe2(b, 6, g.npartitions);
    GetLe4(b, 8, g.bbsize);
    GetLe4(b, 12, g.sbsize);
  }

  lemma TailAgain(b: seq<Byte>)
    requires |b| == 16
    ensures PutTail(GetTail(b)) == b
  {
    LeGet4(b, 0);
    LeGet2(b, 4);
    LeGet2(b, 6);
    LeGet4(b, 8);
    LeGet4(b, 12);
    assert b[0..4] + b[4..6] + b[6..8] + b[8..12] + b[12..16] == b;
  }

  lemma PartitionBack(g: Partition)
    ensures GetPartition(PutPartition(g)) == g
  {
    var b := PutPartition(g);
    assert b[0..4] == Le4(g.size) && b[4..8] == Le4(g.offset) && b[8..12] == Le4(g.fsize) && b[14..16] == Le2(g.cpg);
    GetLe4(b, 0, g.size);
    GetLe4(b, 4, g.offset);
    GetLe4(b, 8, g.fsize);
    GetLe2(b, 14, g.cpg);
  }

  lemma PartitionAgain(b: seq<Byte>)
    requires |b| == 16
    ensures PutPartition(GetPartition(b)) == b
  {
    LeGet4(b, 0);
    LeGet4(b, 4);
    LeGet4(b, 8);
    LeGet2(b, 14);
    assert b[0..4] + b[4..8] + b[8..12] + [b[12]] + [b[13]] + b[14..16] == b;
  }

  // Whole labels.

  function PutPartitions(ps: seq<Partition>): (b: seq<Byte>)
    ensures |b| == 16 * |ps|
  {
    if ps == [] then [] else PutPartitions(ps[..|ps| - 1]) + PutPartition(ps[|ps| - 1])
  }

  function GetPartitions(b: seq<Byte>, n: nat): (ps: seq<Partition>)
    requires |b| == 16 * n
    ensures |ps| == n
  {
    if n == 0 then [] else GetPartitions(b[..16 * (n - 1)], n - 1) + [GetPartition(b[16 * (n - 1)..])]
  }

  lemma {:induction false} PartitionsBack(ps: seq<Partition>)
    ensures GetPartitions(PutPartitions(ps), |ps|) == ps
  {
    if ps != [] {
      var n := |ps| - 1;
      PartitionsBack(ps[..n]);
      PartitionBack(ps[n]);
      var b := PutPartitions(ps);
      assert b[..16 * n] == PutPartitions(ps[..n]) && b[16 * n..] == PutPartition(ps[n]);
    }
  }

  lemma {:induction false} PartitionsAgain(b: seq<Byte>, n: nat)
    requires |b| == 16 * n
    ensures PutPartitions(GetPartitions(b, n)) == b
  {
    if n > 0 {
      var m := 16 * (n - 1);
      PartitionsAgain(b[..m], n - 1);
      PartitionAgain(b[m..]);
      PutSnoc(GetPartitions(b[..m], n - 1), GetPartition(b[m..]));
      Halves(b, m);
    }
  }

  lemma Halves(b: seq<Byte>, m: nat)
    requires m <= |b|
    ensures b[..m] + b[m..] == b
  {
  }

  lemma PutSnoc(ps: seq<Partition>, p: Partition)
    ensures PutPartitions(ps + [p]) == PutPartitions(ps) + PutPartition(p)
  {
    assert (ps + [p])[..|ps|] == ps;
  }

  /** Everything before the last group of the fixed part. */
  function Front(d: Label): (b: seq<Byte>)
    ensures |b| == 132
  {
    PutIdent(d.ident) + PutGeometry(d.geometry) + PutTiming(d.timing) + PutFive(d.drivedata) + PutFive(d.spare)
  }

  /** A label as bytes, with the checksum it carries. */
  function Image(d: Label): (b: seq<Byte>)
    ensures |b| == 148 + 16 * |d.partitions|
  {
    Front(d) + PutTail(d.tail) + PutPartitions(d.partitions)
  }

  function WithChecksum(d: Label, v: Word): Label {
    d.(tail := d.tail.(checksum := v))
  }

  /** The first `k` 16-bit words of some bytes. */
  function WordsOf(b: seq<Byte>, k: nat): (ws: seq<Word>)
    requires 2 * k <= |b|
    ensures |ws| == k && forall i :: 0 <= i < k ==> ws[i] == Get2(b, 2 * i)
  {
    seq(k, i requires 0 <= i < k => Get2(b, 2 * i))
  }

  function Checksum(op: Op, b: seq<Byte>, k: nat): Word
    requires 2 * k <= |b|
  {
    Fold(op, WordsOf(b, k))
  }

  /** How many words a label with `n` partitions takes. */
  function WordCount(n: nat): nat {
    74 + 8 * n
  }

  /** The bytes before the checksum and after it. */
  function Before(d: Label): (b: seq<Byte>)
    ensures |b| == 136
  {
    Front(d) + Le4(d.tail.magic2)
  }

  function After(d: Label): (b: seq<Byte>)
    ensures |b| == 10 + 16 * |d.partitions|
  {
    Le2(d.tail.npartitions) + Le4(d.tail.bbsize) + Le4(d.tail.sbsize) + PutPartitions(d.partitions)
  }

  /** The image with a checksum given. */
  function ImageWith(d: Label, v: Word): (b: seq<Byte>)
    ensures |b| == 148 + 16 * |d.partitions|
  {
    Before(d) + Le2(v) + After(d)
  }

  /** The checksum a label should carry: that of its image with a zero in its place. */
  function ChecksumOf(op: Op, d: Label): Word {
    Checksum(op, ImageWith(d, 0), WordCount(|d.partitions|))
  }

  /** What the encoder writes. */
  function Encoded(op: Op, d: Label): seq<Byte> {
    ImageWith(d, ChecksumOf(op, d))
  }

  datatype Result = Ok(value: Label) | Error(code: int)

  /** Both magic numbers, not too many partitions, and words that add up to zero. */
  predicate Acceptable(op: Op, b: seq<Byte>, maxpart: int)
    requires Readable(b, maxpart)
  {
    && Get4(b, 0) == DISKMAGIC && Get4(b, 132) == DISKMAGIC && Get2(b, 138) <= maxpart
    && Checksum(op, b, WordCount(Get2(b, 138))) == 0
  }

  /** There are as many bytes as the decoder may look at. */
  predicate Readable(b: seq<Byte>, maxpart: int) {
    |b| >= 148 && (Get2(b, 138) <= maxpart ==> 148 + 16 * Get2(b, 138) as int <= |b|)
  }

  /** What the decoder makes of the bytes. */
  function Decoded(op: Op, b: seq<Byte>, maxpart: int): Result
    requires Readable(b, maxpart)
  {
    if Acceptable(op, b, maxpart) then Ok(LabelIn(b, Get2(b, 138))) else Error(EINVAL)
  }

  function LabelIn(b: seq<Byte>, n: nat): Label
    requires 148 + 16 * n <= |b|
  {
    ReadLabel(b[..148 + 16 * n], n)
  }

  function ReadLabel(b: seq<Byte>, n: nat): Label
    requires |b| == 148 + 16 * n
  {
    Label(GetIdent(b[0..40]), GetGeometry(b[40..72]), GetTiming(b[72..92]), GetFive(b[92..112]), GetFive(b[112..132]),
          GetTail(b[132..148]), GetPartitions(b[148..], n))
  }

  lemma ReadImage(d: Label)
    ensures ReadLabel(Image(d), |d.partitions|) == d
  {
    var b := Image(d);
    ImageSlices(d);
    IdentBack(d.ident);
    GeometryBack(d.geometry);
    TimingBack(d.timing);
    FiveBack(d.drivedata);
    FiveBack(d.spare);
    TailBack(d.tail);
    PartitionsBack(d.partitions);
  }

  lemma ImageSlices(d: Label)
    ensures var b := Image(d);
            && b[0..40] == PutIdent(d.ident) && b[40..72] == PutGeometry(d.geometry) && b[72..92] == PutTiming(d.timing)
            && b[92..112] == PutFive(d.drivedata) && b[112..132] == PutFive(d.spare) && b[132..148] == PutTail(d.tail)
            && b[148..] == PutPartitions(d.partitions)
  {
    Joined(PutIdent(d.ident), PutGeometry(d.geometry), PutTiming(d.timing), PutFive(d.drivedata), PutFive(d.spare),
           PutTail(d.tail), PutPartitions(d.partitions));
  }

  lemma Joined(a: seq<Byte>, b: seq<Byte>, c: seq<Byte>, d: seq<Byte>, e: seq<Byte>, f: seq<Byte>, g: seq<Byte>)
    requires |a| == 40 && |b| == 32 && |c| == 20 && |d| == 20 && |e| == 20 && |f| == 16
    ensures var s := a + b + c + d + e + f + g;
            s[0..40] == a && s[40..72] == b && s[72..92] == c && s[92..112] == d && s[112..132] == e && s[132..148] == f && s[148..] == g
  {
  }

  lemma ImageRead(b: seq<Byte>, n: nat)
    requires |b| == 148 + 16 * n
    ensures Image(ReadLabel(b, n)) == b
  {
    IdentAgain(b[0..40]);
    GeometryAgain(b[40..72]);
    TimingAgain(b[72..92]);
    FiveAgain(b[92..112]);
    FiveAgain(b[112..132]);
    TailAgain(b[132..148]);
    PartitionsAgain(b[148..], n);
    Cut(b);
  }

  lemma Cut(b: seq<Byte>)
    requires |b| >= 148
    ensures b[0..40] + b[40..72] + b[72..92] + b[92..112] + b[112..132] + b[132..148] + b[148..] == b
  {
  }

  // The checksum.

  lemma TailSplit(g: Tail, v: Word)
    ensures PutTail(g.(checksum := v)) == Le4(g.magic2) + Le2(v) + (Le2(g.npartitions) + Le4(g.bbsize) + Le4(g.sbsize))
  {
  }

  lemma ImageChecksum(d: Label, v: Word)
    ensures Image(WithChecksum(d, v)) == ImageWith(d, v)
  {
    TailSplit(d.tail, v);
    var x := Le2(d.tail.npartitions) + Le4(d.tail.bbsize) + Le4(d.tail.sbsize);
    Reassociate(Front(d), Le4(d.tail.magic2), Le2(v), x, PutPartitions(d.partitions));
  }

  lemma Reassociate(f: seq<Byte>, m: seq<Byte>, c: seq<Byte>, x: seq<Byte>, p: seq<Byte>)
    ensures f + (m + c + x) + p == f + m + c + (x + p)
  {
  }

  lemma WordsUpdate(x: seq<Byte>, k: nat, v: Word, y: seq<Byte>, m: nat)
    requires |x| == 2 * k && |y| == 2 * m
    ensures WordsOf(x + Le2(v) + y, k + 1 + m) == WordsOf(x, k) + [v] + WordsOf(y, m)
  {
    var c := x + Le2(v) + y;
    assert c[2 * k..2 * k + 2] == Le2(v);
    GetLe2(c, 2 * k, v);
    forall i | 0 <= i < k + 1 + m ensures WordsOf(c, k + 1 + m)[i] == (WordsOf(x, k) + [v] + WordsOf(y, m))[i] {
      if i < k {
        assert c[2 * i..2 * i + 2] == x[2 * i..2 * i + 2];
      } else if i > k {
        assert c[2 * i..2 * i + 2] == y[2 * (i - k - 1)..2 * (i - k - 1) + 2];
      }
    }
  }

  /** The image of a label adds up to zero exactly when it carries its own checksum. */
  lemma ChecksumZero(op: Op, d: Label, v: Word)
    requires IsXor(op)
    ensures Checksum(op, ImageWith(d, v), WordCount(|d.partitions|)) == 0 <==> v == ChecksumOf(op, d)
  {
    ChecksumSplit(op, Before(d), 68, After(d), 5 + 8 * |d.partitions|, v);
  }

  lemma ChecksumSplit(op: Op, x: seq<Byte>, k: nat, y: seq<Byte>, m: nat, v: Word)
    requires IsXor(op) && |x| == 2 * k && |y| == 2 * m
    ensures Checksum(op, x + Le2(v) + y, k + 1 + m) == 0 <==> v == Checksum(op, x + Le2(0) + y, k + 1 + m)
  {
    WordsUpdate(x, k, v, y, m);
    WordsUpdate(x, k, 0, y, m);
    var ws := WordsOf(x, k) + [0] + WordsOf(y, m);
    assert ws[k := v] == WordsOf(x, k) + [v] + WordsOf(y, m);
    FoldClears(op, ws, k, v);
  }

  lemma ChecksumPrefix(op: Op, b: seq<Byte>, s: seq<Byte>, k: nat)
    requires 2 * k <= |s| && s <= b
    ensures Checksum(op, b, k) == Checksum(op, s, k)
  {
    forall i | 0 <= i < k ensures WordsOf(b, k)[i] == WordsOf(s, k)[i] {
      assert b[2 * i..2 * i + 2] == s[2 * i..2 * i + 2];
    }
    assert WordsOf(b, k) == WordsOf(s, k);
  }

  /** A label that can be encoded: both magic numbers, and the number of partitions it says. */
  ghost predicate GoodLabel(d: Label, maxpart: int) {
    d.ident.magic == DISKMAGIC && d.tail.magic2 == DISKMAGIC && |d.partitions| == d.tail.npartitions <= maxpart
  }

  lemma FieldsAt(d: Label, rest: seq<Byte>)
    ensures var b := Image(d) + rest;
            Get4(b, 0) == d.ident.magic && Get4(b, 132) == d.tail.magic2 && Get2(b, 138) == d.tail.npartitions
  {
    var b, s := Image(d) + rest, Image(d);
    ReadImage(d);
    assert b[..148 + 16 * |d.partitions|] == s;
    ReadFields(b, |d.partitions|);
  }

  /** Decoding what was encoded, whatever follows it, gives the label with its checksum. */
  lemma EncodeDecode(op: Op, d: Label, maxpart: int, rest: seq<Byte>)
    requires IsXor(op) && GoodLabel(d, maxpart)
    ensures var b := Encoded(op, d) + rest;
            && |b| >= 148 + 16 * |d.partitions| && Get2(b, 138) == |d.partitions|
            && Readable(b, maxpart) && Decoded(op, b, maxpart) == Ok(WithChecksum(d, ChecksumOf(op, d)))
  {
    var e := WithChecksum(d, ChecksumOf(op, d));
    ImageChecksum(d, ChecksumOf(op, d));
    FieldsAt(e, rest);
    ChecksumZero(op, d, ChecksumOf(op, d));
    ReadImage(e);
    ChecksumPrefix(op, Image(e) + rest, Image(e), WordCount(|d.partitions|));
    assert (Image(e) + rest)[..|Image(e)|] == Image(e);
  }

  /** Encoding what was decoded gives back its bytes exactly. */
  lemma DecodeEncode(op: Op, b: seq<Byte>, maxpart: int, d: Label)
    requires IsXor(op) && Readable(b, maxpart) && Decoded(op, b, maxpart) == Ok(d)
    ensures GoodLabel(d, maxpart) && d.tail.checksum == ChecksumOf(op, d) && Encoded(op, d) == b[..148 + 16 * |d.partitions|]
  {
    var n: int := Get2(b, 138);
    assert Acceptable(op, b, maxpart) && d == LabelIn(b, n);
    ReadGood(op, b, n);
  }

  lemma ReadGood(op: Op, b: seq<Byte>, n: nat)
    requires IsXor(op) && 148 + 16 * n <= |b| && Checksum(op, b, WordCount(n)) == 0
    ensures var d := LabelIn(b, n);
            && d.ident.magic == Get4(b, 0) && d.tail.magic2 == Get4(b, 132) && d.tail.npartitions == Get2(b, 138)
            && |d.partitions| == n && d.tail.checksum == ChecksumOf(op, d) && Encoded(op, d) == b[..148 + 16 * n]
  {
    var s := b[..148 + 16 * n];
    ReadFields(b, n);
    ChecksumPrefix(op, b, s, WordCount(n));
    ReadChecksum(op, s, n);
  }

  lemma ReadFields(b: seq<Byte>, n: nat)
    requires 148 + 16 * n <= |b|
    ensures var d := ReadLabel(b[..148 + 16 * n], n);
            d.ident.magic == Get4(b, 0) && d.tail.magic2 == Get4(b, 132) && d.tail.npartitions == Get2(b, 138)
  {
    var s := b[..148 + 16 * n];
    SliceTwice(b, |s|, 0, 40, 0, 4);
    SliceTwice(b, |s|, 132, 148, 0, 4);
    SliceTwice(b, |s|, 132, 148, 6, 8);
    GetSlice4(s[0..40], 0, b, 0);
    GetSlice4(s[132..148], 0, b, 132);
    GetSlice2(s[132..148], 6, b, 138);
  }

  lemma SliceTwice(b: seq<Byte>, m: nat, i: nat, j: nat, k: nat, l: nat)
    requires i <= j <= m <= |b| && k <= l <= j - i
    ensures b[..m][i..j][k..l] == b[i + k..i + l]
  {
    var x, y := b[..m][i..j][k..l], b[i + k..i + l];
    forall h | 0 <= h < |y| ensures x[h] == y[h] {
      assert x[h] == b[..m][i..j][k + h] == b[..m][i + k + h];
    }
  }

  lemma GetSlice4(x: seq<Byte>, i: nat, s: seq<Byte>, j: nat)
    requires i + 4 <= |x| && j + 4 <= |s| && x[i..i + 4] == s[j..j + 4]
    ensures Get4(x, i) == Get4(s, j)
  {
  }

  lemma GetSlice2(x: seq<Byte>, i: nat, s: seq<Byte>, j: nat)
    requires i + 2 <= |x| && j + 2 <= |s| && x[i..i + 2] == s[j..j + 2]
    ensures Get2(x, i) == Get2(s, j)
  {
  }

  lemma ReadChecksum(op: Op, s: seq<Byte>, n: nat)
    requires IsXor(op) && |s| == 148 + 16 * n && Checksum(op, s, WordCount(n)) == 0
    ensures var d := ReadLabel(s, n); d.tail.checksum == ChecksumOf(op, d) && Encoded(op, d) == s
  {
    ImageRead(s, n);
    CarriesChecksum(op, ReadLabel(s, n));
  }

  /** A label whose image adds up to zero carries its own checksum. */
  lemma CarriesChecksum(op: Op, d: Label)
    requires IsXor(op) && Checksum(op, Image(d), WordCount(|d.partitions|)) == 0
    ensures d.tail.checksum == ChecksumOf(op, d) && Encoded(op, d) == Image(d)
  {
    assert WithChecksum(d, d.tail.checksum) == d;
    ImageChecksum(d, d.tail.checksum);
    ChecksumZero(op, d, d.tail.checksum);
  }

  // The code: fields are written into a buffer, and read from it, at their places.

  lemma LeTwo(v: Word)
    ensures Le2(v) == [v % 256, v / 256]
  {
    assert Le(1, v / 256) == [v / 256 % 256] + Le(0, v / 256 / 256);
  }

  lemma LeFour(v: U32)
    ensures Le4(v) == [v % 256, v / 0x100 % 256, v / 0x1_0000 % 256, v / 0x100_0000]
  {
    var a := v / 256;
    assert a / 256 == v / 0x1_0000 && a / 256 / 256 == v / 0x100_0000;
    assert Le(3, a) == [a % 256] + Le(2, a / 256);
    assert Le(2, a / 256) == [a / 256 % 256] + Le(1, a / 256 / 256);
    assert Le(1, a / 256 / 256) == [a / 256 / 256 % 256] + Le(0, a / 256 / 256 / 256);
  }

  lemma NumTwo(b: seq<Byte>)
    requires |b| == 2
    ensures Num(b) == b[0] as int + 256 * b[1] as int
  {
    assert b[1..] == [b[1]] && b[1..][1..] == [];
  }

  lemma NumFour(b: seq<Byte>)
    requires |b| == 4
    ensures Num(b) == b[0] as int + 0x100 * b[1] as int + 0x1_0000 * b[2] as int + 0x100_0000 * b[3] as int
  {
    NumTwo(b[2..]);
    assert b[1..][1..] == b[2..];
    assert Num(b[1..]) == b[1] as int + 256 * Num(b[2..]);
  }

  /** Bytes from `from` on are the same. */
  ghost predicate Kept(now: seq<Byte>, was: seq<Byte>, from: int) {
    |now| == |was| && forall i {:trigger now[i]} :: 0 <= from <= i < |now| ==> now[i] == was[i]
  }

  method Enc32(ptr: array<Byte>, at: nat, v: U32)
    requires at + 4 <= ptr.Length
    modifies ptr
    ensures ptr[..at + 4] == old(ptr[..at]) + Le4(v) && Kept(ptr[..], old(ptr[..]), at + 4)
  {
    LeFour(v);
    ptr[at], ptr[at + 1], ptr[at + 2], ptr[at + 3] := v % 256, v / 0x100 % 256, v / 0x1_0000 % 256, v / 0x100_0000;
    assert ptr[..at + 4] == old(ptr[..at]) + [v % 256, v / 0x100 % 256, v / 0x1_0000 % 256, v / 0x100_0000];
  }

  method Enc16(ptr: array<Byte>, at: nat, v: Word)
    requires at + 2 <= ptr.Length
    modifies ptr
    ensures ptr[..at + 2] == old(ptr[..at]) + Le2(v) && Kept(ptr[..], old(ptr[..]), at + 2)
  {
    LeTwo(v);
    ptr[at], ptr[at + 1] := v % 256, v / 256;
    assert ptr[..at + 2] == old(ptr[..at]) + [v % 256, v / 256];
  }

  method EncBytes(ptr: array<Byte>, at: nat, s: seq<Byte>)
    requires at + |s| <= ptr.Length
    modifies ptr
    ensures ptr[..at + |s|] == old(ptr[..at]) + s && Kept(ptr[..], old(ptr[..]), at + |s|)
  {
    for i := 0 to |s|
      invariant ptr[..at + i] == old(ptr[..at]) + s[..i] && Kept(ptr[..], old(ptr[..]), at + i)
    {
      ptr[at + i] := s[i];
      assert ptr[..at + i + 1] == ptr[..at + i] + [s[i]];
    }
  }

  method EncPartition(ptr: array<Byte>, at: nat, g: Partition)
    requires at + 16 <= ptr.Length
    modifies ptr
    ensures ptr[..at + 16] == old(ptr[..at]) + PutPartition(g) && Kept(ptr[..], old(ptr[..]), at + 16)
  {
    ghost var x := ptr[..at];
    Enc32(ptr, at, g.size);
    Enc32(ptr, at + 4, g.offset);
    Enc32(ptr, at + 8, g.fsize);
    EncBytes(ptr, at + 12, [g.fstype]);
    EncBytes(ptr, at + 13, [g.frag]);
    Enc16(ptr, at + 14, g.cpg);
    assert ptr[..at + 16] == x + PutPartition(g);
  }

  method EncIdent(ptr: array<Byte>, g: Ident)
    requires 148 <= ptr.Length
    modifies ptr
    ensures ptr[..40] == PutIdent(g) && Kept(ptr[..], old(ptr[..]), 40)
  {
    Enc32(ptr, 0, g.magic);
    Enc16(ptr, 4, g.kind);
    Enc16(ptr, 6, g.subtype);
    EncBytes(ptr, 8, g.typename);
    EncBytes(ptr, 24, g.packname);
    assert old(ptr[..0]) == [];
  }

  method EncGeometry(ptr: array<Byte>, g: Geometry)
    requires 148 <= ptr.Length
    modifies ptr
    ensures ptr[..72] == old(ptr[..40]) + PutGeometry(g) && Kept(ptr[..], old(ptr[..]), 72)
  {
    Enc32(ptr, 40, g.secsize);
    Enc32(ptr, 44, g.nsectors);
    Enc32(ptr, 48, g.ntracks);
    Enc32(ptr, 52, g.ncylinders);
    Enc32(ptr, 56, g.secpercyl);
    Enc32(ptr, 60, g.secperunit);
    Enc16(ptr, 64, g.sparespertrack);
    Enc16(ptr, 66, g.sparespercyl);
    Enc32(ptr, 68, g.acylinders);
  }

  method EncTiming(ptr: array<Byte>, g: Timing)
    requires 148 <= ptr.Length
    modifies ptr
    ensures ptr[..92] == old(ptr[..72]) + PutTiming(g) && Kept(ptr[..], old(ptr[..]), 92)
  {
    Enc16(ptr, 72, g.rpm);
    Enc16(ptr, 74, g.interleave);
    Enc16(ptr, 76, g.trackskew);
    Enc16(ptr, 78, g.cylskew);
    Enc32(ptr, 80, g.headswitch);
    Enc32(ptr, 84, g.trkseek);
    Enc32(ptr, 88, g.flags);
  }

  method EncFive(ptr: array<Byte>, at: nat, g: Five)
    requires at + 20 <= ptr.Length
    modifies ptr
    ensures ptr[..at + 20] == old(ptr[..at]) + PutFive(g) && Kept(ptr[..], old(ptr[..]), at + 20)
  {
    Enc32(ptr, at, g[0]);
    Enc32(ptr, at + 4, g[1]);
    Enc32(ptr, at + 8, g[2]);
    Enc32(ptr, at + 12, g[3]);
    Enc32(ptr, at + 16, g[4]);
  }

  method EncTail(ptr: array<Byte>, g: Tail)
    requires 148 <= ptr.Length
    modifies ptr
    ensures ptr[..148] == old(ptr[..132]) + PutTail(g.(checksum := 0)) && Kept(ptr[..], old(ptr[..]), 148)
  {
    Enc32(ptr, 132, g.magic2);
    Enc16(ptr, 136, 0);
    Enc16(ptr, 138, g.npartitions);
    Enc32(ptr, 140, g.bbsize);
    Enc32(ptr, 144, g.sbsize);
  }

  /** The exclusive or of the first `k` 16-bit words. */
  method SumWords(op: Op, ptr: array<Byte>, k: nat) returns (sum: Word)
    requires 2 * k <= ptr.Length
    ensures sum == Checksum(op, ptr[..], k)
  {
    sum := 0;
    ghost var ws := WordsOf(ptr[..], k);
    for i := 0 to k
      invariant sum == Fold(op, ws[..i])
    {
      assert ws[..i + 1][..i] == ws[..i];
      var w := Dec16(ptr, 2 * i);
      sum := op(sum, w);
    }
    assert ws[..k] == ws;
  }

  /** The fixed part, with a zero for the checksum. */
  method EncFixed(ptr: array<Byte>, d: Label)
    requires 148 <= ptr.Length
    modifies ptr
    ensures ptr[..148] == Front(d) + PutTail(d.tail.(checksum := 0)) && Kept(ptr[..], old(ptr[..]), 148)
  {
    EncIdent(ptr, d.ident);
    EncGeometry(ptr, d.geometry);
    EncTiming(ptr, d.timing);
    EncFive(ptr, 92, d.drivedata);
    EncFive(ptr, 112, d.spare);
    EncTail(ptr, d.tail);
  }

  method EncPartitions(ptr: array<Byte>, ps: seq<Partition>)
    requires 148 + 16 * |ps| <= ptr.Length
    modifies ptr
    ensures ptr[..148 + 16 * |ps|] == old(ptr[..148]) + PutPartitions(ps) && Kept(ptr[..], old(ptr[..]), 148 + 16 * |ps|)
  {
    ghost var front := ptr[..148];
    assert front + PutPartitions(ps[..0]) == front;
    for i := 0 to |ps|
      invariant ptr[..148 + 16 * i] == front + PutPartitions(ps[..i]) && Kept(ptr[..], old(ptr[..]), 148 + 16 * i)
    {
      EncPartition(ptr, 148 + 16 * i, ps[i]);
      assert ps[..i + 1][..i] == ps[..i];
      Regroup(front, PutPartitions(ps[..i]), PutPartition(ps[i]));
    }
    assert ps[..|ps|] == ps;
  }

  lemma Regroup(x: seq<Byte>, y: seq<Byte>, z: seq<Byte>)
    ensures x + y + z == x + (y + z)
  {
  }

  /** The encoder. */
  method LabelEnc(ptr: array<Byte>, d: Label)
    requires |d.partitions| == d.tail.npartitions && 148 + 16 * |d.partitions| <= ptr.Length
    modifies ptr
    ensures ptr[..148 + 16 * |d.partitions|] == Encoded(Xor16, d)
    ensures Kept(ptr[..], old(ptr[..]), 148 + 16 * |d.partitions|)
  {
    LabelEncWith(Xor16, ptr, d);
  }

  method LabelEncWith(op: Op, ptr: array<Byte>, d: Label)
    requires 148 + 16 * |d.partitions| <= ptr.Length
    modifies ptr
    ensures ptr[..148 + 16 * |d.partitions|] == Encoded(op, d)
    ensures Kept(ptr[..], old(ptr[..]), 148 + 16 * |d.partitions|)
  {
    EncPlain(ptr, d);
    var end := 148 + 16 * |d.partitions|;
    ghost var b := ptr[..end];
    var sum := SumWords(op, ptr, WordCount(|d.partitions|));
    ChecksumPrefix(op, ptr[..], b, WordCount(|d.partitions|));
    Enc16(ptr, 136, sum);
    assert ptr[..end][..138] == ptr[..138];
    Patched(Before(d), After(d), b, ptr[..end], sum);
  }

  /** Everything, with a zero for the checksum. */
  method EncPlain(ptr: array<Byte>, d: Label)
    requires 148 + 16 * |d.partitions| <= ptr.Length
    modifies ptr
    ensures ptr[..148 + 16 * |d.partitions|] == ImageWith(d, 0)
    ensures Kept(ptr[..], old(ptr[..]), 148 + 16 * |d.partitions|)
  {
    EncFixed(ptr, d);
    EncPartitions(ptr, d.partitions);
    ImageChecksum(d, 0);
  }

  lemma Patched(x: seq<Byte>, y: seq<Byte>, b: seq<Byte>, c: seq<Byte>, v: Word)
    requires |x| == 136 && |b| == |c| >= 138 && b == x + Le2(0) + y
    requires c[..138] == b[..136] + Le2(v) && forall i {:trigger c[i]} :: 138 <= i < |c| ==> c[i] == b[i]
    ensures c == x + Le2(v) + y
  {
    assert b[..136] == x && b[138..] == y;
    assert c == c[..138] + c[138..] && c[138..] == b[138..];
  }

  /** The decoder: the first thing wrong stops it. */
  method LabelDec(ptr: array<Byte>, maxpart: int) returns (r: Result)
    requires Readable(ptr[..], maxpart)
    ensures r == Decoded(Xor16, ptr[..], maxpart)
  {
    r := LabelDecWith(Xor16, ptr, maxpart);
  }

  lemma Rejoin(b: seq<Byte>, e: seq<Byte>, n: nat)
    requires n <= |b| && b[..n] == e
    ensures b == e + b[n..]
  {
  }

  /** The encoder and then the decoder, with the operator of the source: the label comes back with its checksum. */
  method WriteThenRead(ptr: array<Byte>, d: Label, maxpart: int) returns (r: Result)
    requires GoodLabel(d, maxpart) && 148 + 16 * |d.partitions| <= ptr.Length
    modifies ptr
    ensures r == Ok(WithChecksum(d, ChecksumOf(Xor16, d)))
    ensures Kept(ptr[..], old(ptr[..]), 148 + 16 * |d.partitions|)
  {
    LabelEnc(ptr, d);
    Xor16IsXor();
    ghost var end := 148 + 16 * |d.partitions|;
    EncodeDecode(Xor16, d, maxpart, ptr[..][end..]);
    Rejoin(ptr[..], Encoded(Xor16, d), end);
    r := LabelDec(ptr, maxpart);
  }

  /** The decoder and then, if it accepts, the encoder into another buffer: the same bytes. */
  method ReadThenWrite(ptr: array<Byte>, copy: array<Byte>, maxpart: int) returns (r: Result)
    requires Readable(ptr[..], maxpart) && ptr != copy && copy.Length == ptr.Length
    modifies copy
    ensures r.Ok? ==> 148 + 16 * |r.value.partitions| <= ptr.Length
    ensures r.Ok? ==> copy[..148 + 16 * |r.value.partitions|] == ptr[..148 + 16 * |r.value.partitions|]
  {
    r := LabelDec(ptr, maxpart);
    if r.Ok? {
      Xor16IsXor();
      DecodeEncode(Xor16, ptr[..], maxpart, r.value);
      assert |Encoded(Xor16, r.value)| == 148 + 16 * |r.value.partitions|;
      LabelEnc(copy, r.value);
      assert ptr[..148 + 16 * |r.value.partitions|] == ptr[..][..148 + 16 * |r.value.partitions|];
    }
  }

  method LabelDecWith(op: Op, ptr: array<Byte>, maxpart: int) returns (r: Result)
    requires Readable(ptr[..], maxpart)
    ensures r == Decoded(op, ptr[..], maxpart)
  {
    var ok := CheckMagic(ptr);
    var n: int := Dec16(ptr, 138);
    if !ok || n > maxpart {
      return Error(EINVAL);
    }
    r := DecSummed(op, ptr, n);
    assert ptr[..148 + 16 * n] == ptr[..][..148 + 16 * n];
  }

  /** The checksum is tried before the fields are read. */
  method DecSummed(op: Op, ptr: array<Byte>, n: nat) returns (r: Result)
    requires 148 + 16 * n <= ptr.Length
    ensures r == if Checksum(op, ptr[..], WordCount(n)) != 0 then Error(EINVAL) else Ok(LabelIn(ptr[..], n))
  {
    var sum := SumWords(op, ptr, WordCount(n));
    if sum != 0 {
      return Error(EINVAL);
    }
    var d := DecLabel(ptr, n);
    r := Ok(d);
  }

  method CheckMagic(ptr: array<Byte>) returns (ok: bool)
    requires 148 <= ptr.Length
    ensures ok == (Get4(ptr[..], 0) == DISKMAGIC && Get4(ptr[..], 132) == DISKMAGIC)
  {
    var magic := Dec32(ptr, 0);
    if magic != DISKMAGIC {
      return false;
    }
    var magic2 := Dec32(ptr, 132);
    ok := magic2 == DISKMAGIC;
  }

  method Dec32(ptr: array<Byte>, at: nat) returns (v: U32)
    requires at + 4 <= ptr.Length
    ensures v == Get4(ptr[..], at)
  {
    NumFour(ptr[..][at..at + 4]);
    v := ptr[at] as int + 0x100 * ptr[at + 1] as int + 0x1_0000 * ptr[at + 2] as int + 0x100_0000 * ptr[at + 3] as int;
  }

  method Dec16(ptr: array<Byte>, at: nat) returns (v: Word)
    requires at + 2 <= ptr.Length
    ensures v == Get2(ptr[..], at)
  {
    NumTwo(ptr[..][at..at + 2]);
    v := ptr[at] as int + 256 * ptr[at + 1] as int;
  }

  lemma SubSlice(b: seq<Byte>, lo: nat, hi: nat, i: nat, j: nat)
    requires i <= j && lo + j <= hi <= |b|
    ensures b[lo..hi][i..j] == b[lo + i..lo + j]
  {
    var x, y := b[lo..hi][i..j], b[lo + i..lo + j];
    forall h | 0 <= h < |y| ensures x[h] == y[h] {
      assert x[h] == b[lo..hi][i + h];
    }
  }

  /** The number at place `i` of the group of fields from `lo` to `hi`. */
  method Field32(ptr: array<Byte>, ghost hi: nat, lo: nat, i: nat) returns (v: U32)
    requires lo + i + 4 <= hi <= ptr.Length
    ensures v == Get4(ptr[lo..hi], i)
  {
    v := Dec32(ptr, lo + i);
    SubSlice(ptr[..], lo, hi, i, i + 4);
    assert ptr[..][lo..hi] == ptr[lo..hi];
    GetSlice4(ptr[lo..hi], i, ptr[..], lo + i);
  }

  method Field16(ptr: array<Byte>, ghost hi: nat, lo: nat, i: nat) returns (v: Word)
    requires lo + i + 2 <= hi <= ptr.Length
    ensures v == Get2(ptr[lo..hi], i)
  {
    v := Dec16(ptr, lo + i);
    SubSlice(ptr[..], lo, hi, i, i + 2);
    assert ptr[..][lo..hi] == ptr[lo..hi];
    GetSlice2(ptr[lo..hi], i, ptr[..], lo + i);
  }

  method DecBytes(ptr: array<Byte>, at: nat, n: nat) returns (s: seq<Byte>)
    requires at + n <= ptr.Length
    ensures s == ptr[at..at + n]
  {
    s := [];
    for i := 0 to n
      invariant s == ptr[at..at + i]
    {
      s := s + [ptr[at + i]];
    }
  }

  method DecIdent(ptr: array<Byte>) returns (g: Ident)
    requires 40 <= ptr.Length
    ensures g == GetIdent(ptr[0..40])
  {
    var magic := Field32(ptr, 40, 0, 0);
    var kind := Field16(ptr, 40, 0, 4);
    var subtype := Field16(ptr, 40, 0, 6);
    var typename := DecBytes(ptr, 8, 16);
    var packname := DecBytes(ptr, 24, 16);
    assert ptr[0..40][8..24] == ptr[8..24] && ptr[0..40][24..40] == ptr[24..40];
    g := Ident(magic, kind, subtype, typename, packname);
  }

  method DecGeometry(ptr: array<Byte>) returns (g: Geometry)
    requires 72 <= ptr.Length
    ensures g == GetGeometry(ptr[40..72])
  {
    var secsize := Field32(ptr, 72, 40, 0);
    var nsectors := Field32(ptr, 72, 40, 4);
    var ntracks := Field32(ptr, 72, 40, 8);
    var ncylinders := Field32(ptr, 72, 40, 12);
    var secpercyl := Field32(ptr, 72, 40, 16);
    var secperunit := Field32(ptr, 72, 40, 20);
    var sparespertrack := Field16(ptr, 72, 40, 24);
    var sparespercyl := Field16(ptr, 72, 40, 26);
    var acylinders := Field32(ptr, 72, 40, 28);
    g := Geometry(secsize, nsectors, ntracks, ncylinders, secpercyl, secperunit, sparespertrack, sparespercyl, acylinders);
  }

  method DecTiming(ptr: array<Byte>) returns (g: Timing)
    requires 92 <= ptr.Length
    ensures g == GetTiming(ptr[72..92])
  {
    var rpm := Field16(ptr, 92, 72, 0);
    var interleave := Field16(ptr, 92, 72, 2);
    var trackskew := Field16(ptr, 92, 72, 4);
    var cylskew := Field16(ptr, 92, 72, 6);
    var headswitch := Field32(ptr, 92, 72, 8);
    var trkseek := Field32(ptr, 92, 72, 12);
    var flags := Field32(ptr, 92, 72, 16);
    g := Timing(rpm, interleave, trackskew, cylskew, headswitch, trkseek, flags);
  }

  method DecFive(ptr: array<Byte>, at: nat) returns (g: Five)
    requires at + 20 <= ptr.Length
    ensures g == GetFive(ptr[at..at + 20])
  {
    var a := Field32(ptr, at + 20, at, 0);
    var b := Field32(ptr, at + 20, at, 4);
    var c := Field32(ptr, at + 20, at, 8);
    var d := Field32(ptr, at + 20, at, 12);
    var e := Field32(ptr, at + 20, at, 16);
    g := [a, b, c, d, e];
  }

  method DecTail(ptr: array<Byte>) returns (g: Tail)
    requires 148 <= ptr.Length
    ensures g == GetTail(ptr[132..148])
  {
    var magic2 := Field32(ptr, 148, 132, 0);
    var checksum := Field16(ptr, 148, 132, 4);
    var npartitions := Field16(ptr, 148, 132, 6);
    var bbsize := Field32(ptr, 148, 132, 8);
    var sbsize := Field32(ptr, 148, 132, 12);
    g := Tail(magic2, checksum, npartitions, bbsize, sbsize);
  }

  method DecPartition(ptr: array<Byte>, at: nat) returns (g: Partition)
    requires at + 16 <= ptr.Length
    ensures g == GetPartition(ptr[at..at + 16])
  {
    var size := Field32(ptr, at + 16, at, 0);
    var offset := Field32(ptr, at + 16, at, 4);
    var fsize := Field32(ptr, at + 16, at, 8);
    var cpg := Field16(ptr, at + 16, at, 14);
    assert ptr[at..at + 16][12] == ptr[at + 12] && ptr[at..at + 16][13] == ptr[at + 13];
    g := Partition(size, offset, fsize, ptr[at + 12], ptr[at + 13], cpg);
  }

  /** The fields, group by group, and the partitions one after the other. */
  method DecLabel(ptr: array<Byte>, n: nat) returns (d: Label)
    requires 148 + 16 * n <= ptr.Length
    ensures d == ReadLabel(ptr[..148 + 16 * n], n)
  {
    ghost var b := ptr[..148 + 16 * n];
    var ident := DecIdent(ptr);
    var geometry := DecGeometry(ptr);
    var timing := DecTiming(ptr);
    var drivedata := DecFive(ptr, 92);
    var spare := DecFive(ptr, 112);
    var tail := DecTail(ptr);
    assert ptr[0..40] == b[0..40] && ptr[40..72] == b[40..72] && ptr[72..92] == b[72..92] && ptr[92..112] == b[92..112];
    assert ptr[112..132] == b[112..132] && ptr[132..148] == b[132..148];
    var ps := DecPartitions(ptr, n);
    assert ptr[148..148 + 16 * n] == b[148..];
    d := Label(ident, geometry, timing, drivedata, spare, tail, ps);
  }

  lemma OneMore(b: seq<Byte>, i: nat)
    requires 164 + 16 * i <= |b|
    ensures GetPartitions(b[148..164 + 16 * i], i + 1)
         == GetPartitions(b[148..148 + 16 * i], i) + [GetPartition(b[148 + 16 * i..164 + 16 * i])]
  {
    var x := b[148..164 + 16 * i];
    assert x[..16 * i] == b[148..148 + 16 * i] && x[16 * i..] == b[148 + 16 * i..164 + 16 * i];
  }

  method DecPartitions(ptr: array<Byte>, n: nat) returns (ps: seq<Partition>)
    requires 148 + 16 * n <= ptr.Length
    ensures ps == GetPartitions(ptr[148..148 + 16 * n], n)
  {
    ps := [];
    for i := 0 to n
      invariant ps == GetPartitions(ptr[148..148 + 16 * i], i)
    {
      var at := 148 + 16 * i;
      var g := DecPartition(ptr, at);
      OneMore(ptr[..], i);
      assert ptr[148..at + 16] == ptr[..][148..at + 16] && ptr[148..at] == ptr[..][148..at];
      ps := ps + [g];
    }
  }
}
