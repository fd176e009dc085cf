/** The part of the ustar interchange format of POSIX.1 pax that textdumps use: headers, data blocks and a reader. */
module Tar {
  import opened Numbers

  const BLOCK := 512

  function Spaces(n: nat): (z: seq<Byte>)
    ensures |z| == n && forall i :: 0 <= i < n ==> z[i] == 32
  {
    seq(n, _ => 32)
  }

  type Block = b: seq<Byte> | |b| == BLOCK witness Zeros(BLOCK)

  /** The bytes of an ASCII string. */
  function Ascii(s: string): (b: seq<Byte>)
    ensures |b| == |s|
  {
    seq(|s|, i requires 0 <= i < |s| => s[i] as int % 256)
  }

  // Octal numbers.

  function OctalDigits(n: nat): (d: seq<Byte>)
    ensures d != [] && forall i :: 0 <= i < |d| ==> IsOctal(d[i])
  {
    if n < 8 then [48 + n] else OctalDigits(n / 8) + [48 + n % 8]
  }

  predicate IsOctal(c: Byte) {
    48 <= c < 56
  }

  /** One more than the largest unsigned int. */
  const UINT := 0x1_0000_0000

  function Pow8(k: nat): (p: nat)
    ensures p > 0
  {
    if k == 0 then 1 else 8 * Pow8(k - 1)
  }

  lemma {:induction false} OctalLength(n: nat, k: nat)
    requires k > 0 && n < Pow8(k)
    ensures |OctalDigits(n)| <= k
  {
    if n >= 8 && k > 1 {
      OctalLength(n / 8, k - 1);
    }
  }

  function Shift(v: nat, d: seq<Byte>): int {
    if d == [] then v else Shift(v, d[..|d| - 1]) * 8 + (d[|d| - 1] as int - 48)
  }

  lemma {:induction false} DigitsValue(n: nat)
    ensures Shift(0, OctalDigits(n)) == n
  {
    var d := OctalDigits(n);
    if n < 8 {
      assert d[..0] == [];
    } else {
      DigitsValue(n / 8);
      assert d[..|d| - 1] == OctalDigits(n / 8);
    }
  }

  /** The value of the octal digits at `i`, after `v`, up to the first other character. */
  function Parse(s: seq<Byte>, i: nat, v: nat): nat
    requires i <= |s|
    decreases |s| - i
  {
    if i < |s| && IsOctal(s[i]) then Parse(s, i + 1, v * 8 + (s[i] - 48)) else v
  }

  /** A numeric field: spaces, digits, and anything after them. */
  function ReadOctal(s: seq<Byte>): nat {
    Parse(s, SkipSpaces(s, 0), 0)
  }

  function SkipSpaces(s: seq<Byte>, i: nat): (j: nat)
    requires i <= |s|
    ensures i <= j <= |s|
    decreases |s| - i
  {
    if i < |s| && s[i] == 32 then SkipSpaces(s, i + 1) else i
  }

  lemma {:induction false} SkipTo(s: seq<Byte>, i: nat, j: nat)
    requires i <= j <= |s| && (forall k :: i <= k < j ==> s[k] == 32) && (j < |s| ==> s[j] != 32)
    ensures SkipSpaces(s, i) == j
    decreases j - i
  {
    if i < j {
      SkipTo(s, i + 1, j);
    }
  }

  lemma {:induction false} ParseRun(s: seq<Byte>, i: nat, j: nat, e: nat)
    requires i <= j <= e <= |s| && (forall k :: i <= k < e ==> IsOctal(s[k])) && Shift(0, s[i..j]) >= 0
    requires e < |s| ==> !IsOctal(s[e])
    ensures Parse(s, j, Shift(0, s[i..j])) == Shift(0, s[i..e])
    decreases e - j
  {
    if j < e {
      assert s[i..j + 1][..j - i] == s[i..j];
      ParseRun(s, i, j + 1, e);
    }
  }

  /** A field of spaces, digits and an end character reads as its number. */
  lemma FieldValue(k: nat, n: nat, rest: seq<Byte>)
    requires rest == [] || !IsOctal(rest[0])
    ensures ReadOctal(Spaces(k) + OctalDigits(n) + rest) == n
  {
    var d := OctalDigits(n);
    var s := Spaces(k) + d + rest;
    assert s[k] == d[0] && IsOctal(d[0]);
    SkipTo(s, 0, k);
    assert s[k..k] == [] && s[k..k + |d|] == d;
    forall i | k <= i < k + |d| ensures IsOctal(s[i]) {
      assert s[i] == d[i - k];
    }
    ParseRun(s, k, k, k + |d|);
    DigitsValue(n);
  }

  // Headers.

  /** Text in a field of `n` bytes, cut to leave room for a NUL and filled with NULs. */
  function Field(text: seq<Byte>, n: nat): (f: seq<Byte>)
    requires n > 0
    ensures |f| == n
  {
    var t := if |text| < n then text else text[..n - 1];
    t + Zeros(n - |t|)
  }

  lemma {:induction false} SumBound(s: seq<Byte>)
    ensures ByteSum(s) <= 255 * |s|
  {
    if s != [] {
      SumBound(s[..|s| - 1]);
    }
  }

  /** The first 148 bytes: name, mode, owner, group, size, time. */
  function HeaderFront(name: seq<Byte>, size: nat, mtime: nat): (f: seq<Byte>)
    ensures |f| == 148
  {
    Field(name, 100) + Field(Ascii("0600"), 8) + Field(Ascii("0"), 8) + Field(Ascii("0"), 8)
    + Field(OctalDigits(size % UINT), 12) + Field(OctalDigits(mtime), 12)
  }

  /** The last 356 bytes: type, link, magic, version, owner, group, device numbers, prefix, padding. */
  function HeaderBack(): (f: seq<Byte>)
    ensures |f| == 356
  {
    Zeros(1) + Zeros(100) + Field(Ascii("ustar"), 6) + Zeros(2) + Field(Ascii("root"), 32) + Field(Ascii("wheel"), 32)
    + Zeros(8) + Zeros(8) + Zeros(155) + Zeros(12)
  }

  /** The sum in six columns, a NUL, and the last of the blanks the field held while the sum was taken. */
  function SumField(sum: nat): (f: seq<Byte>) {
    var d := OctalDigits(sum);
    Spaces(if |d| < 6 then 6 - |d| else 0) + d + [0, 32]
  }

  lemma SumFieldLength(sum: nat)
    requires sum <= 255 * BLOCK
    ensures |SumField(sum)| == 8
  {
    assert Pow8(6) == 262144;
    OctalLength(sum, 6);
  }

  function Header(name: seq<Byte>, size: nat, mtime: nat): (h: seq<Byte>)
    ensures |h| == BLOCK
  {
    var front, back := HeaderFront(name, size, mtime), HeaderBack();
    var sum := ByteSum(front + Spaces(8) + back);
    SumBound(front + Spaces(8) + back);
    SumFieldLength(sum);
    front + SumField(sum) + back
  }

  // What a reader takes from a header.

  predicate HeaderOk(b: Block) {
    ReadOctal(b[148..156]) == ByteSum(b[..148] + Spaces(8) + b[156..])
  }

  function SizeOf(b: Block): nat {
    ReadOctal(b[124..136])
  }

  /** The name up to its NUL. */
  function NameOf(b: Block): seq<Byte> {
    b[..FirstNul(b, 0)]
  }

  function FirstNul(s: seq<Byte>, i: nat): (j: nat)
    requires i <= |s|
    ensures i <= j <= |s| && (j < |s| ==> s[j] == 0) && forall k :: i <= k < j ==> s[k] != 0
    decreases |s| - i
  {
    if i < |s| && s[i] != 0 then FirstNul(s, i + 1) else i
  }

  /** A name that fits its field. */
  ghost predicate GoodName(name: seq<Byte>) {
    |name| < 100 && 0 !in name
  }

  lemma HeaderSum(name: seq<Byte>, size: nat, mtime: nat)
    ensures HeaderOk(Header(name, size, mtime))
  {
    var front, back := HeaderFront(name, size, mtime), HeaderBack();
    var whole := front + Spaces(8) + back;
    var sum := ByteSum(whole);
    SumBound(whole);
    SumFieldLength(sum);
    var h, f := Header(name, size, mtime), SumField(sum);
    Slices(front, f, back, h);
    var d := OctalDigits(sum);
    FieldValue(if |d| < 6 then 6 - |d| else 0, sum, [0, 32]);
  }

  lemma Slices(x: seq<Byte>, y: seq<Byte>, z: seq<Byte>, s: seq<Byte>)
    requires s == x + y + z
    ensures s[..|x|] == x && s[|x|..|x| + |y|] == y && s[|x| + |y|..] == z
  {
  }

  lemma Eleven()
    ensures UINT < Pow8(11)
  {
    assert Pow8(4) == 4096;
    assert Pow8(8) == 16777216;
  }

  /** The size field reads as the size, which is an unsigned int; eleven digits always hold it. */
  lemma HeaderSize(name: seq<Byte>, size: nat, mtime: nat)
    ensures SizeOf(Header(name, size, mtime)) == size % UINT
    ensures SizeOf(Header(name, size, mtime)) == size <==> size < UINT
  {
    var n := size % UINT;
    var h, d := Header(name, size, mtime), OctalDigits(n);
    Eleven();
    OctalLength(n, 11);
    var x := Field(name, 100) + Field(Ascii("0600"), 8) + Field(Ascii("0"), 8) + Field(Ascii("0"), 8);
    var front := HeaderFront(name, size, mtime);
    assert front == x + Field(d, 12) + Field(OctalDigits(mtime), 12);
    Slices(x, Field(d, 12), Field(OctalDigits(mtime), 12), front);
    assert h[..148] == front;
    assert h[124..136] == front[124..136] == d + Zeros(12 - |d|);
    assert d + Zeros(12 - |d|) == Spaces(0) + d + Zeros(12 - |d|);
    FieldValue(0, n, Zeros(12 - |d|));
  }

  lemma HeaderName(name: seq<Byte>, size: nat, mtime: nat)
    requires GoodName(name)
    ensures NameOf(Header(name, size, mtime)) == name
  {
    var h, front := Header(name, size, mtime), HeaderFront(name, size, mtime);
    assert h[..148] == front && front[..100] == Field(name, 100);
    assert h[..100] == name + Zeros(100 - |name|);
    forall k | 0 <= k < |name| ensures h[k] != 0 {
      assert h[..100][k] == name[k];
    }
    assert h[..100][|name|] == 0;
    assert h[..|name|] == h[..100][..|name|] == name;
  }

  /** A block of zeros is no header. */
  lemma ZeroBlock()
    ensures !HeaderOk(Zeros(BLOCK))
  {
    var z: Block := Zeros(BLOCK);
    assert z[148..156][0] == 0;
    assert ReadOctal(z[148..156]) == 0;
    SumAtLeast(z[..148] + Spaces(8) + z[156..], 148);
  }

  lemma {:induction false} SumAtLeast(s: seq<Byte>, i: nat)
    requires i < |s|
    ensures ByteSum(s) >= s[i]
  {
    if i < |s| - 1 {
      SumAtLeast(s[..|s| - 1], i);
    }
  }

  // Files.

  datatype File = File(name: seq<Byte>, data: seq<Byte>)

  /** Data in whole blocks, the last one filled with zeros. */
  function DataBlocks(d: seq<Byte>): (bs: seq<Block>)
    decreases |d|
  {
    if d == [] then []
    else if |d| <= BLOCK then [d + Zeros(BLOCK - |d|)]
    else [d[..BLOCK]] + DataBlocks(d[BLOCK..])
  }

  /** A full block goes out whatever follows it. */
  lemma FullBlock(p: seq<Byte>, rest: seq<Byte>)
    requires |p| == BLOCK
    ensures DataBlocks(p + rest) == [p] + DataBlocks(rest)
  {
    if rest == [] {
      assert p + rest == p && p + Zeros(0) == p;
    } else {
      assert (p + rest)[..BLOCK] == p && (p + rest)[BLOCK..] == rest;
    }
  }

  /** Appending the zeros of the last block does not change the blocks. */
  lemma {:induction false} PaddedBlocks(d: seq<Byte>, n: nat)
    requires d != [] && n < BLOCK && (|d| + n) % BLOCK == 0
    ensures DataBlocks(d + Zeros(n)) == DataBlocks(d)
    decreases |d|
  {
    PadExact(|d|, n);
    if |d| <= BLOCK {
      FullBlock(d + Zeros(n), []);
      assert d + Zeros(n) + [] == d + Zeros(n);
    } else {
      PaddedBlocks(d[BLOCK..], n);
      assert (d + Zeros(n))[..BLOCK] == d[..BLOCK] && (d + Zeros(n))[BLOCK..] == d[BLOCK..] + Zeros(n);
    }
  }

  lemma PadExact(len: nat, n: nat)
    requires 0 < len && n < BLOCK && (len + n) % BLOCK == 0
    ensures len <= BLOCK ==> len + n == BLOCK
    ensures len > BLOCK ==> (len - BLOCK + n) % BLOCK == 0
  {
  }

  /** How many blocks `size` bytes take. */
  function BlocksFor(size: nat): nat {
    (size + BLOCK - 1) / BLOCK
  }

  lemma {:induction false} DataBlocksCount(d: seq<Byte>)
    ensures |DataBlocks(d)| == BlocksFor(|d|)
    decreases |d|
  {
    if |d| > BLOCK {
      DataBlocksCount(d[BLOCK..]);
    }
  }

  function Join(bs: seq<Block>): (d: seq<Byte>)
    ensures |d| == BLOCK * |bs|
  {
    if bs == [] then [] else bs[0] + Join(bs[1..])
  }

  /** The blocks hold the data, then zeros only. */
  lemma {:induction false} JoinData(d: seq<Byte>)
    ensures |d| <= BLOCK * |DataBlocks(d)| && Join(DataBlocks(d)) == d + Zeros(BLOCK * |DataBlocks(d)| - |d|)
    decreases |d|
  {
    var bs := DataBlocks(d);
    if d == [] {
    } else if |d| <= BLOCK {
      assert bs[1..] == [];
      assert Join(bs) == bs[0] + [];
    } else {
      JoinData(d[BLOCK..]);
      assert bs[1..] == DataBlocks(d[BLOCK..]);
      assert d == d[..BLOCK] + d[BLOCK..];
    }
  }

  function FileBlocks(f: File, mtime: nat): seq<Block> {
    [Header(f.name, |f.data|, mtime)] + DataBlocks(f.data)
  }

  function Archive(fs: seq<File>, mtime: nat): seq<Block> {
    if fs == [] then [] else FileBlocks(fs[0], mtime) + Archive(fs[1..], mtime)
  }

  /** The files a reader finds: it goes on while it sees headers with a right checksum and all their data. */
  function ReadArchive(bs: seq<Block>): seq<File>
    decreases |bs|
  {
    if bs == [] || !HeaderOk(bs[0]) then []
    else
      var size := SizeOf(bs[0]);
      var n := BlocksFor(size);
      if 1 + n > |bs| then []
      else
        BlocksHold(size);
        [File(NameOf(bs[0]), Join(bs[1..1 + n])[..size])] + ReadArchive(bs[1 + n..])
  }

  lemma BlocksHold(size: nat)
    ensures size <= BLOCK * BlocksFor(size)
  {
  }

  /** A file whose header can state its name and size. */
  ghost predicate GoodFile(f: File) {
    GoodName(f.name) && |f.data| < UINT
  }

  lemma ReadFile(f: File, mtime: nat, rest: seq<Block>)
    requires GoodFile(f)
    ensures ReadArchive(FileBlocks(f, mtime) + rest) == [f] + ReadArchive(rest)
  {
    var h, ds := Header(f.name, |f.data|, mtime), DataBlocks(f.data);
    var bs := FileBlocks(f, mtime) + rest;
    HeaderSum(f.name, |f.data|, mtime);
    HeaderSize(f.name, |f.data|, mtime);
    HeaderName(f.name, |f.data|, mtime);
    DataBlocksCount(f.data);
    JoinData(f.data);
    assert bs[0] == h && bs[1..1 + |ds|] == ds && bs[1 + |ds|..] == rest;
    assert (f.data + Zeros(BLOCK * |ds| - |f.data|))[..|f.data|] == f.data;
  }

  /** Reading an archive gives its files, then whatever the rest reads as. */
  lemma {:induction false} ReadBack(fs: seq<File>, mtime: nat, rest: seq<Block>)
    requires forall f :: f in fs ==> GoodFile(f)
    ensures ReadArchive(Archive(fs, mtime) + rest) == fs + ReadArchive(rest)
  {
    if fs == [] {
      Prepend([], rest);
      Prepend([], ReadArchive(rest));
    } else {
      var a := Archive(fs[1..], mtime);
      ReadBack(fs[1..], mtime, rest);
      ReadFile(fs[0], mtime, a + rest);
      Associate(FileBlocks(fs[0], mtime), a, rest);
      Associate([fs[0]], fs[1..], ReadArchive(rest));
      Split(fs);
    }
  }

  lemma Prepend<T>(x: seq<T>, y: seq<T>)
    requires x == []
    ensures x + y == y
  {
  }

  lemma Associate<T>(x: seq<T>, y: seq<T>, z: seq<T>)
    ensures x + (y + z) == x + y + z
  {
  }

  lemma Split<T>(x: seq<T>)
    requires x != []
    ensures [x[0]] + x[1..] == x
  {
  }

  lemma {:induction false} ArchiveConcat(fs: seq<File>, gs: seq<File>, mtime: nat)
    ensures Archive(fs + gs, mtime) == Archive(fs, mtime) + Archive(gs, mtime)
  {
    if fs == [] {
      assert fs + gs == gs;
    } else {
      ArchiveConcat(fs[1..], gs, mtime);
      assert (fs + gs)[1..] == fs[1..] + gs;
      Associate(FileBlocks(fs[0], mtime), Archive(fs[1..], mtime), Archive(gs, mtime));
    }
  }

  lemma ArchiveOne(f: File, mtime: nat)
    ensures Archive([f], mtime) == FileBlocks(f, mtime)
  {
    assert [f][1..] == [];
  }
}
