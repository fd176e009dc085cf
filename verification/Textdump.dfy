/** Text dumps written backwards from the end of the dump partition (sys/ddb/db_textdump.c). */
module Textdump {
  import opened Numbers
  import opened Tar
  import Capture

  const SIZEOF_METADATA := 65536
  const EIO := 5
  const ENOSPC := 28

  /** The message buffer without the NULs it holds before it has filled once. */
  function NoNuls(s: seq<Byte>): (r: seq<Byte>) {
    if s == [] then [] else (if s[0] == 0 then [] else [s[0]]) + NoNuls(s[1..])
  }

  /** The pieces from the `k`th on. */
  function Flat(chunks: seq<seq<Byte>>, k: nat): seq<Byte>
    requires k <= |chunks|
    decreases |chunks| - k
  {
    if k == |chunks| then [] else chunks[k] + Flat(chunks, k + 1)
  }

  /** At most one block of a string. */
  function OneBlock(s: seq<Byte>): seq<Byte> {
    s[..Capture.Min(|s|, BLOCK)]
  }

  /** What is to be dumped; there is a panic string only after a panic. */
  datatype Input = Input(doDdb: bool, doConfig: bool, config: seq<Byte>, doMsgbuf: bool, msgbuf: seq<seq<Byte>>,
                         doPanic: bool, panicked: bool, panic: seq<Byte>, doVersion: bool, version: seq<Byte>)

  predicate HasPanic(input: Input) {
    input.doPanic && input.panicked
  }

  /** The files of whole size. */
  function FrontFiles(input: Input, captured: seq<Byte>): seq<File> {
    (if input.doDdb && captured != [] then [File(Ascii("ddb.txt"), captured)] else [])
    + (if input.doConfig then [File(Ascii("config.txt"), input.config)] else [])
    + (if input.doMsgbuf then [File(Ascii("msgbuf.txt"), NoNuls(Flat(input.msgbuf, 0)))] else [])
  }

  /** All files a text dump should hold. */
  function Files(input: Input, captured: seq<Byte>): seq<File> {
    FrontFiles(input, captured)
    + (if HasPanic(input) then [File(Ascii("panic.txt"), OneBlock(input.panic))] else [])
    + (if input.doVersion then [File(Ascii("version.txt"), OneBlock(input.version))] else [])
  }

  function StringBlocks(name: seq<Byte>, text: seq<Byte>, mtime: nat): seq<Block> {
    var data := OneBlock(text);
    [Header(name, |data|, mtime)] + [data + Zeros(BLOCK - |data|)]
  }

  /** The blocks that are written, in the order a reader takes them. */
  function Stream(input: Input, captured: seq<Byte>, mtime: nat): seq<Block> {
    Archive(FrontFiles(input, captured), mtime)
    + (if HasPanic(input) then StringBlocks(Ascii("panic.txt"), input.panic, mtime) else [])
    + (if input.doVersion then StringBlocks(Ascii("version.txt"), input.version, mtime) else [])
  }

  /** A string and its one block: an empty one leaves a block of zeros, at which a reader stops. */
  lemma StringRead(name: seq<Byte>, text: seq<Byte>, mtime: nat, rest: seq<Block>)
    requires GoodName(name)
    ensures ReadArchive(StringBlocks(name, text, mtime) + rest)
         == [File(name, OneBlock(text))] + (if text == [] then [] else ReadArchive(rest))
  {
    var f := File(name, OneBlock(text));
    if text == [] {
      var tail: seq<Block> := [Zeros(BLOCK)] + rest;
      assert OneBlock(text) == [] && [] + Zeros(BLOCK) == Zeros(BLOCK);
      assert StringBlocks(name, text, mtime) + rest == FileBlocks(f, mtime) + tail;
      ReadFile(f, mtime, tail);
      ZeroBlock();
    } else {
      assert StringBlocks(name, text, mtime) == FileBlocks(f, mtime);
      ReadFile(f, mtime, rest);
    }
  }

  lemma NamesGood()
    ensures GoodName(Ascii("ddb.txt")) && GoodName(Ascii("config.txt")) && GoodName(Ascii("msgbuf.txt"))
    ensures GoodName(Ascii("panic.txt")) && GoodName(Ascii("version.txt"))
  {
  }

  /**
   * Read downwards the dump gives back every file, except in one case:
   * an empty panic string hides the version file behind it.
   */
  lemma StreamReads(input: Input, captured: seq<Byte>, mtime: nat)
    requires forall f :: f in FrontFiles(input, captured) ==> |f.data| < UINT
    ensures ReadArchive(Stream(input, captured, mtime)) == Files(input, captured)
       <==> !(HasPanic(input) && input.panic == [] && input.doVersion)
  {
    var front := FrontFiles(input, captured);
    StreamRead(input, captured, mtime);
    FilesOf(input, captured);
    SameTail(front, PanicFile(input), if HasPanic(input) && input.panic == [] then [] else VersionFile(input), VersionFile(input));
  }

  /** What a reader makes of the dump. */
  lemma StreamRead(input: Input, captured: seq<Byte>, mtime: nat)
    requires forall f :: f in FrontFiles(input, captured) ==> |f.data| < UINT
    ensures ReadArchive(Stream(input, captured, mtime)) == FrontFiles(input, captured) + (PanicFile(input)
            + (if HasPanic(input) && input.panic == [] then [] else VersionFile(input)))
  {
    NamesGood();
    var front := FrontFiles(input, captured);
    var v: seq<Block> := if input.doVersion then StringBlocks(Ascii("version.txt"), input.version, mtime) else [];
    var p: seq<Block> := if HasPanic(input) then StringBlocks(Ascii("panic.txt"), input.panic, mtime) else [];
    ReadBack(front, mtime, p + v);
    Associate(Archive(front, mtime), p, v);
    VersionRead(input, mtime, v);
    PanicRead(input, mtime, p, v);
  }

  lemma SameTail<T>(a: seq<T>, b: seq<T>, x: seq<T>, y: seq<T>)
    ensures a + (b + x) == a + (b + y) <==> x == y
  {
    if a + (b + x) == a + (b + y) {
      assert x == (a + (b + x))[|a| + |b|..] == (a + (b + y))[|a| + |b|..] == y;
    }
  }

  lemma FilesOf(input: Input, captured: seq<Byte>)
    ensures Files(input, captured) == FrontFiles(input, captured) + (PanicFile(input) + VersionFile(input))
  {
  }

  function PanicFile(input: Input): seq<File> {
    if HasPanic(input) then [File(Ascii("panic.txt"), OneBlock(input.panic))] else []
  }

  function VersionFile(input: Input): seq<File> {
    if input.doVersion then [File(Ascii("version.txt"), OneBlock(input.version))] else []
  }

  lemma VersionRead(input: Input, mtime: nat, v: seq<Block>)
    requires v == if input.doVersion then StringBlocks(Ascii("version.txt"), input.version, mtime) else []
    ensures ReadArchive(v) == VersionFile(input)
  {
    NamesGood();
    if input.doVersion {
      StringRead(Ascii("version.txt"), input.version, mtime, []);
      assert v + [] == v;
    }
  }

  lemma PanicRead(input: Input, mtime: nat, p: seq<Block>, v: seq<Block>)
    requires p == if HasPanic(input) then StringBlocks(Ascii("panic.txt"), input.panic, mtime) else []
    ensures ReadArchive(p + v) == PanicFile(input) + (if HasPanic(input) && input.panic == [] then [] else ReadArchive(v))
  {
    NamesGood();
    if HasPanic(input) {
      StringRead(Ascii("panic.txt"), input.panic, mtime, v);
    } else {
      assert p + v == v && PanicFile(input) + ReadArchive(v) == ReadArchive(v);
    }
  }

  class Dumper {
    const mediasize: int
    const mtime: nat
    const buffer: array<Byte>
    var disk: map<int, Block>
    var offset: int

    /** Where the trailer is, and the `k`th block after it going down. */
    function Trailer(): int {
      mediasize - BLOCK
    }

    function Place(k: int): int {
      Trailer() - BLOCK * (k + 1)
    }

    /** There is room for `n` blocks below the trailer. */
    predicate Fits(n: int) {
      Place(n - 1) >= SIZEOF_METADATA
    }

    /** `s` is what has been written below the trailer, as far as there is room. */
    ghost predicate Written(s: seq<Block>)
      reads `disk, `offset
    {
      offset == Place(|s|) && Holds(disk, s)
    }

    ghost predicate Holds(d: map<int, Block>, s: seq<Block>) {
      Fits(|s|) ==> forall k {:trigger s[k]} :: 0 <= k < |s| ==> Place(k) in d && d[Place(k)] == s[k]
    }

    constructor (mediasize: int, mtime: nat)
      ensures this.mediasize == mediasize && this.mtime == mtime && buffer.Length == BLOCK && fresh(buffer)
    {
      this.mediasize, this.mtime := mediasize, mtime;
      buffer := new Byte[BLOCK](_ => 0);
      disk, offset := map[], 0;
    }

    /** One block, unless it would lie outside the partition or in the part left to others. */
    method WriteBlock(at: int, b: Block) returns (error: int)
      modifies `disk
      ensures error == if at + BLOCK > mediasize then EIO else if at < SIZEOF_METADATA then ENOSPC else 0
      ensures disk == if error == 0 then old(disk)[at := b] else old(disk)
    {
      if at + BLOCK > mediasize {
        return EIO;
      }
      if at < SIZEOF_METADATA {
        return ENOSPC;
      }
      disk := disk[at := b];
      error := 0;
    }

    /** The next block further down. */
    method WriteNext(b: Block, ghost s: seq<Block>)
      requires Written(s)
      modifies `disk, `offset
      ensures Written(s + [b])
    {
      var _ := WriteBlock(offset, b);
      offset := offset - BLOCK;
      ghost var t := s + [b];
      if Fits(|t|) {
        forall k | 0 <= k < |t| ensures Place(k) in disk && disk[Place(k)] == t[k] {
          assert k < |s| ==> t[k] == s[k];
        }
      }
    }

    /** The configuration: full blocks from the string, the rest from the buffer. */
    method DumpConfig(name: seq<Byte>, text: seq<Byte>, ghost s: seq<Block>)
      requires Written(s)
      modifies `disk, `offset
      ensures Written(s + FileBlocks(File(name, text), mtime))
    {
      WriteNext(Header(name, |text|, mtime), s);
      ghost var cur: seq<Block> := s + [Header(name, |text|, mtime)];
      var count := 0;
      while count < |text| / BLOCK
        invariant count <= |text| / BLOCK && Written(cur)
        invariant cur + DataBlocks(text[BLOCK * count..]) == s + FileBlocks(File(name, text), mtime)
      {
        ghost var b: Block := text[BLOCK * count..BLOCK * count + BLOCK];
        WriteNext(text[BLOCK * count..BLOCK * count + BLOCK], cur);
        BlockStep(cur, text, BLOCK * count);
        cur := cur + [b];
        count := count + 1;
      }
      if |text| % BLOCK != 0 {
        var rest := text[BLOCK * count..];
        WriteNext(rest + Zeros(BLOCK - |rest|), cur);
      } else {
        assert text[BLOCK * count..] == [];
        assert cur + [] == cur;
      }
    }

    lemma BlockStep(cur: seq<Block>, text: seq<Byte>, at: nat)
      requires at + BLOCK <= |text|
      ensures cur + [text[at..at + BLOCK]] + DataBlocks(text[at + BLOCK..]) == cur + DataBlocks(text[at..])
    {
      var p, rest := text[at..at + BLOCK], text[at + BLOCK..];
      FullBlock(p, rest);
      assert p + rest == text[at..];
      Associate(cur, [p], DataBlocks(rest));
    }

    /** A string of at most one block: its block is written even when it is empty. */
    method DumpString(name: seq<Byte>, text: seq<Byte>, ghost s: seq<Block>)
      requires Written(s)
      modifies `disk, `offset
      ensures Written(s + StringBlocks(name, text, mtime))
    {
      var len := Capture.Min(|text|, BLOCK);
      WriteNext(Header(name, len, mtime), s);
      WriteNext(text[..len] + Zeros(BLOCK - len), s + [Header(name, len, mtime)]);
      Associate(s, [Header(name, len, mtime)], [text[..len] + Zeros(BLOCK - len)]);
    }

    /** Captured output, straight from its buffer, which is then empty. */
    method DumpCapture(cap: Capture.Buffer, name: seq<Byte>, ghost s: seq<Block>)
      requires Written(s) && cap.Valid() && cap.buf != buffer
      modifies `disk, `offset, cap, cap.buf
      ensures cap.Valid() && cap.Contents() == [] && cap.buf == old(cap.buf)
      ensures old(cap.Contents()) == [] ==> Written(s)
      ensures old(cap.Contents()) != [] ==> Written(s + FileBlocks(File(name, old(cap.Contents())), mtime))
    {
      if cap.off == 0 {
        return;
      }
      ghost var data := cap.Contents();
      cap.ZeroPad();
      PaddedBlocks(data, cap.padding);
      ghost var full := data + Zeros(cap.padding);
      WriteNext(Header(name, cap.off, mtime), s);
      ghost var cur: seq<Block> := s + [Header(name, |data|, mtime)];
      Associate(s, [Header(name, |data|, mtime)], DataBlocks(full));
      var at := 0;
      while at < cap.off + cap.padding
        invariant at <= |full| && at % BLOCK == 0 && Written(cur) && cap.Valid() && cap.off + cap.padding == |full| <= cap.buf.Length
        invariant cap.buf == old(cap.buf) && full <= cap.buf[..]
        invariant cur + DataBlocks(full[at..]) == s + FileBlocks(File(name, data), mtime)
      {
        NextMultiple(at, |full|);
        ghost var b: Block := full[at..at + BLOCK];
        assert cap.buf[at..at + BLOCK] == cap.buf[..][at..at + BLOCK];
        SliceWithin(cap.buf[..], full, at);
        WriteNext(cap.buf[at..at + BLOCK], cur);
        BlockStep(cur, full, at);
        cur := cur + [b];
        at := at + BLOCK;
      }
      assert full[at..] == [] && cur + [] == cur;
      cap.off := 0;
      cap.padding := 0;
    }

    lemma SliceWithin(whole: seq<Byte>, s: seq<Byte>, at: nat)
      requires s <= whole && at + BLOCK <= |s|
      ensures whole[at..at + BLOCK] == s[at..at + BLOCK]
    {
    }

    lemma NextMultiple(at: nat, n: nat)
      requires at < n && at % BLOCK == 0 && n % BLOCK == 0
      ensures at + BLOCK <= n && (at + BLOCK) % BLOCK == 0
    {
    }

    /** The blocks still to come, when `pending` is in the buffer and `rest` has not been looked at. */
    ghost predicate Coming(cur: seq<Block>, pending: seq<Byte>, rest: seq<Byte>, all: seq<Block>)
      reads `disk, `offset
    {
      |pending| < BLOCK && Written(cur) && cur + DataBlocks(pending + NoNuls(rest)) == all
    }

    /** One byte of the message buffer. */
    method PutByte(c: Byte, fill: nat, ghost cur: seq<Block>, ghost rest: seq<Byte>, ghost all: seq<Block>)
      returns (fill': nat, ghost cur': seq<Block>, wrote: nat)
      requires buffer.Length == BLOCK && fill < BLOCK && Coming(cur, buffer[..fill], [c] + rest, all)
      modifies `disk, `offset, buffer
      ensures fill' < BLOCK && Coming(cur', buffer[..fill'], rest, all)
      ensures wrote + fill' + |NoNuls(rest)| == fill + |NoNuls([c] + rest)| && |cur| <= |cur'|
    {
      ghost var was := buffer[..fill];
      NulStep(was, c, rest);
      cur', wrote := cur, 0;
      if c == 0 {
        fill' := fill;
        return;
      }
      buffer[fill] := c;
      fill' := fill + 1;
      assert buffer[..fill'] == was + [c];
      if fill' != BLOCK {
        return;
      }
      assert buffer[..] == was + [c];
      FullBlock(was + [c], NoNuls(rest));
      WriteNext(buffer[..], cur);
      Associate(cur, [was + [c]], DataBlocks(NoNuls(rest)));
      cur' := cur + [was + [c]];
      wrote, fill' := BLOCK, 0;
      assert buffer[..0] + NoNuls(rest) == NoNuls(rest);
    }

    lemma NulStep(p: seq<Byte>, c: Byte, rest: seq<Byte>)
      ensures p + NoNuls([c] + rest) == (if c == 0 then p else p + [c]) + NoNuls(rest)
      ensures |NoNuls([c] + rest)| == (if c == 0 then 0 else 1) + |NoNuls(rest)|
    {
      assert ([c] + rest)[1..] == rest;
    }

    /** One piece of the message buffer. */
    method PutChunk(chunk: seq<Byte>, fill0: nat, ghost cur0: seq<Block>, ghost rest: seq<Byte>, ghost all: seq<Block>)
      returns (fill: nat, ghost cur: seq<Block>, wrote: nat)
      requires buffer.Length == BLOCK && fill0 < BLOCK && Coming(cur0, buffer[..fill0], chunk + rest, all)
      modifies `disk, `offset, buffer
      ensures fill < BLOCK && Coming(cur, buffer[..fill], rest, all)
      ensures wrote + fill + |NoNuls(rest)| == fill0 + |NoNuls(chunk + rest)| && |cur0| <= |cur|
    {
      fill, cur, wrote := fill0, cur0, 0;
      assert chunk[0..] + rest == chunk + rest;
      for i := 0 to |chunk|
        invariant fill < BLOCK && Coming(cur, buffer[..fill], chunk[i..] + rest, all) && |cur0| <= |cur|
        invariant wrote + fill + |NoNuls(chunk[i..] + rest)| == fill0 + |NoNuls(chunk + rest)|
      {
        assert chunk[i..] + rest == [chunk[i]] + (chunk[i + 1..] + rest);
        var more;
        fill, cur, more := PutByte(chunk[i], fill, cur, chunk[i + 1..] + rest, all);
        wrote := wrote + more;
      }
      assert chunk[|chunk|..] + rest == rest;
    }

    /** The message buffer, read in pieces; its header is written again when the size is known. */
    method DumpMsgbuf(chunks: seq<seq<Byte>>, name: seq<Byte>, ghost s: seq<Block>)
      requires Written(s) && buffer.Length == BLOCK
      modifies `disk, `offset, buffer
      ensures Written(s + FileBlocks(File(name, NoNuls(Flat(chunks, 0))), mtime))
    {
      ghost var data := NoNuls(Flat(chunks, 0));
      ghost var all: seq<Block> := s + [Header(name, 0, mtime)] + DataBlocks(data);
      var header := offset;
      WriteNext(Header(name, 0, mtime), s);
      ghost var cur: seq<Block> := s + [Header(name, 0, mtime)];
      var total: nat, fill: nat := 0, 0;
      assert buffer[..0] + data == data;
      for k := 0 to |chunks|
        invariant fill < BLOCK && Coming(cur, buffer[..fill], Flat(chunks, k), all) && |cur| > |s|
        invariant total + fill + |NoNuls(Flat(chunks, k))| == |data|
      {
        var more;
        fill, cur, more := PutChunk(chunks[k], fill, cur, Flat(chunks, k + 1), all);
        total := total + more;
      }
      total := total + fill;
      Flush(fill, cur, all);
      RewriteHeader(header, name, total, s, data);
    }

    /** What is left in the buffer, filled up with zeros. */
    method Flush(fill: nat, ghost cur: seq<Block>, ghost all: seq<Block>)
      requires buffer.Length == BLOCK && fill < BLOCK && Coming(cur, buffer[..fill], [], all)
      modifies `disk, `offset, buffer
      ensures Written(all)
    {
      ghost var p := buffer[..fill];
      assert p + NoNuls([]) == p;
      if fill != 0 {
        for i := fill to BLOCK
          invariant Written(cur) && buffer[..fill] == p && forall k :: fill <= k < i ==> buffer[k] == 0
        {
          buffer[i] := 0;
        }
        assert buffer[..] == p + Zeros(BLOCK - fill);
        WriteNext(buffer[..], cur);
      } else {
        assert cur + [] == cur;
      }
    }

    method RewriteHeader(at: int, name: seq<Byte>, total: nat, ghost s: seq<Block>, ghost data: seq<Byte>)
      requires Written(s + [Header(name, 0, mtime)] + DataBlocks(data)) && at == Place(|s|) && total == |data|
      modifies `disk, `offset
      ensures Written(s + FileBlocks(File(name, data), mtime))
    {
      ghost var all: seq<Block> := s + [Header(name, 0, mtime)] + DataBlocks(data);
      assert Written(all);
      var end := offset;
      offset := at;
      var _ := WriteBlock(offset, Header(name, total, mtime));
      offset := end;
      Patched(all, |s|, Header(name, total, mtime), old(disk));
      assert all[|s| := Header(name, total, mtime)] == s + FileBlocks(File(name, data), mtime);
    }

    /** What rewriting one block leaves. */
    lemma Patched(s: seq<Block>, k: nat, b: Block, was: map<int, Block>)
      requires k < |s| && offset == Place(|s|)
      requires disk == if Place(k) < SIZEOF_METADATA then was else was[Place(k) := b]
      requires Holds(was, s)
      ensures Written(s[k := b])
    {
      var t := s[k := b];
      if Fits(|t|) {
        forall i | 0 <= i < |t| ensures Place(i) in disk && disk[Place(i)] == t[i] {
          assert i != k ==> t[i] == s[i];
        }
      }
    }

    /** The files of whole size, each if wanted. */
    method DumpFront(input: Input, cap: Capture.Buffer)
      requires Written([]) && cap.Valid() && cap.buf != buffer && buffer.Length == BLOCK
      modifies `disk, `offset, buffer, cap, cap.buf
      ensures Written(Archive(FrontFiles(input, old(cap.Contents())), mtime))
    {
      ghost var captured := cap.Contents();
      ghost var s: seq<Block> := [];
      ghost var fs: seq<File> := [];
      if input.doDdb {
        DumpCapture(cap, Ascii("ddb.txt"), s);
        if captured != [] {
          fs, s := MoreFiles(fs, s, File(Ascii("ddb.txt"), captured));
        }
      }
      if input.doConfig {
        DumpConfig(Ascii("config.txt"), input.config, s);
        fs, s := MoreFiles(fs, s, File(Ascii("config.txt"), input.config));
      }
      if input.doMsgbuf {
        DumpMsgbuf(input.msgbuf, Ascii("msgbuf.txt"), s);
        fs, s := MoreFiles(fs, s, File(Ascii("msgbuf.txt"), NoNuls(Flat(input.msgbuf, 0))));
      }
      assert fs == FrontFiles(input, captured);
    }

    lemma MoreFiles(fs: seq<File>, s: seq<Block>, f: File) returns (fs': seq<File>, s': seq<Block>)
      requires s == Archive(fs, mtime)
      ensures fs' == fs + [f] && s' == s + FileBlocks(f, mtime) == Archive(fs', mtime)
    {
      ArchiveConcat(fs, [f], mtime);
      ArchiveOne(f, mtime);
      fs', s' := fs + [f], s + FileBlocks(f, mtime);
    }

    /** The panic message and the version. */
    method DumpStrings(input: Input, ghost front: seq<Block>, ghost all: seq<Block>)
      requires Written(front)
      requires all == front + (if HasPanic(input) then StringBlocks(Ascii("panic.txt"), input.panic, mtime) else [])
                      + (if input.doVersion then StringBlocks(Ascii("version.txt"), input.version, mtime) else [])
      modifies `disk, `offset
      ensures Written(all)
    {
      ghost var s := front;
      if input.doPanic && input.panicked {
        DumpString(Ascii("panic.txt"), input.panic, s);
        s := s + StringBlocks(Ascii("panic.txt"), input.panic, mtime);
      } else {
        assert s + [] == s;
      }
      if input.doVersion {
        DumpString(Ascii("version.txt"), input.version, s);
        s := s + StringBlocks(Ascii("version.txt"), input.version, mtime);
      } else {
        assert s + [] == s;
      }
    }

    /** The whole dump: trailer, files going down, then the header and the trailer again with the length. */
    method Dumpsys(input: Input, cap: Capture.Buffer, blocksize: int, kdh: int -> Block) returns (dumplen: int)
      requires cap.Valid() && cap.buf != buffer && buffer.Length == BLOCK
      modifies this, buffer, cap, cap.buf
      ensures blocksize != BLOCK || mediasize < SIZEOF_METADATA + 2 * BLOCK ==> dumplen == -1 && disk == old(disk)
      ensures blocksize == BLOCK && mediasize >= SIZEOF_METADATA + 2 * BLOCK ==>
                var s := Stream(input, old(cap.Contents()), mtime);
                && dumplen == BLOCK * |s|
                && Trailer() in disk && disk[Trailer()] == kdh(dumplen)
                && Holds(disk, s + [kdh(dumplen)])
    {
      if blocksize != BLOCK || mediasize < SIZEOF_METADATA + 2 * BLOCK {
        return -1;
      }
      offset := mediasize - BLOCK;
      var trailer := offset;
      var _ := WriteBlock(offset, kdh(0));
      offset := offset - BLOCK;
      DumpFront(input, cap);
      ghost var s := Stream(input, old(cap.Contents()), mtime);
      DumpStrings(input, Archive(FrontFiles(input, old(cap.Contents())), mtime), s);
      dumplen := trailer - (offset + BLOCK);
      WriteNext(kdh(dumplen), s);
      ghost var t: seq<Block> := s + [kdh(dumplen)];
      offset := trailer;
      ghost var was := disk;
      var _ := WriteBlock(offset, kdh(dumplen));
      offset := offset - BLOCK;
      assert Holds(was, t);
      TrailerKeeps(was, t, kdh(dumplen));
    }

    /** Writing the trailer leaves the blocks below it. */
    lemma TrailerKeeps(was: map<int, Block>, s: seq<Block>, b: Block)
      requires Holds(was, s)
      ensures Holds(was[Trailer() := b], s)
    {
      var now := was[Trailer() := b];
      if Fits(|s|) {
        forall k | 0 <= k < |s| ensures Place(k) in now && now[Place(k)] == s[k] {
          var x := s[k];
          assert Place(k) in was && was[Place(k)] == x;
        }
      }
    }
  }
}
