/** The buffer of captured debugger output (sys/ddb/db_capture.c). */
module Capture {
  import opened Numbers
  import opened Tar

  const EINVAL := 22
  const ENOMEM := 12

  function Min(a: nat, b: nat): nat {
    if a < b then a else b
  }

  /** Up to the next multiple of the block size, as a 32-bit number. */
  function RoundUp(size: nat): nat {
    (size + BLOCK - 1) / BLOCK * BLOCK % UINT
  }

  lemma RoundUpMultiple(size: nat)
    ensures RoundUp(size) % BLOCK == 0
  {
    var q := (size + BLOCK - 1) / BLOCK;
    var k := q * BLOCK / UINT;
    assert RoundUp(size) == (q - k * 8388608) * BLOCK;
    MultipleMod(q - k * 8388608);
  }

  lemma MultipleMod(q: int)
    ensures q * BLOCK % BLOCK == 0
  {
  }

  lemma PaddedMod(size: nat, off: nat)
    requires size % BLOCK == 0 && off <= size
    ensures (off + (size - off) % BLOCK) % BLOCK == 0 && off + (size - off) % BLOCK <= size
  {
    var q := (size - off) / BLOCK;
    assert size - off == BLOCK * q + (size - off) % BLOCK;
    assert off + (size - off) % BLOCK == size - BLOCK * q;
    assert size == size / BLOCK * BLOCK;
    MultipleMod(size / BLOCK - q);
  }

  class Buffer {
    var buf: array<Byte>
    var off: nat
    var padding: nat
    var inProgress: bool
    var inPager: bool

    ghost predicate Valid()
      reads this
    {
      off <= buf.Length && buf.Length % BLOCK == 0
    }

    /** What has been captured. */
    ghost function Contents(): seq<Byte>
      reads this, buf
      requires Valid()
    {
      buf[..off]
    }

    constructor (size: nat)
      requires size % BLOCK == 0
      ensures Valid() && Contents() == [] && buf.Length == size && !inProgress && !inPager && fresh(buf)
    {
      buf := new Byte[size](_ => 0);
      off, padding, inProgress, inPager := 0, 0, false, false;
    }

    /** Output is added while capture is on, as far as there is room. */
    method Write(data: seq<Byte>)
      requires Valid()
      modifies `off, buf
      ensures Valid()
      ensures Contents() == if !inProgress || inPager then old(Contents())
                            else old(Contents()) + data[..Min(|data|, buf.Length - old(off))]
    {
      if !inProgress || inPager {
        return;
      }
      var len := Min(|data|, buf.Length - off);
      for i := 0 to len
        invariant off == old(off) && buf[..off] == old(buf[..off]) && forall k :: 0 <= k < i ==> buf[off + k] == data[k]
      {
        buf[off + i] := data[i];
      }
      off := off + len;
      assert buf[..off] == old(buf[..off]) + data[..len];
    }

    /** Zeros to the end of the last block in use. */
    method ZeroPad()
      requires Valid()
      modifies `padding, buf
      ensures Valid() && padding < BLOCK && off + padding <= buf.Length && (off + padding) % BLOCK == 0
      ensures buf[..off + padding] == old(Contents()) + Zeros(padding)
    {
      var len := (buf.Length - off) % BLOCK;
      PaddedMod(buf.Length, off);
      for i := 0 to len
        invariant buf[..off] == old(buf[..off]) && forall k :: off <= k < off + i ==> buf[k] == 0
      {
        buf[off + i] := 0;
      }
      padding := len;
    }

    /** A new size, rounded up to whole blocks: what fits of the contents is kept. */
    method Resize(request: nat, max: nat, memory: bool) returns (error: int)
      requires Valid() && request < UINT
      modifies this
      ensures Valid()
      ensures error == if RoundUp(request) > max then EINVAL else if RoundUp(request) != 0 && !memory then ENOMEM else 0
      ensures error != 0 ==> unchanged(this)
      ensures error == 0 ==>
                buf.Length == RoundUp(request) && Contents() == old(Contents())[..Min(old(off), RoundUp(request))] && fresh(buf)
    {
      var size := RoundUp(request);
      RoundUpMultiple(request);
      if size > max {
        return EINVAL;
      }
      if size != 0 && !memory {
        return ENOMEM;
      }
      var copy := new Byte[size](_ => 0);
      var len := Min(off, size);
      for i := 0 to len
        invariant unchanged(this) && forall k :: 0 <= k < i ==> copy[k] == buf[k]
      {
        copy[i] := buf[i];
      }
      buf, off := copy, len;
      error := 0;
    }
  }
}
