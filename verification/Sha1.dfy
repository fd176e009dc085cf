/**
 * The Secure Hash Standard, FIPS PUB 180-1: padding (section 4) and digest computation (section 7).
 * The word operations are parameters, so that what is proved about the streaming form
 * does not depend on them; `Sha1Words` supplies the ones of the standard.
 */
module Sha1Spec {
  import opened Numbers

  /** The five words of the hash, and of the working variables A to E. */
  datatype State<+W> = State(a: W, b: W, c: W, d: W, e: W)

  /** Word operations: the schedule recurrence, the round functions and constants, shifts, addition, conversions. */
  datatype Ops<!W> = Ops(
    mix: (W, W, W, W) -> W, choose: (W, W, W) -> W, parity: (W, W, W) -> W, majority: (W, W, W) -> W,
    k: int -> W, add: (W, W) -> W, shift5: W -> W, shift30: W -> W,
    fromBytes: (Byte, Byte, Byte, Byte) -> W, toBytes: W -> (Byte, Byte, Byte, Byte), init: State<W>)

  function F<W>(ops: Ops<W>, t: nat): (W, W, W) -> W {
    if t < 20 then ops.choose else if t < 40 then ops.parity else if t < 60 then ops.majority else ops.parity
  }

  /** `w` extends the 16 words of a block by the recurrence of section 7. */
  ghost predicate IsSchedule<W>(ops: Ops<W>, w: seq<W>, ws: seq<W>) {
    && |ws| == 16 <= |w| && w[..16] == ws
    && forall t {:trigger Follows(ops, w, t)} :: 16 <= t < |w| ==> Follows(ops, w, t)
  }

  ghost predicate Follows<W>(ops: Ops<W>, w: seq<W>, t: nat)
    requires 16 <= t < |w|
  {
    w[t] == ops.mix(w[t - 3], w[t - 8], w[t - 14], w[t - 16])
  }

  /** The first `n` words of the schedule of a block given as 16 words. */
  function Schedule<W>(ops: Ops<W>, ws: seq<W>, n: nat): (w: seq<W>)
    requires |ws| == 16 <= n
    ensures |w| == n && IsSchedule(ops, w, ws)
  {
    if n == 16 then ws
    else
      var w := Schedule(ops, ws, n - 1);
      var r := w + [ops.mix(w[n - 4], w[n - 9], w[n - 15], w[n - 17])];
      assert forall t :: 16 <= t < n - 1 && Follows(ops, w, t) ==> Follows(ops, r, t);
      r
  }

  /** One round with a round function, constant and schedule word. */
  function RoundWith<W>(ops: Ops<W>, f: (W, W, W) -> W, k: W, w: W, s: State<W>): State<W> {
    State(ops.add(ops.add(ops.add(ops.add(ops.shift5(s.a), f(s.b, s.c, s.d)), s.e), w), k),
          s.a, ops.shift30(s.b), s.c, s.d)
  }

  function Round<W>(ops: Ops<W>, w: W, t: nat, s: State<W>): State<W> {
    RoundWith(ops, F(ops, t), ops.k(t / 20), w, s)
  }

  /** The working variables after the first `n` rounds. */
  function Rounds<W>(ops: Ops<W>, w: seq<W>, n: nat, s: State<W>): State<W>
    requires n <= |w|
  {
    if n == 0 then s else Round(ops, w[n - 1], n - 1, Rounds(ops, w, n - 1, s))
  }

  /** Bytes are taken most significant first. */
  function WordAt<W>(ops: Ops<W>, b: seq<Byte>, i: nat): W
    requires 4 * i + 4 <= |b|
  {
    ops.fromBytes(b[4 * i], b[4 * i + 1], b[4 * i + 2], b[4 * i + 3])
  }

  function WordsOf<W>(ops: Ops<W>, block: seq<Byte>): (ws: seq<W>)
    requires |block| == 64
    ensures |ws| == 16 && forall i :: 0 <= i < 16 ==> ws[i] == WordAt(ops, block, i)
  {
    seq(16, i requires 0 <= i < 16 => WordAt(ops, block, i))
  }

  function AddStates<W>(ops: Ops<W>, s: State<W>, r: State<W>): State<W> {
    State(ops.add(s.a, r.a), ops.add(s.b, r.b), ops.add(s.c, r.c), ops.add(s.d, r.d), ops.add(s.e, r.e))
  }

  /** The hash after one more block. */
  function Compress<W>(ops: Ops<W>, h: State<W>, block: seq<Byte>): State<W>
    requires |block| == 64
  {
    AddStates(ops, h, Rounds(ops, Schedule(ops, WordsOf(ops, block), 80), 80, h))
  }

  /** The hash of a sequence of whole blocks. */
  function Hash<W>(ops: Ops<W>, s: seq<Byte>): State<W>
    requires |s| % 64 == 0
  {
    if s == [] then ops.init else Compress(ops, Hash(ops, s[..|s| - 64]), s[|s| - 64..])
  }

  lemma HashBlock<W>(ops: Ops<W>, s: seq<Byte>, block: seq<Byte>)
    requires |s| % 64 == 0 && |block| == 64
    ensures Hash(ops, s + block) == Compress(ops, Hash(ops, s), block)
  {
    assert (s + block)[..|s|] == s && (s + block)[|s|..] == block;
  }

  /** The byte of weight 256^i of a number. */
  function ByteOf(x: nat, i: nat): Byte {
    x / Pow256(i) % 256
  }

  /** The message length in bits as 8 bytes, most significant first. */
  function LengthBytes(bits: nat): (b: seq<Byte>)
    ensures |b| == 8 && forall i :: 0 <= i < 8 ==> b[i] == ByteOf(bits, 7 - i)
  {
    seq(8, i requires 0 <= i < 8 => ByteOf(bits, 7 - i))
  }

  /** Number of zero bytes that bring the message, its 1 bit and the length to whole blocks. */
  function PadZeros(len: nat): (k: nat)
    ensures k < 64 && (len + 1 + k + 8) % 64 == 0
  {
    (119 - len % 64) % 64
  }

  const LENGTH_MODULUS := 0x1_0000_0000_0000_0000

  /** What follows a message of `len` bytes: a 1 bit, zeros, the length in bits. */
  function Padding(len: nat, bits: nat): (p: seq<Byte>)
  {
    [0x80] + Zeros(PadZeros(len)) + LengthBytes(bits)
  }

  lemma PadMod(len: nat)
    ensures PadZeros(len % 64) == PadZeros(len)
  {
  }

  /** Section 4: the padded message.  The standard defines it for lengths below 2^64 bits. */
  function Pad(msg: seq<Byte>): (p: seq<Byte>)
    ensures |p| % 64 == 0
  {
    msg + Padding(|msg|, 8 * |msg| % LENGTH_MODULUS)
  }

  function WordBytes<W>(ops: Ops<W>, w: W): seq<Byte> {
    var b := ops.toBytes(w);
    [b.0, b.1, b.2, b.3]
  }

  function StateBytes<W>(ops: Ops<W>, h: State<W>): seq<Byte> {
    WordBytes(ops, h.a) + WordBytes(ops, h.b) + WordBytes(ops, h.c) + WordBytes(ops, h.d) + WordBytes(ops, h.e)
  }

  function Digest<W>(ops: Ops<W>, msg: seq<Byte>): seq<Byte> {
    StateBytes(ops, Hash(ops, Pad(msg)))
  }

  /** The whole message handed over in pieces. */
  function Concat(parts: seq<seq<Byte>>): seq<Byte> {
    if parts == [] then [] else Concat(parts[..|parts| - 1]) + parts[|parts| - 1]
  }
}

/** The words of the standard: 32 bits, with addition modulo 2^32. */
module Sha1Words {
  import opened Numbers
  import opened Sha1Spec

  type Word = bv32

  const SHA1: Ops<Word> := Ops(
    (x: Word, y: Word, z: Word, v: Word) => Rotate1(x ^ y ^ z ^ v),
    (b: Word, c: Word, d: Word) => (b & c) | (!b & d),
    (b: Word, c: Word, d: Word) => (b ^ c) ^ d,
    (b: Word, c: Word, d: Word) => (b & c) | (b & d) | (c & d),
    i => if i == 0 then 0x5a82_7999 else if i == 1 then 0x6ed9_eba1 else if i == 2 then 0x8f1b_bcdc else 0xca62_c1d6,
    (x: Word, y: Word) => x + y,
    (x: Word) => (x << 5) | (x >> 27),
    (x: Word) => (x << 30) | (x >> 2),
    (p: Byte, q: Byte, r: Byte, s: Byte) => (((p * 256 + q) * 256 + r) * 256 + s) as Word,
    (x: Word) => BytesOf(x as int),
    State(0x6745_2301, 0xefcd_ab89, 0x98ba_dcfe, 0x1032_5476, 0xc3d2_e1f0))

  function Rotate1(x: Word): Word {
    (x << 1) | (x >> 31)
  }

  function BytesOf(x: nat): (Byte, Byte, Byte, Byte) {
    (x / 0x100_0000 % 256, x / 0x1_0000 % 256, x / 0x100 % 256, x % 256)
  }
}

/** The streaming implementation: a 64-byte buffer, a 16-word circular schedule and in-place padding. */
module Sha1 {
  import opened Numbers
  import opened Sha1Spec
  import Sha1Words

  function Low(t: nat): nat {
    if t < 16 then 0 else t - 16
  }

  /** The 16 words in `w` are the latest 16 of the schedule before round `t`. */
  ghost predicate Window<W>(w: seq<W>, sched: seq<W>, t: nat) {
    && |w| == 16 && |sched| == 80 && t <= 80
    && forall j :: Low(t) <= j < Low(t) + 16 ==> w[j % 16] == sched[j]
  }

  /** Overwriting the oldest word with the recurrence moves the window one word on. */
  lemma WindowStep<W>(ops: Ops<W>, w: seq<W>, sched: seq<W>, ws: seq<W>, t: nat)
    requires Window(w, sched, t) && IsSchedule(ops, sched, ws) && 16 <= t < 80
    ensures var s := t % 16;
            && ops.mix(w[(s + 13) % 16], w[(s + 8) % 16], w[(s + 2) % 16], w[s]) == sched[t]
            && Window(w[s := sched[t]], sched, t + 1)
  {
    var s := t % 16;
    Slot(t);
    assert Follows(ops, sched, t);
    assert w[(t - 3) % 16] == sched[t - 3] && w[(t - 8) % 16] == sched[t - 8];
    assert w[(t - 14) % 16] == sched[t - 14] && w[(t - 16) % 16] == sched[t - 16];
    forall j | Low(t + 1) <= j < Low(t + 1) + 16 ensures w[s := sched[t]][j % 16] == sched[j] {
      if j < t {
        OtherSlot(j, t);
      }
    }
  }

  lemma WindowStart<W>(ops: Ops<W>, w: seq<W>, sched: seq<W>)
    requires IsSchedule(ops, sched, w) && |sched| == 80
    ensures Window(w, sched, 0)
  {
  }

  lemma Slot(t: nat)
    requires t >= 16
    ensures var s := t % 16;
            && (t - 3) % 16 == (s + 13) % 16 && (t - 8) % 16 == (s + 8) % 16
            && (t - 14) % 16 == (s + 2) % 16 && (t - 16) % 16 == s
  {
    SlotBefore(t, 3);
    SlotBefore(t, 8);
    SlotBefore(t, 14);
    SlotBefore(t, 16);
  }

  lemma SlotBefore(t: nat, d: nat)
    requires d <= 16 <= t
    ensures (t - d) % 16 == (t % 16 + 16 - d) % 16
  {
    assert t - d == 16 * (t / 16 - 1) + (t % 16 + 16 - d);
    ModDrop(t / 16 - 1, t % 16 + 16 - d);
  }

  lemma ModDrop(q: nat, r: nat)
    ensures (16 * q + r) % 16 == r % 16
  {
  }

  lemma OtherSlot(j: nat, t: nat)
    requires t - 16 < j < t
    ensures j % 16 != t % 16
  {
  }

  /** What has been taken in: the hash of the whole blocks, and the bytes that do not yet make one. */
  datatype Intake<+W> = Intake(h: State<W>, pending: seq<Byte>)

  function Put<W>(ops: Ops<W>, s: Intake<W>, x: Byte): Intake<W> {
    if |s.pending| == 63 then Intake(Compress(ops, s.h, s.pending + [x]), []) else Intake(s.h, s.pending + [x])
  }

  /** Taking in one byte at a time. */
  function Feed<W>(ops: Ops<W>, s: Intake<W>, x: seq<Byte>): Intake<W> {
    if x == [] then s else Put(ops, Feed(ops, s, x[..|x| - 1]), x[|x| - 1])
  }

  lemma {:induction false} FeedConcat<W>(ops: Ops<W>, s: Intake<W>, x: seq<Byte>, y: seq<Byte>)
    ensures Feed(ops, s, x + y) == Feed(ops, Feed(ops, s, x), y)
  {
    if y == [] {
      assert x + y == x;
    } else {
      assert (x + y)[..|x + y| - 1] == x + y[..|y| - 1];
      FeedConcat(ops, s, x, y[..|y| - 1]);
    }
  }

  /** Bytes that do not fill the buffer are only buffered. */
  lemma {:induction false} FeedPart<W>(ops: Ops<W>, s: Intake<W>, x: seq<Byte>)
    requires |s.pending| + |x| < 64
    ensures Feed(ops, s, x) == Intake(s.h, s.pending + x)
  {
    if x != [] {
      FeedPart(ops, s, x[..|x| - 1]);
      assert s.pending + x == s.pending + x[..|x| - 1] + [x[|x| - 1]];
    } else {
      assert s.pending + x == s.pending;
    }
  }

  /** Bytes that fill the buffer complete a block. */
  lemma FeedFull<W>(ops: Ops<W>, s: Intake<W>, x: seq<Byte>)
    requires |s.pending| + |x| == 64 && x != []
    ensures Feed(ops, s, x) == Intake(Compress(ops, s.h, s.pending + x), [])
  {
    FeedPart(ops, s, x[..|x| - 1]);
    assert s.pending + x == s.pending + x[..|x| - 1] + [x[|x| - 1]];
  }

  /** Byte by byte from the start is block by block. */
  lemma {:induction false} FeedHash<W>(ops: Ops<W>, x: seq<Byte>)
    requires |x| % 64 == 0
    ensures Feed(ops, Intake(ops.init, []), x) == Intake(Hash(ops, x), [])
  {
    if x != [] {
      var n := |x| - 64;
      FeedHash(ops, x[..n]);
      FeedConcat(ops, Intake(ops.init, []), x[..n], x[n..]);
      FeedFull(ops, Intake(Hash(ops, x[..n]), []), x[n..]);
      assert x[..n] + x[n..] == x && [] + x[n..] == x[n..];
    }
  }

  lemma {:induction false} FeedCount<W>(ops: Ops<W>, s: Intake<W>, x: seq<Byte>)
    requires |s.pending| < 64
    ensures |Feed(ops, s, x).pending| == (|s.pending| + |x|) % 64
  {
    if x != [] {
      FeedCount(ops, s, x[..|x| - 1]);
      NextMod(|s.pending| + |x| - 1);
    }
  }

  lemma NextMod(n: nat)
    ensures (n + 1) % 64 == if n % 64 == 63 then 0 else n % 64 + 1
  {
  }

  /** How many zeros are written when `r` bytes are pending after the 1 bit. */
  function ZerosAt(r: nat): nat
    requires r < 64
  {
    if 64 - r < 8 then 64 - r + 56 else 56 - r
  }

  /** The zeros written in one or two runs are exactly those of the standard. */
  lemma PadShape(len: nat)
    ensures ZerosAt((len + 1) % 64) == PadZeros(len)
  {
    NextMod(len);
    PadShapeAt(len % 64);
  }

  lemma PadShapeAt(l: nat)
    requires l < 64
    ensures ZerosAt(if l == 63 then 0 else l + 1) == (119 - l) % 64
  {
    if l < 56 {
      assert 119 - l == 64 + (55 - l);
    }
  }

  lemma FeedThree<W>(ops: Ops<W>, s: Intake<W>, x: seq<Byte>, y: seq<Byte>, z: seq<Byte>)
    ensures Feed(ops, Feed(ops, Feed(ops, s, x), y), z) == Feed(ops, s, x + y + z)
  {
    FeedConcat(ops, s, x, y);
    FeedConcat(ops, s, x + y, z);
  }

  lemma FeedZeros<W>(ops: Ops<W>, s: Intake<W>, k: nat, n: nat)
    ensures Feed(ops, Feed(ops, s, Zeros(k)), Zeros(n)) == Feed(ops, s, Zeros(k + n))
  {
    FeedConcat(ops, s, Zeros(k), Zeros(n));
    assert Zeros(k) + Zeros(n) == Zeros(k + n);
  }

  lemma FeedWhole<W>(ops: Ops<W>, x: seq<Byte>, y: seq<Byte>)
    requires |x + y| % 64 == 0
    ensures Feed(ops, Feed(ops, Intake(ops.init, []), x), y) == Intake(Hash(ops, x + y), [])
  {
    FeedConcat(ops, Intake(ops.init, []), x, y);
    FeedHash(ops, x + y);
  }

  lemma FeedSlice<W>(ops: Ops<W>, s: Intake<W>, input: seq<Byte>, off: nat, end: nat)
    requires off <= end <= |input|
    ensures Feed(ops, Feed(ops, s, input[..off]), input[off..end]) == Feed(ops, s, input[..end])
  {
    FeedConcat(ops, s, input[..off], input[off..end]);
    assert input[..off] + input[off..end] == input[..end];
  }

  lemma PadTail(msg: seq<Byte>, r: nat, bits: nat)
    requires r == |msg| % 64 && bits == 8 * |msg| % LENGTH_MODULUS
    ensures |msg + Padding(r, bits)| % 64 == 0 && Pad(msg) == msg + Padding(r, bits)
  {
    PadMod(|msg|);
  }

  /** Taking in the padding as well gives the hash of the padded message. */
  lemma FeedPadded<W>(ops: Ops<W>, msg: seq<Byte>, tail: seq<Byte>)
    requires Pad(msg) == msg + tail
    ensures Feed(ops, Feed(ops, Intake(ops.init, []), msg), tail) == Intake(Hash(ops, Pad(msg)), [])
  {
    FeedWhole(ops, msg, tail);
  }

  /** The bit counter, 64 bits wide, after `n` more bytes. */
  function AddBits(c: nat, n: nat): nat {
    if n == 0 then c else (AddBits(c, n - 1) + 8) % LENGTH_MODULUS
  }

  lemma {:induction false} AddBitsStep(c: nat, n: nat, k: nat)
    ensures AddBits(AddBits(c, n), k) == AddBits(c, n + k)
  {
    if k > 0 {
      AddBitsStep(c, n, k - 1);
    }
  }

  /** Adding once for a whole piece is the same. */
  lemma {:induction false} AddBitsOnce(c: nat, n: nat)
    requires c < LENGTH_MODULUS
    ensures AddBits(c, n) == (c + 8 * n) % LENGTH_MODULUS
  {
    if n > 0 {
      AddBitsOnce(c, n - 1);
      AddMod(c + 8 * (n - 1));
    }
  }

  lemma AddMod(x: nat)
    ensures (x % LENGTH_MODULUS + 8) % LENGTH_MODULUS == (x + 8) % LENGTH_MODULUS
  {
  }

  /** One round on the five working variables. */
  lemma RoundsStep<W>(ops: Ops<W>, w: seq<W>, from: nat, t: nat, h: State<W>)
    requires from <= t < from + 20 && from % 20 == 0 && t < |w|
    ensures var s := Rounds(ops, w, t, h);
            Rounds(ops, w, t + 1, h) == RoundWith(ops, F(ops, from), ops.k(t / 20), w[t], s)
  {
    assert F(ops, t) == F(ops, from);
  }

  class Ctxt<W(0)> {
    const ops: Ops<W>
    const h: array<W>
    const m: array<Byte>
    var c: nat
    var count: nat

    ghost predicate Shape()
      reads this
    {
      h.Length == 5 && m.Length == 64 && count < 64 && c < LENGTH_MODULUS
    }

    ghost function HashState(): State<W>
      reads this, h
      requires Shape()
    {
      State(h[0], h[1], h[2], h[3], h[4])
    }

    ghost function Taken(): Intake<W>
      reads this, h, m
      requires Shape()
    {
      Intake(HashState(), m[..count])
    }

    constructor (ops: Ops<W>)
      ensures Shape() && Taken() == Intake(ops.init, []) && c == 0 && this.ops == ops && fresh(h) && fresh(m)
    {
      this.ops := ops;
      h := new W[5](i => if i == 0 then ops.init.a else if i == 1 then ops.init.b else if i == 2 then ops.init.c
                         else if i == 3 then ops.init.d else ops.init.e);
      m := new Byte[64](_ => 0);
      c, count := 0, 0;
    }

    /** One word of the schedule, in place. */
    method Expand(w: array<W>, t: nat, ghost sched: seq<W>, ghost ws: seq<W>)
      requires w.Length == 16 && 16 <= t < 80 && Window(w[..], sched, t) && IsSchedule(ops, sched, ws)
      modifies w
      ensures Window(w[..], sched, t + 1) && w[t % 16] == sched[t]
    {
      var s := t % 16;
      WindowStep(ops, w[..], sched, ws, t);
      ghost var was := w[..];
      w[s] := ops.mix(w[(s + 13) % 16], w[(s + 8) % 16], w[(s + 2) % 16], w[s]);
      assert w[..] == was[s := sched[t]];
    }

    /** One of the four loops of twenty rounds, with its round function. */
    method TwentyRounds(w: array<W>, from: nat, f: (W, W, W) -> W, s0: State<W>, ghost sched: seq<W>, ghost ws: seq<W>,
                        ghost h0: State<W>)
      returns (s: State<W>)
      requires w.Length == 16 && Window(w[..], sched, from) && IsSchedule(ops, sched, ws) && from % 20 == 0 && from <= 60
      requires s0 == Rounds(ops, sched, from, h0) && f == F(ops, from)
      modifies w
      ensures Window(w[..], sched, from + 20) && s == Rounds(ops, sched, from + 20, h0)
    {
      var a, b, c, d, e := s0.a, s0.b, s0.c, s0.d, s0.e;
      for t := from to from + 20
        invariant Window(w[..], sched, t) && State(a, b, c, d, e) == Rounds(ops, sched, t, h0)
      {
        if t >= 16 {
          Expand(w, t, sched, ws);
        } else {
          assert w[..][t % 16] == sched[t];
        }
        RoundsStep(ops, sched, from, t, h0);
        var tmp := ops.add(ops.add(ops.add(ops.add(ops.shift5(a), f(b, c, d)), e), w[t % 16]), ops.k(t / 20));
        e := d;
        d := c;
        c := ops.shift30(b);
        b := a;
        a := tmp;
      }
      s := State(a, b, c, d, e);
    }

    /** The 80 rounds over the full buffer. */
    method HashBlock()
      requires Shape()
      modifies h
      ensures HashState() == Compress(ops, old(HashState()), m[..])
    {
      ghost var ws, h0 := WordsOf(ops, m[..]), HashState();
      ghost var sched := Schedule(ops, ws, 80);
      var w := LoadWords();
      WindowStart(ops, w[..], sched);
      var s := State(h[0], h[1], h[2], h[3], h[4]);
      s := TwentyRounds(w, 0, ops.choose, s, sched, ws, h0);
      s := TwentyRounds(w, 20, ops.parity, s, sched, ws, h0);
      s := TwentyRounds(w, 40, ops.majority, s, sched, ws, h0);
      s := TwentyRounds(w, 60, ops.parity, s, sched, ws, h0);
      h[0] := ops.add(h[0], s.a);
      h[1] := ops.add(h[1], s.b);
      h[2] := ops.add(h[2], s.c);
      h[3] := ops.add(h[3], s.d);
      h[4] := ops.add(h[4], s.e);
    }

    /** Hash the full buffer and clear it. */
    method Step()
      requires Shape()
      modifies h, m
      ensures HashState() == Compress(ops, old(HashState()), old(m[..]))
      ensures m[..] == Zeros(64)
    {
      HashBlock();
      CopyIn(0, Zeros(64));
      assert m[..] == m[..64];
    }

    /** The buffer as 16 words, each from four bytes most significant first. */
    method LoadWords() returns (w: array<W>)
      requires Shape()
      ensures fresh(w) && w[..] == WordsOf(ops, m[..])
    {
      w := new W[16];
      for i := 0 to 16
        invariant forall j :: 0 <= j < i ==> w[j] == WordAt(ops, m[..], j)
      {
        w[i] := ops.fromBytes(m[4 * i], m[4 * i + 1], m[4 * i + 2], m[4 * i + 3]);
      }
    }

    /** Copy bytes into the buffer at an offset. */
    method CopyIn(at: nat, x: seq<Byte>)
      requires m.Length == 64 && at + |x| <= 64
      modifies m
      ensures m[..at + |x|] == old(m[..at]) + x
    {
      for i := 0 to |x|
        invariant m[..at] == old(m[..at]) && forall j :: 0 <= j < i ==> m[at + j] == x[j]
      {
        m[at + i] := x[i];
      }
    }

    /** Bytes at the end of what is buffered, and a step when they fill it. */
    method Fill(x: seq<Byte>)
      requires Shape() && 0 < |x| <= 64 - count
      modifies this`count, h, m
      ensures Shape() && Taken() == Feed(ops, old(Taken()), x)
    {
      ghost var was := Taken();
      CopyIn(count, x);
      count := (count + |x|) % 64;
      if count == 0 {
        assert m[..] == was.pending + x;
        FeedFull(ops, was, x);
        Step();
      } else {
        FeedPart(ops, was, x);
      }
    }

    /** Zero bytes up to the place of the length, without a step. */
    method FillZeros(n: nat)
      requires Shape() && count + n < 64
      modifies this`count, m
      ensures Shape() && Taken() == Feed(ops, old(Taken()), Zeros(n)) && count == old(count) + n
    {
      FeedPart(ops, Taken(), Zeros(n));
      CopyIn(count, Zeros(n));
      count := (count + n) % 64;
    }

    /** One piece of the input that fits the buffer. */
    method TakeIn(x: seq<Byte>, ghost c0: nat, ghost n: nat)
      requires Shape() && 0 < |x| <= 64 - count && c == AddBits(c0, n)
      modifies this, h, m
      ensures Shape() && Taken() == Feed(ops, old(Taken()), x) && c == AddBits(c0, n + |x|)
    {
      Fill(x);
      AddBitsOnce(c, |x|);
      AddBitsStep(c0, n, |x|);
      c := (c + |x| * 8) % LENGTH_MODULUS;
    }

    /** The next piece of the input, as much as fits the buffer. */
    method TakeNext(input: seq<Byte>, off: nat, ghost s0: Intake<W>, ghost c0: nat) returns (next: nat)
      requires Shape() && off < |input| && Taken() == Feed(ops, s0, input[..off]) && c == AddBits(c0, off)
      modifies this, h, m
      ensures Shape() && off < next <= |input| && Taken() == Feed(ops, s0, input[..next]) && c == AddBits(c0, next)
    {
      var gap := 64 - count;
      var size := if gap < |input| - off then gap else |input| - off;
      TakeIn(input[off..off + size], c0, off);
      next := off + size;
      FeedSlice(ops, s0, input, off, next);
    }

    /** Input of any length, in pieces that fit the buffer. */
    method Loop(input: seq<Byte>)
      requires Shape()
      modifies this, h, m
      ensures Shape() && Taken() == Feed(ops, old(Taken()), input)
      ensures c == AddBits(old(c), |input|)
    {
      var off := 0;
      while off < |input|
        invariant off <= |input| && Shape()
        invariant Taken() == Feed(ops, old(Taken()), input[..off]) && c == AddBits(old(c), off)
      {
        off := TakeNext(input, off, old(Taken()), old(c));
      }
      assert input[..off] == input;
    }

    /** The 8 bytes of the bit count, most significant first. */
    method PutLength()
      requires Shape() && count == 56
      modifies this`count, h, m
      ensures Shape() && Taken() == Feed(ops, old(Taken()), LengthBytes(c))
    {
      ghost var bytes := LengthBytes(c);
      for i := 0 to 8
        invariant Shape() && Taken() == Feed(ops, old(Taken()), bytes[..i])
      {
        Fill([ByteOf(c, 7 - i)]);
        FeedConcat(ops, old(Taken()), bytes[..i], [bytes[i]]);
        assert bytes[..i] + [bytes[i]] == bytes[..i + 1];
      }
      assert bytes[..8] == bytes;
    }

    /** Zeros up to the last 8 bytes of a block, through a step when fewer than 8 are left in this one. */
    method PutZeros()
      requires Shape()
      modifies this`count, h, m
      ensures Shape() && count == 56 && Taken() == Feed(ops, old(Taken()), Zeros(ZerosAt(old(count))))
    {
      ghost var was := Taken();
      if 64 - count < 8 {
        Fill(Zeros(64 - count));
        FeedFull(ops, was, Zeros(64 - old(count)));
        FillZeros(64 - count - 8);
        FeedZeros(ops, was, 64 - old(count), 56);
      } else {
        FillZeros(64 - count - 8);
      }
    }

    /** The padding: a 1 bit, zeros, the length. */
    method PadOut()
      requires Shape()
      modifies this`count, h, m
      ensures Shape() && Taken() == Feed(ops, old(Taken()), Padding(old(count), c))
    {
      ghost var was := Taken();
      Fill([0x80]);
      FeedCount(ops, was, [0x80]);
      PadShape(old(count));
      PutZeros();
      PutLength();
      FeedThree(ops, was, [0x80], Zeros(PadZeros(old(count))), LengthBytes(c));
    }

    /** The digest of everything taken in, whatever pieces it came in. */
    method Result(ghost msg: seq<Byte>) returns (digest: seq<Byte>)
      requires Shape() && Taken() == Feed(ops, Intake(ops.init, []), msg) && c == AddBits(0, |msg|)
      modifies this`count, h, m
      ensures digest == Digest(ops, msg)
    {
      AddBitsOnce(0, |msg|);
      FeedCount(ops, Intake(ops.init, []), msg);
      PadTail(msg, count, c);
      FeedPadded(ops, msg, Padding(count, c));
      PadOut();
      digest := StateBytes(ops, State(h[0], h[1], h[2], h[3], h[4]));
    }
  }

  /** Any division of a message into pieces gives the digest of the whole message. */
  method HashParts(parts: seq<seq<Byte>>) returns (digest: seq<Byte>)
    ensures digest == Digest(Sha1Words.SHA1, Concat(parts))
  {
    digest := HashPartsWith(Sha1Words.SHA1, parts);
  }

  /** One more piece, after `sofar`. */
  method TakePart<W(0)>(ctxt: Ctxt<W>, part: seq<Byte>, ghost sofar: seq<Byte>)
    requires ctxt.Shape() && ctxt.Taken() == Feed(ctxt.ops, Intake(ctxt.ops.init, []), sofar) && ctxt.c == AddBits(0, |sofar|)
    modifies ctxt, ctxt.h, ctxt.m
    ensures ctxt.Shape() && ctxt.Taken() == Feed(ctxt.ops, Intake(ctxt.ops.init, []), sofar + part)
    ensures ctxt.c == AddBits(0, |sofar + part|)
  {
    AddBitsStep(0, |sofar|, |part|);
    FeedConcat(ctxt.ops, Intake(ctxt.ops.init, []), sofar, part);
    ctxt.Loop(part);
  }

  method HashPartsWith<W(0)>(ops: Ops<W>, parts: seq<seq<Byte>>) returns (digest: seq<Byte>)
    ensures digest == Digest(ops, Concat(parts))
  {
    var ctxt := new Ctxt<W>(ops);
    ghost var sofar: seq<Byte> := [];
    for i := 0 to |parts|
      invariant fresh(ctxt) && fresh(ctxt.h) && fresh(ctxt.m) && ctxt.ops == ops && ctxt.Shape()
      invariant sofar == Concat(parts[..i]) && ctxt.c == AddBits(0, |sofar|)
      invariant ctxt.Taken() == Feed(ops, Intake(ops.init, []), sofar)
    {
      TakePart(ctxt, parts[i], sofar);
      sofar := sofar + parts[i];
      assert parts[..i + 1][..i] == parts[..i];
    }
    assert parts[..|parts|] == parts;
    digest := ctxt.Result(Concat(parts));
  }
}
