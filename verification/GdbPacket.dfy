/** Packets of the GDB remote serial protocol (sys/gdb/gdb_packet.c, sys/gdb/gdb_int.h). */
module GdbPacket {
  import opened Numbers

  const STAR: Byte := 42
  const HASH: Byte := 35
  const DOLLAR: Byte := 36
  const PLUS: Byte := 43
  const MINUS: Byte := 45

  function Repeat(c: Byte, n: nat): (s: seq<Byte>)
    ensures |s| == n && forall i :: 0 <= i < n ==> s[i] == c
  {
    seq(n, _ => c)
  }

  /** The meaning of run-length encoding: a star and a byte n repeat the character before them n - 29 times more. */
  function Decode(s: seq<Byte>): seq<Byte> {
    if s == [] then []
    else if |s| >= 3 && s[1] == STAR && s[2] >= 29 then Repeat(s[0], s[2] - 28) + Decode(s[3..])
    else [s[0]] + Decode(s[1..])
  }

  /** What follows a character that is repeated `n` more times. */
  function RunBytes(c: Byte, n: nat): seq<Byte> {
    if n > 97 then [STAR, 126, c] + RunBytes(c, n - 98)
    else if n == 97 then [STAR, 126]
    else if n == 0 then []
    else if n == 1 then [c]
    else if n == 7 then [c, c, STAR, 34]
    else if n == 6 || n == 14 || n == 16 then [c, STAR, n - 1 + 29]
    else [STAR, n + 29]
  }

  /** Two buffer characters count as equal; where char is signed, none above 127 is equal to itself. */
  predicate SameChar(signed: bool, x: Byte, y: Byte) {
    x == y && (!signed || x < 128)
  }

  /** How often the first character is repeated at once. */
  function RunLength(s: seq<Byte>, signed: bool): (n: nat)
    requires s != []
    ensures n < |s| && forall i :: 0 <= i <= n ==> s[i] == s[0]
  {
    if |s| > 1 && SameChar(signed, s[1], s[0]) then
      var m := RunLength(s[1..], signed);
      assert forall i :: 0 < i <= m + 1 ==> s[i] == s[1..][i - 1];
      m + 1
    else 0
  }

  /** The body of the packet for a payload. */
  function Encode(s: seq<Byte>, signed: bool): seq<Byte> {
    if s == [] then []
    else var n := RunLength(s, signed); [s[0]] + RunBytes(s[0], n) + Encode(s[n + 1..], signed)
  }

  /** A payload the encoding is made for. */
  ghost predicate Plain(s: seq<Byte>) {
    STAR !in s && HASH !in s && DOLLAR !in s
  }

  lemma DecodePair(c: Byte, k: Byte, rest: seq<Byte>)
    requires k >= 29
    ensures Decode([c, STAR, k] + rest) == Repeat(c, k - 28) + Decode(rest)
  {
    assert ([c, STAR, k] + rest)[3..] == rest;
  }

  lemma DecodeOne(c: Byte, rest: seq<Byte>)
    requires rest == [] || rest[0] != STAR
    ensures Decode([c] + rest) == [c] + Decode(rest)
  {
    assert ([c] + rest)[1..] == rest;
  }

  lemma RepeatMore(c: Byte, m: nat, n: nat)
    ensures Repeat(c, m) + Repeat(c, n) == Repeat(c, m + n)
  {
  }

  lemma ConcatAgain(x: seq<Byte>, y: seq<Byte>, z: seq<Byte>)
    ensures x + (y + z) == x + y + z
  {
  }

  /** Ninety-eight copies in front. */
  lemma DecodeLong(c: Byte, tail: seq<Byte>, n: nat, rest: seq<Byte>)
    requires n > 97 && Decode(tail) == Repeat(c, n - 97) + Decode(rest)
    ensures Decode([c, STAR, 126] + tail) == Repeat(c, n + 1) + Decode(rest)
  {
    DecodePair(c, 126, tail);
    RepeatMore(c, 98, n - 97);
    ConcatAgain(Repeat(c, 98), Repeat(c, n - 97), Decode(rest));
  }

  lemma LongTail(c: Byte, n: nat, rest: seq<Byte>)
    requires n > 97
    ensures [c] + RunBytes(c, n) + rest == [c, STAR, 126] + ([c] + RunBytes(c, n - 98) + rest)
  {
  }

  /** A character and its run decode to the whole run. */
  lemma {:induction false} DecodeRun(c: Byte, n: nat, rest: seq<Byte>)
    requires c != STAR && (rest == [] || rest[0] != STAR)
    ensures Decode([c] + RunBytes(c, n) + rest) == Repeat(c, n + 1) + Decode(rest)
  {
    if n > 97 {
      var tail := [c] + RunBytes(c, n - 98) + rest;
      DecodeRun(c, n - 98, rest);
      DecodeLong(c, tail, n, rest);
      LongTail(c, n, rest);
    } else {
      DecodeShort(c, n, rest);
    }
  }

  /** One more copy of the character in front. */
  lemma DecodeAhead(c: Byte, tail: seq<Byte>, n: nat, rest: seq<Byte>)
    requires (tail == [] || tail[0] != STAR) && Decode(tail) == Repeat(c, n) + Decode(rest)
    ensures Decode([c] + tail) == Repeat(c, n + 1) + Decode(rest)
  {
    DecodeOne(c, tail);
    assert Repeat(c, n + 1) == [c] + Repeat(c, n);
    ConcatAgain([c], Repeat(c, n), Decode(rest));
  }

  lemma DecodeShort(c: Byte, n: nat, rest: seq<Byte>)
    requires c != STAR && (rest == [] || rest[0] != STAR) && n <= 97
    ensures Decode([c] + RunBytes(c, n) + rest) == Repeat(c, n + 1) + Decode(rest)
  {
    if n <= 1 {
      DecodeFew(c, n, rest);
    } else if n == 7 {
      DecodeSeven(c, rest);
    } else if n == 6 || n == 14 || n == 16 {
      DecodeSplit(c, n, rest);
    } else {
      DecodeStar(c, n, rest);
    }
  }

  lemma DecodeStar(c: Byte, n: nat, rest: seq<Byte>)
    requires 2 <= n <= 97 && RunBytes(c, n) == [STAR, n + 29]
    ensures Decode([c] + RunBytes(c, n) + rest) == Repeat(c, n + 1) + Decode(rest)
  {
    assert [c] + RunBytes(c, n) + rest == [c, STAR, n + 29] + rest;
    DecodePair(c, n + 29, rest);
  }

  lemma DecodeSplit(c: Byte, n: nat, rest: seq<Byte>)
    requires c != STAR && 1 <= n <= 97 && RunBytes(c, n) == [c, STAR, n + 28]
    ensures Decode([c] + RunBytes(c, n) + rest) == Repeat(c, n + 1) + Decode(rest)
  {
    assert [c] + RunBytes(c, n) + rest == [c] + ([c, STAR, n + 28] + rest);
    DecodePair(c, n + 28, rest);
    DecodeAhead(c, [c, STAR, n + 28] + rest, n, rest);
  }

  lemma DecodeSeven(c: Byte, rest: seq<Byte>)
    requires c != STAR
    ensures Decode([c] + RunBytes(c, 7) + rest) == Repeat(c, 8) + Decode(rest)
  {
    DecodeSplit(c, 6, rest);
    DecodeAhead(c, [c] + RunBytes(c, 6) + rest, 7, rest);
    assert [c] + RunBytes(c, 7) + rest == [c] + ([c] + RunBytes(c, 6) + rest);
  }

  lemma DecodeFew(c: Byte, n: nat, rest: seq<Byte>)
    requires c != STAR && (rest == [] || rest[0] != STAR) && n <= 1
    ensures Decode([c] + RunBytes(c, n) + rest) == Repeat(c, n + 1) + Decode(rest)
  {
    assert Repeat(c, 0) + Decode(rest) == Decode(rest);
    DecodeAhead(c, rest, 0, rest);
    if n == 1 {
      DecodeAhead(c, [c] + rest, 1, rest);
      assert [c] + RunBytes(c, 1) + rest == [c] + ([c] + rest);
    } else {
      assert [c] + RunBytes(c, 0) + rest == [c] + rest;
    }
  }

  /** What is sent decodes to the payload. */
  lemma {:induction false} RoundTrip(s: seq<Byte>, signed: bool)
    requires STAR !in s
    ensures Decode(Encode(s, signed)) == s
  {
    if s != [] {
      var n := RunLength(s, signed);
      var rest := s[n + 1..];
      NoneIn(s, n + 1);
      RoundTrip(rest, signed);
      EncodeHead(rest, signed);
      DecodeTail(s[0], n, rest, Encode(rest, signed));
      RunSplit(s, signed);
      EncodeStep(s, signed);
    }
  }

  lemma NoneIn(s: seq<Byte>, k: nat)
    requires STAR !in s && s != [] && k <= |s|
    ensures STAR !in s[k..] && s[0] != STAR
  {
  }

  lemma EncodeStep(s: seq<Byte>, signed: bool)
    requires s != []
    ensures var n := RunLength(s, signed);
            Encode(s, signed) == [s[0]] + RunBytes(s[0], n) + Encode(s[n + 1..], signed)
  {
  }

  lemma DecodeTail(c: Byte, n: nat, rest: seq<Byte>, e: seq<Byte>)
    requires c != STAR && Decode(e) == rest && (e == [] || e[0] != STAR)
    ensures Decode([c] + RunBytes(c, n) + e) == Repeat(c, n + 1) + rest
  {
    DecodeRun(c, n, e);
  }

  lemma EncodeHead(s: seq<Byte>, signed: bool)
    ensures s == [] ==> Encode(s, signed) == []
    ensures s != [] ==> Encode(s, signed) != [] && Encode(s, signed)[0] == s[0] && s[0] in s
  {
  }

  lemma RunSplit(s: seq<Byte>, signed: bool)
    requires s != []
    ensures var n := RunLength(s, signed); s == Repeat(s[0], n + 1) + s[n + 1..]
  {
  }

  /** A byte that may stand in a body: never a delimiter. */
  ghost predicate BodyByte(x: Byte) {
    x != HASH && x != DOLLAR
  }

  /** A count: printable or the unit separator 31, and none of the characters with a meaning of their own. */
  ghost predicate CountByte(x: Byte) {
    31 <= x <= 126 && x != HASH && x != DOLLAR && x != PLUS && x != MINUS
  }

  /** In the bytes of a run every star is followed by a proper count, and the rest is the character. */
  ghost predicate RunShape(c: Byte, s: seq<Byte>) {
    if s == [] then true
    else if s[0] == STAR then |s| >= 2 && CountByte(s[1]) && RunShape(c, s[2..])
    else s[0] == c && RunShape(c, s[1..])
  }

  lemma {:induction false} CountsAreProper(c: Byte, n: nat)
    requires c != STAR
    ensures RunShape(c, RunBytes(c, n))
  {
    var s := RunBytes(c, n);
    if n > 97 {
      CountsAreProper(c, n - 98);
      assert s[2..] == [c] + RunBytes(c, n - 98) && ([c] + RunBytes(c, n - 98))[1..] == RunBytes(c, n - 98);
    } else if n == 7 {
      assert s[1..] == [c, STAR, 34] && s[1..][1..] == [STAR, 34] && s[1..][1..][2..] == [];
      assert RunShape(c, s[1..][1..]);
    } else if n == 6 || n == 14 || n == 16 {
      assert s[1..] == [STAR, n + 28] && s[1..][2..] == [];
    } else if n == 1 {
      assert s[1..] == [];
    } else if n > 1 {
      assert s[2..] == [];
    }
  }

  lemma {:induction false} RunShapeBody(c: Byte, s: seq<Byte>)
    requires RunShape(c, s) && BodyByte(c)
    ensures forall i :: 0 <= i < |s| ==> BodyByte(s[i])
  {
    if s != [] {
      if s[0] == STAR {
        RunShapeBody(c, s[2..]);
        assert forall i :: 2 <= i < |s| ==> s[i] == s[2..][i - 2];
      } else {
        RunShapeBody(c, s[1..]);
        assert forall i :: 1 <= i < |s| ==> s[i] == s[1..][i - 1];
      }
    }
  }

  /** No delimiter ever stands in a body. */
  lemma {:induction false} BodyClean(s: seq<Byte>, signed: bool)
    requires Plain(s)
    ensures forall i :: 0 <= i < |Encode(s, signed)| ==> BodyByte(Encode(s, signed)[i])
  {
    if s != [] {
      var n := RunLength(s, signed);
      assert s[0] in s;
      CountsAreProper(s[0], n);
      RunShapeBody(s[0], RunBytes(s[0], n));
      BodyClean(s[n + 1..], signed);
    }
  }

  // Frames.

  lemma {:induction false} SumConcat(x: seq<Byte>, y: seq<Byte>)
    ensures ByteSum(x + y) == ByteSum(x) + ByteSum(y)
  {
    if y == [] {
      assert x + y == x;
    } else {
      assert (x + y)[..|x + y| - 1] == x + y[..|y| - 1];
      SumConcat(x, y[..|y| - 1]);
    }
  }

  /** Hexadecimal digits as numbers, for any character, and numbers as digits. */
  function DigitValue(c: Byte): int {
    if c < 65 then c - 48 else 10 + if c < 97 then c - 65 else c - 97
  }

  function Digit(n: nat): (c: Byte)
    requires n < 16
    ensures DigitValue(c) == n && IsHex(c)
  {
    if n < 10 then n + 48 else n + 87
  }

  predicate IsHex(c: Byte) {
    48 <= c <= 57 || 65 <= c <= 70 || 97 <= c <= 102
  }

  /** The two digits received are those of the checksum. */
  predicate ChecksumOk(body: seq<Byte>, hi: Byte, lo: Byte) {
    ByteSum(body) % 256 - DigitValue(hi) * 16 % 256 - DigitValue(lo) % 16 == 0
  }

  function Frame(payload: seq<Byte>, signed: bool): seq<Byte> {
    var body := Encode(payload, signed);
    [DOLLAR] + body + [HASH, Digit(ByteSum(body) % 256 / 16), Digit(ByteSum(body) % 16)]
  }

  lemma CheckDigits(body: seq<Byte>)
    ensures ChecksumOk(body, Digit(ByteSum(body) % 256 / 16), Digit(ByteSum(body) % 16))
  {
    var x := ByteSum(body);
    NibbleSplit(x);
    SmallMod(x % 256 / 16, x % 16);
  }

  lemma SmallMod(hi: nat, lo: nat)
    requires hi < 16 && lo < 16
    ensures hi * 16 % 256 == hi * 16 && lo % 16 == lo
  {
  }

  lemma NibbleSplit(x: nat)
    ensures x % 256 == x % 256 / 16 * 16 + x % 16
  {
    var y := x % 256;
    assert x == 16 * (x / 256 * 16 + y / 16) + y % 16;
    ModSixteen(x / 256 * 16 + y / 16, y % 16);
  }

  lemma ModSixteen(q: nat, r: nat)
    requires r < 16
    ensures (16 * q + r) % 16 == r
  {
  }

  /** The first place at or after `pos` that holds `c`, or the end. */
  function Find(s: seq<Byte>, pos: nat, c: Byte): (i: nat)
    requires pos <= |s|
    ensures pos <= i <= |s| && (i < |s| ==> s[i] == c) && forall j :: pos <= j < i ==> s[j] != c
    decreases |s| - pos
  {
    if pos == |s| || s[pos] == c then pos else Find(s, pos + 1, c)
  }

  /** The first hash at or after `pos`, or the end, but at most `room` bytes on. */
  function BodyStop(s: seq<Byte>, pos: nat, room: nat): (i: nat)
    requires pos <= |s|
    ensures pos <= i <= |s| && i <= pos + room && (forall j :: pos <= j < i ==> s[j] != HASH)
    ensures i < |s| && i < pos + room ==> s[i] == HASH
    decreases |s| - pos
  {
    if room == 0 || pos == |s| || s[pos] == HASH then pos else BodyStop(s, pos + 1, room - 1)
  }

  /** A packet received up to `next`, a packet too long for the buffer, or input that ends before either. */
  datatype Outcome = Accepted(body: seq<Byte>, next: nat, replies: seq<Byte>)
                   | Overflow(next: nat, replies: seq<Byte>)
                   | Blocked(replies: seq<Byte>)

  function After(replies: seq<Byte>, o: Outcome): Outcome {
    match o
    case Accepted(body, next, r) => Accepted(body, next, replies + r)
    case Overflow(next, r) => Overflow(next, replies + r)
    case Blocked(r) => Blocked(replies + r)
  }

  type Check = (seq<Byte>, Byte, Byte) -> bool

  /** One packet: a final outcome, or a wrong checksum and the place to go on from. */
  datatype Attempt = Stop(outcome: Outcome) | Again(from: nat)

  function Try(ok: Check, s: seq<Byte>, pos: nat, bufsz: nat): (a: Attempt)
    requires pos <= |s| && bufsz > 0
    ensures a.Again? ==> pos < a.from <= |s|
  {
    var d := Find(s, pos, DOLLAR);
    if d == |s| then Stop(Blocked([]))
    else
      var e := BodyStop(s, d + 1, bufsz - 1);
      if e == d + bufsz then Stop(Overflow(e, [MINUS]))
      else if e + 2 >= |s| then Stop(Blocked([]))
      else if ok(s[d + 1..e], s[e + 1], s[e + 2]) then Stop(Accepted(s[d + 1..e], e + 3, [PLUS]))
      else Again(e + 3)
  }

  /** What the receiver makes of the input from `pos` on: it asks again until a checksum is right. */
  function Receive(ok: Check, s: seq<Byte>, pos: nat, bufsz: nat): Outcome
    requires pos <= |s| && bufsz > 0
    decreases |s| - pos
  {
    match Try(ok, s, pos, bufsz)
    case Stop(o) => o
    case Again(from) => After([MINUS], Receive(ok, s, from, bufsz))
  }

  lemma FindAt(s: seq<Byte>, pos: nat, c: Byte, i: nat)
    requires pos <= i < |s| && s[i] == c && forall j :: pos <= j < i ==> s[j] != c
    ensures Find(s, pos, c) == i
  {
  }

  lemma BodyStopAt(s: seq<Byte>, pos: nat, room: nat, i: nat)
    requires pos <= i < |s| && i < pos + room && s[i] == HASH && forall j :: pos <= j < i ==> s[j] != HASH
    ensures BodyStop(s, pos, room) == i
  {
  }

  /** A packet after noise stops the receiver: accepted when it fits the buffer, too long otherwise. */
  lemma TryPacket(ok: Check, noise: seq<Byte>, body: seq<Byte>, hi: Byte, lo: Byte, rest: seq<Byte>, bufsz: nat)
    requires DOLLAR !in noise && HASH !in body && ok(body, hi, lo) && bufsz > 0
    ensures Try(ok, noise + ([DOLLAR] + body + [HASH, hi, lo]) + rest, 0, bufsz)
         == Stop(if |body| < bufsz - 1 then Accepted(body, |noise| + |body| + 4, [PLUS]) else Overflow(|noise| + bufsz, [MINUS]))
  {
    var s := noise + ([DOLLAR] + body + [HASH, hi, lo]) + rest;
    var d, e := |noise|, |noise| + 1 + |body|;
    assert s[d] == DOLLAR && s[d + 1..e] == body && s[e] == HASH && s[e + 1] == hi && s[e + 2] == lo;
    FindAt(s, 0, DOLLAR, d);
    forall j | d + 1 <= j < e ensures s[j] != HASH {
      assert s[j] == body[j - d - 1];
    }
    if |body| < bufsz - 1 {
      BodyStopAt(s, d + 1, bufsz - 1, e);
    }
  }

  /** A frame that was sent is accepted, after any noise, exactly when its body fits the buffer. */
  lemma FrameAccepted(noise: seq<Byte>, payload: seq<Byte>, signed: bool, rest: seq<Byte>, bufsz: nat)
    requires DOLLAR !in noise && Plain(payload) && bufsz > 0
    ensures var o := Receive(ChecksumOk, noise + Frame(payload, signed) + rest, 0, bufsz);
            if |Encode(payload, signed)| < bufsz - 1
            then o == Accepted(Encode(payload, signed), |noise + Frame(payload, signed)|, [PLUS])
            else o == Overflow(|noise| + bufsz, [MINUS])
  {
    var body := Encode(payload, signed);
    BodyClean(payload, signed);
    CheckDigits(body);
    TryPacket(ChecksumOk, noise, body, Digit(ByteSum(body) % 256 / 16), Digit(ByteSum(body) % 16), rest, bufsz);
  }

  /** Whatever is accepted stood in the input between its delimiters, fits the buffer and has the right checksum. */
  ghost predicate WellReceived(ok: Check, s: seq<Byte>, o: Outcome, bufsz: nat) {
    o.Accepted? ==>
      && |o.body| + 4 <= o.next <= |s| && |o.body| < bufsz - 1 && HASH !in o.body
      && s[o.next - 4 - |o.body|] == DOLLAR && s[o.next - 3 - |o.body|..o.next - 3] == o.body && s[o.next - 3] == HASH
      && ok(o.body, s[o.next - 2], s[o.next - 1])
      && |o.replies| > 0 && o.replies == Repeat(MINUS, |o.replies| - 1) + [PLUS]
  }

  lemma {:induction false} ReceiveSound(ok: Check, s: seq<Byte>, pos: nat, bufsz: nat)
    requires pos <= |s| && bufsz > 0
    ensures WellReceived(ok, s, Receive(ok, s, pos, bufsz), bufsz)
    decreases |s| - pos
  {
    match Try(ok, s, pos, bufsz)
    case Stop(o) =>
      TrySound(ok, s, pos, bufsz);
    case Again(from) =>
      ReceiveSound(ok, s, from, bufsz);
      AskAgain(ok, s, Receive(ok, s, from, bufsz), bufsz);
  }

  lemma TrySound(ok: Check, s: seq<Byte>, pos: nat, bufsz: nat)
    requires pos <= |s| && bufsz > 0
    ensures var a := Try(ok, s, pos, bufsz); a.Stop? ==> WellReceived(ok, s, a.outcome, bufsz)
  {
    var d := Find(s, pos, DOLLAR);
    if d < |s| {
      var e := BodyStop(s, d + 1, bufsz - 1);
      if e != d + bufsz && e + 2 < |s| && ok(s[d + 1..e], s[e + 1], s[e + 2]) {
        AcceptedHere(ok, s, d, e, bufsz);
      }
    }
  }

  lemma AcceptedHere(ok: Check, s: seq<Byte>, d: nat, e: nat, bufsz: nat)
    requires d < e < d + bufsz && e + 2 < |s| && s[d] == DOLLAR && s[e] == HASH && (forall j :: d < j < e ==> s[j] != HASH)
    requires ok(s[d + 1..e], s[e + 1], s[e + 2])
    ensures WellReceived(ok, s, Accepted(s[d + 1..e], e + 3, [PLUS]), bufsz)
  {
    assert [PLUS] == Repeat(MINUS, 0) + [PLUS];
  }

  lemma AskAgain(ok: Check, s: seq<Byte>, o: Outcome, bufsz: nat)
    requires WellReceived(ok, s, o, bufsz)
    ensures WellReceived(ok, s, After([MINUS], o), bufsz)
  {
    if o.Accepted? {
      assert [MINUS] + (Repeat(MINUS, |o.replies| - 1) + [PLUS]) == Repeat(MINUS, |o.replies|) + [PLUS];
    }
  }

  // The transmitter.

  lemma SumNext(x: seq<Byte>, c: Byte)
    ensures ByteSum(x + [c]) % 256 == (ByteSum(x) % 256 + c) % 256
  {
    assert (x + [c])[..|x|] == x;
  }

  lemma SliceNext(s: seq<Byte>, start: nat, c: Byte)
    requires start <= |s|
    ensures (s + [c])[start..] == s[start..] + [c]
  {
  }

  lemma JoinThree(w: seq<Byte>, x: seq<Byte>, y: seq<Byte>, z: seq<Byte>)
    ensures w + (x + y + z) == w + x + y + z
  {
  }

  /** A frame being sent: all bytes so far, and the checksum of its body, which begins at `start`. */
  class Sender {
    var out: seq<Byte>
    var cksum: nat
    ghost var start: nat

    ghost predicate Summed()
      reads this
    {
      start <= |out| && cksum == ByteSum(out[start..]) % 256
    }

    constructor ()
      ensures out == []
    {
      out, cksum, start := [], 0, 0;
    }

    /** One byte of the body. */
    method Put(c: Byte)
      requires Summed()
      modifies this
      ensures Summed() && start == old(start) && out == old(out) + [c]
    {
      SliceNext(out, start, c);
      SumNext(out[start..], c);
      out := out + [c];
      cksum := (cksum + c) % 256;
    }

    /** The bytes of a run of `n` repeats. */
    method PutRun(c: Byte, n: nat)
      requires Summed()
      modifies this
      ensures Summed() && start == old(start) && out == old(out) + RunBytes(c, n)
    {
      var runlen: nat := n;
      while runlen >= 97
        invariant Summed() && start == old(start) && out + RunBytes(c, runlen) == old(out) + RunBytes(c, n)
      {
        ghost var was := out;
        Put(STAR);
        Put(97 + 29);
        if runlen > 97 {
          Put(c);
          assert was + RunBytes(c, runlen) == out + RunBytes(c, runlen - 98);
          runlen := runlen - 98;
        } else {
          assert was + RunBytes(c, runlen) == out + RunBytes(c, 0);
          runlen := runlen - 97;
        }
      }
      PutTail(c, runlen);
    }

    /** What is left of a run below 97 repeats. */
    method PutTail(c: Byte, n: nat)
      requires Summed() && n < 97
      modifies this
      ensures Summed() && start == old(start) && out == old(out) + RunBytes(c, n)
    {
      var runlen := n;
      if runlen == 1 {
        Put(c);
        runlen := runlen - 1;
      }
      if runlen == 0 {
        return;
      }
      if runlen == 7 {
        Put(c);
        runlen := runlen - 1;
      }
      if runlen == 6 || runlen == 14 || runlen == 16 {
        Put(c);
        runlen := runlen - 1;
      }
      Put(STAR);
      Put(runlen + 29);
    }

    /** The character at `p` and its run; `q` is the place after them. */
    method PutPiece(payload: seq<Byte>, p: nat, signed: bool) returns (q: nat)
      requires Summed() && p < |payload|
      modifies this
      ensures Summed() && start == old(start) && p < q <= |payload|
      ensures out + Encode(payload[q..], signed) == old(out) + Encode(payload[p..], signed)
    {
      var c := payload[p];
      var runlen := CountRun(payload, p, signed);
      EncodeNext(payload, p, runlen, signed);
      Put(c);
      PutRun(c, runlen);
      q := p + 1 + runlen;
      JoinThree(old(out), [c], RunBytes(c, runlen), Encode(payload[q..], signed));
    }

    /** The whole payload, run by run. */
    method PutBody(payload: seq<Byte>, signed: bool)
      requires Summed()
      modifies this
      ensures Summed() && start == old(start) && out == old(out) + Encode(payload, signed)
    {
      var p := 0;
      assert payload[0..] == payload;
      while p < |payload|
        invariant p <= |payload| && Summed() && start == old(start)
        invariant out + Encode(payload[p..], signed) == old(out) + Encode(payload, signed)
      {
        p := PutPiece(payload, p, signed);
      }
    }

    /** One frame: start, body, checksum digits. */
    method PutFrame(payload: seq<Byte>, signed: bool)
      modifies this
      ensures out == old(out) + Frame(payload, signed)
    {
      out := out + [DOLLAR];
      cksum := 0;
      start := |out|;
      PutBody(payload, signed);
      ghost var body := Encode(payload, signed);
      assert out[start..] == body;
      NibbleSplit(ByteSum(body));
      out := out + [HASH];
      out := out + [Digit(cksum / 16)];
      out := out + [Digit(cksum % 16)];
    }
  }

  /** How often the character at `p` is repeated at once. */
  method CountRun(payload: seq<Byte>, p: nat, signed: bool) returns (runlen: nat)
    requires p < |payload|
    ensures runlen == RunLength(payload[p..], signed)
  {
    runlen := 0;
    var q := p + 1;
    while q < |payload| && SameChar(signed, payload[q], payload[p])
      invariant q == p + 1 + runlen <= |payload| && payload[q - 1] == payload[p]
      invariant RunLength(payload[p..], signed) == runlen + RunLength(payload[q - 1..], signed)
    {
      assert payload[q - 1..][1..] == payload[q..];
      runlen := runlen + 1;
      q := q + 1;
    }
  }

  lemma EncodeNext(payload: seq<Byte>, p: nat, n: nat, signed: bool)
    requires p < |payload| && n == RunLength(payload[p..], signed)
    ensures p + 1 + n <= |payload|
    ensures Encode(payload[p..], signed) == [payload[p]] + RunBytes(payload[p], n) + Encode(payload[p + 1 + n..], signed)
  {
    assert payload[p..][n + 1..] == payload[p + 1 + n..];
  }

  function Frames(payload: seq<Byte>, signed: bool, n: nat): seq<Byte> {
    if n == 0 then [] else Frames(payload, signed, n - 1) + Frame(payload, signed)
  }

  /** The frame is sent until the first plus comes back; `done` says whether one did before the answers ran out. */
  method Transmit(payload: seq<Byte>, signed: bool, answers: seq<Byte>) returns (out: seq<Byte>, tries: nat, done: bool)
    ensures out == Frames(payload, signed, tries)
    ensures done ==> 1 <= tries <= |answers| && answers[tries - 1] == PLUS && PLUS !in answers[..tries - 1]
    ensures !done ==> tries == |answers| + 1 && PLUS !in answers
  {
    var sender := new Sender();
    tries, done := 0, false;
    while tries <= |answers| && !done
      invariant fresh(sender) && tries <= |answers| + 1 && sender.out == Frames(payload, signed, tries)
      invariant done ==> 1 <= tries <= |answers| && answers[tries - 1] == PLUS && PLUS !in answers[..tries - 1]
      invariant !done ==> forall i :: 0 <= i < tries && i < |answers| ==> answers[i] != PLUS
      decreases |answers| + 1 - tries
    {
      sender.PutFrame(payload, signed);
      tries := tries + 1;
      done := tries <= |answers| && answers[tries - 1] == PLUS;
    }
    out := sender.out;
  }

  // The receiver.

  /** Wait for the start character. */
  method SkipToStart(s: seq<Byte>, pos: nat) returns (d: nat)
    requires pos <= |s|
    ensures d == Find(s, pos, DOLLAR)
  {
    d := pos;
    while d < |s| && s[d] != DOLLAR
      invariant pos <= d <= |s| && Find(s, pos, DOLLAR) == Find(s, d, DOLLAR)
    {
      d := d + 1;
    }
  }

  /** Read until a hash, the end of the buffer or the end of the input, adding up what is read. */
  method ReadBody(s: seq<Byte>, pos: nat, room: nat) returns (e: nat, cksum: nat)
    requires pos <= |s|
    ensures e == BodyStop(s, pos, room) && cksum == ByteSum(s[pos..e])
  {
    e, cksum := pos, 0;
    while e - pos < room && e < |s| && s[e] != HASH
      invariant pos <= e <= |s| && e - pos <= room && cksum == ByteSum(s[pos..e])
      invariant BodyStop(s, pos, room) == BodyStop(s, e, room - (e - pos))
    {
      assert s[pos..e + 1][..e - pos] == s[pos..e];
      cksum := cksum + s[e];
      e := e + 1;
    }
  }

  /** One packet from the input. */
  method ReadPacket(s: seq<Byte>, pos: nat, bufsz: nat) returns (a: Attempt)
    requires pos <= |s| && bufsz > 0
    ensures a == Try(ChecksumOk, s, pos, bufsz)
  {
    var d := SkipToStart(s, pos);
    if d == |s| {
      return Stop(Blocked([]));
    }
    var e, cksum := ReadBody(s, d + 1, bufsz - 1);
    if e == d + bufsz {
      return Stop(Overflow(e, [MINUS]));
    }
    if e + 2 >= |s| {
      return Stop(Blocked([]));
    }
    var left := cksum % 256;
    left := left - DigitValue(s[e + 1]) * 16 % 256;
    left := left - DigitValue(s[e + 2]) % 16;
    a := if left == 0 then Stop(Accepted(s[d + 1..e], e + 3, [PLUS])) else Again(e + 3);
  }

  lemma AfterAgain(x: seq<Byte>, y: seq<Byte>, o: Outcome)
    ensures After(x, After(y, o)) == After(x + y, o)
  {
  }

  /** Receive until a packet has the right checksum, does not fit or the input ends. */
  method ReceivePacket(s: seq<Byte>, bufsz: nat) returns (o: Outcome)
    requires bufsz > 0
    ensures o == Receive(ChecksumOk, s, 0, bufsz)
  {
    var pos, replies := 0, [];
    ghost var all := Receive(ChecksumOk, s, 0, bufsz);
    var a := ReadPacket(s, pos, bufsz);
    while a.Again?
      invariant pos <= |s| && a == Try(ChecksumOk, s, pos, bufsz) && all == After(replies, Receive(ChecksumOk, s, pos, bufsz))
      decreases |s| - pos
    {
      AfterAgain(replies, [MINUS], Receive(ChecksumOk, s, a.from, bufsz));
      pos, replies := a.from, replies + [MINUS];
      a := ReadPacket(s, pos, bufsz);
    }
    o := After(replies, a.outcome);
  }

  // Hexadecimal data.

  /** Two digits for every byte of memory. */
  function HexOf(m: seq<Byte>): (h: seq<Byte>)
    ensures |h| == 2 * |m|
    ensures forall i :: 0 <= i < |m| ==> h[2 * i] == Digit(m[i] / 16) && h[2 * i + 1] == Digit(m[i] % 16)
  {
    if m == [] then [] else HexOf(m[..|m| - 1]) + [Digit(m[|m| - 1] / 16), Digit(m[|m| - 1] % 16)]
  }

  method PutMemory(m: seq<Byte>) returns (h: seq<Byte>)
    ensures h == HexOf(m)
  {
    h := [];
    for i := 0 to |m|
      invariant h == HexOf(m[..i])
    {
      assert m[..i + 1][..i] == m[..i];
      h := h + [Digit(m[i] / 16)];
      h := h + [Digit(m[i] % 16)];
    }
    assert m[..|m|] == m;
  }

  /** Memory as it is written from the digits of a packet; a packet of the wrong length is refused. */
  method GetMemory(packet: seq<Byte>, size: nat) returns (ok: bool, m: seq<Byte>)
    ensures ok == (|packet| == 2 * size) && (ok ==> |m| == size)
    ensures forall data: seq<Byte> :: |data| == size && packet == HexOf(data) ==> ok && m == data
  {
    m := [];
    ok := size * 2 == |packet|;
    if !ok {
      return;
    }
    for i := 0 to size
      invariant |m| == i
      invariant forall k :: 0 <= k < i ==> m[k] == TwoDigits(packet[2 * k], packet[2 * k + 1])
    {
      m := m + [TwoDigits(packet[2 * i], packet[2 * i + 1])];
    }
    forall data: seq<Byte> | |data| == size && packet == HexOf(data) ensures m == data {
      forall k | 0 <= k < size ensures m[k] == data[k] {
        DigitsOf(data, k);
      }
    }
  }

  /** The byte two digits stand for. */
  function TwoDigits(x: Byte, y: Byte): Byte {
    DigitValue(x) * 16 % 256 + DigitValue(y) % 16
  }

  lemma DigitsOf(data: seq<Byte>, k: nat)
    requires k < |data|
    ensures |HexOf(data)| == 2 * |data| && TwoDigits(HexOf(data)[2 * k], HexOf(data)[2 * k + 1]) == data[k]
  {
    NibbleSplit(data[k]);
  }

  const UINTMAX_MODULUS := 0x1_0000_0000_0000_0000

  /** The number that digits stand for. */
  function HexValue(s: seq<Byte>): int {
    if s == [] then 0 else HexValue(s[..|s| - 1]) * 16 + DigitValue(s[|s| - 1])
  }

  /** A number in hexadecimal without leading zeros. */
  function HexNumber(n: nat): (h: seq<Byte>)
    ensures h != [] && forall i :: 0 <= i < |h| ==> IsHex(h[i])
  {
    if n < 16 then [Digit(n)] else HexNumber(n / 16) + [Digit(n % 16)]
  }

  lemma {:induction false} HexNumberValue(n: nat)
    ensures HexValue(HexNumber(n)) == n
  {
    var h := HexNumber(n);
    if n < 16 {
      assert h[..0] == [];
    } else {
      HexNumberValue(n / 16);
      assert h[..|h| - 1] == HexNumber(n / 16);
    }
  }

  /** The first place at or after `pos` that is not a hexadecimal digit. */
  function HexEnd(s: seq<Byte>, pos: nat): (e: nat)
    requires pos <= |s|
    ensures pos <= e <= |s| && (e < |s| ==> !IsHex(s[e])) && forall i :: pos <= i < e ==> IsHex(s[i])
    decreases |s| - pos
  {
    if pos == |s| || !IsHex(s[pos]) then pos else HexEnd(s, pos + 1)
  }

  lemma SliceGrow(s: seq<Byte>, from: nat, i: nat)
    requires from <= i < |s|
    ensures HexValue(s[from..i + 1]) == HexValue(s[from..i]) * 16 + DigitValue(s[i])
  {
    assert s[from..i + 1][..i - from] == s[from..i];
  }

  lemma ShiftIn(v: int, d: int)
    ensures (v % UINTMAX_MODULUS * 16 + d) % UINTMAX_MODULUS == (v * 16 + d) % UINTMAX_MODULUS
  {
    var q := v / UINTMAX_MODULUS;
    assert v * 16 + d == v % UINTMAX_MODULUS * 16 + d + (q * 16) * UINTMAX_MODULUS;
    DropMultiple(v % UINTMAX_MODULUS * 16 + d, q * 16);
  }

  lemma DropMultiple(x: int, k: int)
    ensures (x + k * UINTMAX_MODULUS) % UINTMAX_MODULUS == x % UINTMAX_MODULUS
  {
  }

  /** A byte that a signed char makes the mark for the end of the packet: it is not given back. */
  predicate Swallowed(s: seq<Byte>, signed: bool, k: nat) {
    signed && k < |s| && s[k] == 255
  }

  /**
   A number with an optional sign; without a digit nothing is taken from the
   packet.  Only, where char is signed, a byte of 255 in the place of a digit is taken too.
   */
  method GetNumber(s: seq<Byte>, signed: bool, pos: nat) returns (ok: bool, v: nat, next: nat)
    requires pos <= |s|
    ensures var from := if pos < |s| && s[pos] == MINUS then pos + 1 else pos;
            var e := HexEnd(s, from);
            && ok == (from < e) && next == (if ok then e else pos) + (if Swallowed(s, signed, e) then 1 else 0)
            && (ok ==> v == (if from == pos then HexValue(s[from..e]) else -HexValue(s[from..e])) % UINTMAX_MODULUS)
  {
    var neg := pos < |s| && s[pos] == MINUS;
    var from := if neg then pos + 1 else pos;
    ok, v, next := false, 0, pos;
    if from == |s| || !IsHex(s[from]) {
      next := if Swallowed(s, signed, from) then pos + 1 else pos;
      return;
    }
    var i;
    v, i := GetDigits(s, from);
    if neg {
      NegateMod(HexValue(s[from..i]));
      v := (0 - v as int) % UINTMAX_MODULUS;
    }
    ok, next := true, if Swallowed(s, signed, i) then i + 1 else i;
  }

  /** The digits from a place on, as a number. */
  method GetDigits(s: seq<Byte>, from: nat) returns (v: nat, i: nat)
    requires from <= |s|
    ensures i == HexEnd(s, from) && v == HexValue(s[from..i]) % UINTMAX_MODULUS
  {
    v, i := 0, from;
    while i < |s| && IsHex(s[i])
      invariant from <= i <= |s| && HexEnd(s, from) == HexEnd(s, i) && v == HexValue(s[from..i]) % UINTMAX_MODULUS
    {
      SliceGrow(s, from, i);
      ShiftIn(HexValue(s[from..i]), DigitValue(s[i]));
      v := (v * 16 + DigitValue(s[i])) % UINTMAX_MODULUS;
      i := i + 1;
    }
  }

  lemma NegateMod(x: int)
    ensures (-(x % UINTMAX_MODULUS)) % UINTMAX_MODULUS == (-x) % UINTMAX_MODULUS
  {
    var q := x / UINTMAX_MODULUS;
    assert -x == -(x % UINTMAX_MODULUS) + (-q) * UINTMAX_MODULUS;
    DropMultiple(-(x % UINTMAX_MODULUS), -q);
  }

  /** Every number that is sent is read back, up to the first character that is no digit. */
  lemma NumberRoundTrip(before: seq<Byte>, n: nat, rest: seq<Byte>)
    requires rest == [] || !IsHex(rest[0])
    ensures var s, e := before + HexNumber(n) + rest, |before| + |HexNumber(n)|;
            s[|before|] != MINUS && HexEnd(s, |before|) == e && HexValue(s[|before|..e]) == n
  {
    HexNumberValue(n);
    DigitsBetween(before, HexNumber(n), rest);
  }

  /** What is read where a number was sent is that number, and what follows it is left. */
  method GetSent(before: seq<Byte>, n: nat, rest: seq<Byte>, signed: bool) returns (v: nat, next: nat)
    requires (rest == [] || !IsHex(rest[0])) && !Swallowed(rest, signed, 0)
    ensures v == n % UINTMAX_MODULUS && next == |before| + |HexNumber(n)|
  {
    NumberRoundTrip(before, n, rest);
    ghost var ok;
    ok, v, next := GetNumber(before + HexNumber(n) + rest, signed, |before|);
  }

  lemma DigitsBetween(before: seq<Byte>, h: seq<Byte>, rest: seq<Byte>)
    requires h != [] && (rest == [] || !IsHex(rest[0])) && forall i :: 0 <= i < |h| ==> IsHex(h[i])
    ensures var s, e := before + h + rest, |before| + |h|;
            s[|before|] != MINUS && HexEnd(s, |before|) == e && s[|before|..e] == h
  {
    var s, e := before + h + rest, |before| + |h|;
    assert s[|before|..e] == h;
    forall i | |before| <= i < e ensures IsHex(s[i]) {
      assert s[i] == h[i - |before|];
    }
    HexEndAt(s, |before|, e);
  }

  lemma HexEndAt(s: seq<Byte>, pos: nat, e: nat)
    requires pos <= e <= |s| && (e == |s| || !IsHex(s[e])) && forall i :: pos <= i < e ==> IsHex(s[i])
    ensures HexEnd(s, pos) == e
  {
  }
}
