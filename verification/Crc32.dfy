/** The checksum written into every archive header: the bit-by-bit CRC-32 loop, its meaning as a
    polynomial remainder (section 8 of RFC 1952), and the bursts of damage it always detects.

    The 32-bit register is the sequence of its bits, least significant bit first, so `crc >>> 1`
    drops the first bit and appends a clear one. */
module Crc32 {
  import opened Bits

  type Register = r: seq<bool> | |r| == 32 witness Zeros(32)

  /** The exponents of the CRC-32 generator polynomial. */
  predicate HasTerm(e: int) {
    e == 32 || e == 26 || e == 23 || e == 22 || e == 16 || e == 12 || e == 11 || e == 10
    || e == 8 || e == 7 || e == 5 || e == 4 || e == 2 || e == 1 || e == 0
  }

  /** x^32 + x^26 + ... + x + 1, highest coefficient first. */
  function Generator(): (g: seq<bool>)
    ensures |g| == 33 && forall i :: 0 <= i < 33 ==> g[i] == HasTerm(32 - i)
  {
    seq(33, i => HasTerm(32 - i))
  }

  /** The bits of the constant 0xedb88320. */
  function Polynomial(): (r: Register)
    ensures r == Generator()[1..] && r[31]
  {
    assert Generator()[32];
    Generator()[1..]
  }

  /** The bits of the constant 0xffffffff. */
  function Ones(): (r: Register)
    ensures forall i :: 0 <= i < 32 ==> r[i]
  {
    seq(32, i => true)
  }

  /** Four more bits of a number read from its bit sequence. */
  lemma Nibble(bits: seq<bool>, at: nat)
    requires at + 4 <= |bits|
    ensures FromBits(bits[at..]) == NibbleAt(bits, at) + 16 * FromBits(bits[at + 4..])
  {
    Suffix(bits, at);
    Suffix(bits, at + 1);
    Suffix(bits, at + 2);
    Suffix(bits, at + 3);
  }

  lemma Suffix(bits: seq<bool>, at: nat)
    requires at < |bits|
    ensures FromBits(bits[at..]) == (if bits[at] then 1 else 0) + 2 * FromBits(bits[at + 1..])
  {
  }

  lemma ConstantsAsWritten()
    ensures FromBits(Polynomial()) == 0xedb8_8320
    ensures FromBits(Ones()) == 0xffff_ffff
  {
    EightNibbles(Polynomial());
    PolynomialNibbles(Polynomial());
    EightNibbles(Ones());
  }

  lemma PolynomialNibbles(p: Register)
    requires p == Polynomial()
    ensures NibbleAt(p, 0) == 0x0 && NibbleAt(p, 4) == 0x2 && NibbleAt(p, 8) == 0x3 && NibbleAt(p, 12) == 0x8
    ensures NibbleAt(p, 16) == 0x8 && NibbleAt(p, 20) == 0xb && NibbleAt(p, 24) == 0xd && NibbleAt(p, 28) == 0xe
  {
  }

  lemma EightNibbles(r: Register)
    ensures FromBits(r) == NibbleAt(r, 0) + 0x10 * NibbleAt(r, 4) + 0x100 * NibbleAt(r, 8) + 0x1000 * NibbleAt(r, 12)
                           + 0x1_0000 * NibbleAt(r, 16) + 0x10_0000 * NibbleAt(r, 20)
                           + 0x100_0000 * NibbleAt(r, 24) + 0x1000_0000 * NibbleAt(r, 28)
  {
    assert r[0..] == r;
    Nibble(r, 0);
    Nibble(r, 4);
    Nibble(r, 8);
    Nibble(r, 12);
    Nibble(r, 16);
    Nibble(r, 20);
    Nibble(r, 24);
    Nibble(r, 28);
  }

  function NibbleAt(bits: seq<bool>, at: nat): nat
    requires at + 4 <= |bits|
  {
    (if bits[at] then 1 else 0) + (if bits[at + 1] then 2 else 0) + (if bits[at + 2] then 4 else 0)
    + (if bits[at + 3] then 8 else 0)
  }

  // ----- the program's loop

  function ShiftRight(crc: Register): Register {
    crc[1..] + [false]
  }

  /** `0xedb88320 & -(crc & 1)`: the mask is all ones or all zeros. */
  function Masked(crc: Register): (r: Register)
    ensures r == if crc[0] then Polynomial() else Zeros(32)
  {
    seq(32, i requires 0 <= i < 32 => Polynomial()[i] && crc[0])
  }

  function Round(crc: Register): Register {
    Xor(ShiftRight(crc), Masked(crc))
  }

  function Rounds(crc: Register, n: nat): Register
    decreases n
  {
    if n == 0 then crc else Rounds(Round(crc), n - 1)
  }

  function ByteStep(crc: Register, byte: Byte): Register {
    Rounds(Xor(crc, ToBits(byte, 32)), 8)
  }

  function Feed(crc: Register, buffer: seq<Byte>): Register {
    if buffer == [] then crc else ByteStep(Feed(crc, buffer[..|buffer| - 1]), buffer[|buffer| - 1])
  }

  function Checksum(buffer: seq<Byte>): (checksum: nat)
    ensures checksum < 0x1_0000_0000
  {
    RegisterValue(Xor(Feed(Ones(), buffer), Ones()));
    FromBits(Xor(Feed(Ones(), buffer), Ones()))
  }

  lemma RegisterValue(crc: Register)
    ensures FromBits(crc) < 0x1_0000_0000
    ensures ToBits(FromBits(crc), 32) == crc
  {
    ToFromBits(crc);
    Power2Values();
  }

  lemma {:induction false} RoundsLast(crc: Register, n: nat)
    ensures Rounds(crc, n + 1) == Round(Rounds(crc, n))
    decreases n
  {
    if n > 0 {
      RoundsLast(Round(crc), n - 1);
    }
  }

  method Compute(buffer: seq<Byte>) returns (checksum: nat)
    ensures checksum == Checksum(buffer)
  {
    var crc: Register := Ones();
    for i := 0 to |buffer|
      invariant crc == Feed(Ones(), buffer[..i])
    {
      crc := Xor(crc, ToBits(buffer[i], 32));
      ghost var start := crc;
      for bit := 0 to 8
        invariant crc == Rounds(start, bit)
      {
        crc := Xor(ShiftRight(crc), Masked(crc));
        RoundsLast(start, bit);
      }
      assert buffer[..i + 1][..i] == buffer[..i];
    }
    assert buffer[..|buffer|] == buffer;
    checksum := FromBits(Xor(crc, Ones()));
  }

  // ----- one message bit at a time

  /** Adds one message bit at the low end of the register, then runs a round. */
  function BitStep(crc: Register, bit: bool): Register {
    Round(FlipLow(crc, bit))
  }

  function FlipLow(crc: Register, bit: bool): Register {
    [crc[0] != bit] + crc[1..]
  }

  function Run(crc: Register, message: seq<bool>): Register
    decreases |message|
  {
    if message == [] then crc else Run(BitStep(crc, message[0]), message[1..])
  }

  function MessageBits(buffer: seq<Byte>): (m: seq<bool>)
    ensures |m| == 8 * |buffer|
  {
    if buffer == [] then [] else MessageBits(buffer[..|buffer| - 1]) + ToBits(buffer[|buffer| - 1], 8)
  }

  lemma {:induction false} RunConcat(crc: Register, a: seq<bool>, b: seq<bool>)
    ensures Run(crc, a + b) == Run(Run(crc, a), b)
    decreases |a|
  {
    if a == [] {
      assert a + b == b;
    } else {
      assert (a + b)[1..] == a[1..] + b;
      RunConcat(BitStep(crc, a[0]), a[1..], b);
    }
  }

  lemma RoundLinear(a: Register, b: Register)
    ensures Round(Xor(a, b)) == Xor(Round(a), Round(b))
  {
  }

  /** Bits waiting in the register and bits waiting in the message are interchangeable. */
  lemma {:induction false} RunFolds(crc: Register, message: seq<bool>)
    requires |message| <= 32
    ensures Run(crc, message) == Rounds(Xor(crc, message + Zeros(32 - |message|)), |message|)
    decreases |message|
  {
    if message == [] {
      assert Xor(crc, [] + Zeros(32)) == crc;
    } else {
      var rest := message[1..];
      var start := FlipLow(crc, message[0]);
      var waiting := [false] + rest + Zeros(32 - |message|);
      assert Xor(crc, message + Zeros(32 - |message|)) == Xor(start, waiting);
      RoundLinear(start, waiting);
      assert Round(waiting) == rest + Zeros(32 - |rest|);
      RunFolds(Round(start), rest);
    }
  }

  /** The program's byte loop is the bit-serial machine run over the message bits. */
  lemma {:induction false} FeedIsRun(crc: Register, buffer: seq<Byte>)
    ensures Feed(crc, buffer) == Run(crc, MessageBits(buffer))
  {
    if buffer != [] {
      var init, last := buffer[..|buffer| - 1], buffer[|buffer| - 1];
      FeedIsRun(crc, init);
      RunConcat(crc, MessageBits(init), ToBits(last, 8));
      RunFolds(Feed(crc, init), ToBits(last, 8));
      WideByte(last);
    }
  }

  lemma WideByte(byte: Byte)
    ensures ToBits(byte, 32) == ToBits(byte, 8) + Zeros(24)
  {
    WideBits(byte, 8, 24);
    Power2Values();
    ZeroBits(24);
  }

  lemma {:induction false} WideBits(value: nat, m: nat, n: nat)
    requires value < Power2(m)
    ensures ToBits(value, m + n) == ToBits(value, m) + ToBits(0, n)
  {
    if m > 0 {
      WideBits(value / 2, m - 1, n);
    }
  }

  lemma {:induction false} ZeroBits(n: nat)
    ensures ToBits(0, n) == Zeros(n)
  {
    if n > 0 {
      ZeroBits(n - 1);
    }
  }

  // ----- every step permutes the register states

  function Unround(crc: Register): Register {
    var shifted := if crc[31] then Xor(crc, Polynomial()) else crc;
    [crc[31]] + shifted[..31]
  }

  lemma UnroundInverts(crc: Register)
    ensures Unround(Round(crc)) == crc && Round(Unround(crc)) == crc
  {
    UnroundAfter(crc);
    RoundAfter(crc);
  }

  lemma UnroundAfter(crc: Register)
    ensures Unround(Round(crc)) == crc
  {
  }

  lemma RoundAfter(crc: Register)
    ensures Round(Unround(crc)) == crc
  {
  }

  function Unrun(crc: Register, message: seq<bool>): Register
    decreases |message|
  {
    if message == [] then crc
    else FlipLow(Unround(Unrun(crc, message[1..])), message[0])
  }

  /** For a fixed message the map from start state to end state is a bijection. */
  lemma {:induction false} RunBijective(crc: Register, message: seq<bool>)
    ensures Unrun(Run(crc, message), message) == crc
    ensures Run(Unrun(crc, message), message) == crc
    decreases |message|
  {
    if message != [] {
      var next := BitStep(crc, message[0]);
      RunBijective(next, message[1..]);
      UnroundInverts(FlipLow(crc, message[0]));
      RunBijective(crc, message[1..]);
      UnroundInverts(Unrun(crc, message[1..]));
      var c := Unround(Unrun(crc, message[1..]));
      assert FlipLow(FlipLow(c, message[0]), message[0]) == c;
    }
  }

  ghost predicate Reached(d: Register, byte: Byte) {
    exists c: Register :: ByteStep(c, byte) == d
  }

  /** Each byte permutes the 32-bit states: distinct states stay distinct and every state is hit. */
  lemma ByteStepBijective(byte: Byte)
    ensures forall c: Register, d: Register :: ByteStep(c, byte) == ByteStep(d, byte) ==> c == d
    ensures forall d: Register :: Reached(d, byte)
  {
    var bits := ToBits(byte, 8);
    forall c: Register
      ensures ByteStep(c, byte) == Run(c, bits)
    {
      RunFolds(c, bits);
      WideByte(byte);
    }
    forall c: Register, d: Register | ByteStep(c, byte) == ByteStep(d, byte)
      ensures c == d
    {
      RunBijective(c, bits);
      RunBijective(d, bits);
    }
    forall d: Register
      ensures Reached(d, byte)
    {
      RunBijective(d, bits);
      assert ByteStep(Unrun(d, bits), byte) == d;
    }
  }

  // ----- bursts

  /** Two messages that differ only inside a window of at most 32 bits leave different registers. */
  lemma BurstRegister(crc: Register, prefix: seq<bool>, a: seq<bool>, b: seq<bool>, suffix: seq<bool>)
    requires |a| == |b| <= 32 && a != b
    ensures Run(crc, prefix + a + suffix) != Run(crc, prefix + b + suffix)
  {
    var c := Run(crc, prefix);
    RunConcat(crc, prefix + a, suffix);
    RunConcat(crc, prefix, a);
    RunConcat(crc, prefix + b, suffix);
    RunConcat(crc, prefix, b);
    RunBijective(Run(c, a), suffix);
    RunBijective(Run(c, b), suffix);
    if Run(c, a) == Run(c, b) {
      var pad := Zeros(32 - |a|);
      RunFolds(c, a);
      RunFolds(c, b);
      RoundsInjective(Xor(c, a + pad), Xor(c, b + pad), |a|);
      XorInjective(c, a + pad, b + pad);
      PrefixInjective(a, b, pad);
    }
  }

  lemma {:induction false} RoundsInjective(c: Register, d: Register, n: nat)
    requires Rounds(c, n) == Rounds(d, n)
    ensures c == d
    decreases n
  {
    if n > 0 {
      RoundsInjective(Round(c), Round(d), n - 1);
      UnroundInverts(c);
      UnroundInverts(d);
    }
  }

  lemma XorInjective(c: seq<bool>, a: seq<bool>, b: seq<bool>)
    requires |a| == |b| == |c| && Xor(c, a) == Xor(c, b)
    ensures a == b
  {
  }

  lemma XorInjectiveRight(c: seq<bool>, a: seq<bool>, b: seq<bool>)
    requires |a| == |b| == |c| && Xor(a, c) == Xor(b, c)
    ensures a == b
  {
  }

  lemma PrefixInjective(a: seq<bool>, b: seq<bool>, pad: seq<bool>)
    requires |a| == |b| && a + pad == b + pad
    ensures a == b
  {
    assert a == (a + pad)[..|a|] && b == (b + pad)[..|b|];
  }

  lemma MessageBitsAppend(buffer: seq<Byte>, byte: Byte)
    ensures MessageBits(buffer + [byte]) == MessageBits(buffer) + ToBits(byte, 8)
  {
    assert (buffer + [byte])[..|buffer|] == buffer;
  }

  lemma {:induction false} MessageBitsConcat(a: seq<Byte>, b: seq<Byte>)
    ensures MessageBits(a + b) == MessageBits(a) + MessageBits(b)
  {
    if b == [] {
      assert a + b == a;
    } else {
      hide ToBits;
      var init, last := b[..|b| - 1], b[|b| - 1];
      assert a + b == a + init + [last] && b == init + [last];
      MessageBitsConcat(a, init);
      MessageBitsAppend(a + init, last);
      MessageBitsAppend(init, last);
    }
  }

  lemma MessageBitsSandwich(prefix: seq<Byte>, a: seq<Byte>, suffix: seq<Byte>)
    ensures MessageBits(prefix + a + suffix) == MessageBits(prefix) + MessageBits(a) + MessageBits(suffix)
  {
    MessageBitsConcat(prefix + a, suffix);
    MessageBitsConcat(prefix, a);
  }

  lemma LastBits(buffer: seq<Byte>)
    requires buffer != []
    ensures var n := |buffer| - 1;
            && MessageBits(buffer)[..8 * n] == MessageBits(buffer[..n])
            && MessageBits(buffer)[8 * n..] == ToBits(buffer[n], 8)
  {
  }

  lemma {:induction false} MessageBitsInjective(a: seq<Byte>, b: seq<Byte>)
    requires |a| == |b| && MessageBits(a) == MessageBits(b)
    ensures a == b
  {
    if a != [] {
      var n := |a| - 1;
      hide MessageBits, ToBits, FromBits;
      LastBits(a);
      LastBits(b);
      MessageBitsInjective(a[..n], b[..n]);
      Power2Values();
      FromToBits(a[n], 8);
      FromToBits(b[n], 8);
      assert a == a[..n] + [a[n]] && b == b[..n] + [b[n]];
    }
  }

  /** Damage confined to at most four consecutive bytes always changes the checksum. */
  lemma BurstDetected(prefix: seq<Byte>, a: seq<Byte>, b: seq<Byte>, suffix: seq<Byte>)
    requires |a| == |b| <= 4 && a != b
    ensures Checksum(prefix + a + suffix) != Checksum(prefix + b + suffix)
  {
    var p, x, y, s := MessageBits(prefix), MessageBits(a), MessageBits(b), MessageBits(suffix);
    if x == y {
      MessageBitsInjective(a, b);
    }
    BurstRegister(Ones(), p, x, y, s);
    MessageBitsSandwich(prefix, a, suffix);
    MessageBitsSandwich(prefix, b, suffix);
    if Checksum(prefix + a + suffix) == Checksum(prefix + b + suffix) {
      ChecksumInjective(prefix + a + suffix, prefix + b + suffix);
    }
  }

  lemma ChecksumInjective(a: seq<Byte>, b: seq<Byte>)
    requires Checksum(a) == Checksum(b)
    ensures Run(Ones(), MessageBits(a)) == Run(Ones(), MessageBits(b))
  {
    FeedIsRun(Ones(), a);
    FeedIsRun(Ones(), b);
    var c, d := Feed(Ones(), a), Feed(Ones(), b);
    RegisterValue(Xor(c, Ones()));
    RegisterValue(Xor(d, Ones()));
    XorInjectiveRight(Ones(), c, d);
  }

  // ----- polynomials over GF(2), highest coefficient first

  /** `quotient` times the generator. */
  function Product(quotient: seq<bool>): (r: seq<bool>)
    ensures |r| == |quotient| + 32
  {
    if quotient == [] then Zeros(32)
    else
      Xor((if quotient[0] then Generator() else Zeros(33)) + Zeros(|quotient| - 1), [false] + Product(quotient[1..]))
  }

  /** `dividend == quotient * generator + remainder`. */
  ghost predicate Divides(dividend: seq<bool>, quotient: seq<bool>, remainder: Register) {
    && |dividend| == |quotient| + 32
    && dividend == Xor(Product(quotient), Zeros(|quotient|) + remainder)
  }

  lemma {:induction false} RemainderUnique(dividend: seq<bool>, q: seq<bool>, r: Register, q': seq<bool>, r': Register)
    requires Divides(dividend, q, r) && Divides(dividend, q', r')
    ensures q == q' && r == r'
    decreases |q|
  {
    if q == [] {
      assert forall i :: 0 <= i < 32 ==> dividend[i] == r[i] && dividend[i] == r'[i];
    } else {
      assert dividend[0] == q[0] == q'[0];
      var lead := (if q[0] then Generator() else Zeros(33)) + Zeros(|q| - 1);
      var rest := Xor(dividend, lead)[1..];
      Peel(dividend, q, r);
      Peel(dividend, q', r');
      RemainderUnique(rest, q[1..], r, q'[1..], r');
      assert q == [q[0]] + q[1..] && q' == [q'[0]] + q'[1..];
    }
  }

  lemma Peel(dividend: seq<bool>, q: seq<bool>, r: Register)
    requires q != [] && Divides(dividend, q, r)
    ensures var lead := (if q[0] then Generator() else Zeros(33)) + Zeros(|q| - 1);
            Divides(Xor(dividend, lead)[1..], q[1..], r)
  {
  }

  lemma Unpeel(dividend: seq<bool>, q: seq<bool>, r: Register)
    requires q != [] && |dividend| == |q| + 32 && dividend[0] == q[0]
    requires var lead := (if q[0] then Generator() else Zeros(33)) + Zeros(|q| - 1);
             Divides(Xor(dividend, lead)[1..], q[1..], r)
    ensures Divides(dividend, q, r)
  {
  }

  /** What the bit-serial machine divides: the register in front, the message shifted up by x^32. */
  function Dividend(crc: Register, message: seq<bool>): (d: seq<bool>)
    ensures |d| == |message| + 32
  {
    Xor(crc + Zeros(|message|), message + Zeros(32))
  }

  lemma {:induction false} RunDivides(crc: Register, message: seq<bool>) returns (quotient: seq<bool>)
    ensures Divides(Dividend(crc, message), quotient, Run(crc, message))
    decreases |message|
  {
    if message == [] {
      quotient := [];
    } else {
      hide Divides, BitStep, Dividend, Generator, Xor;
      var dividend, next := Dividend(crc, message), BitStep(crc, message[0]);
      var rest := RunDivides(next, message[1..]);
      quotient := [dividend[0]] + rest;
      assert |rest| == |message| - 1 by { QuotientLength(Dividend(next, message[1..]), rest, Run(crc, message)); }
      StepDivides(crc, message);
      assert quotient[1..] == rest;
      Unpeel(dividend, quotient, Run(crc, message));
    }
  }

  lemma QuotientLength(dividend: seq<bool>, q: seq<bool>, r: Register)
    requires Divides(dividend, q, r)
    ensures |q| == |dividend| - 32
  {
  }

  /** A bit step is a step of the division: the leading term is taken off. */
  lemma StepDivides(crc: Register, message: seq<bool>)
    requires message != []
    ensures var dividend := Dividend(crc, message);
            var lead := (if dividend[0] then Generator() else Zeros(33)) + Zeros(|message| - 1);
            Xor(dividend, lead)[1..] == Dividend(BitStep(crc, message[0]), message[1..])
  {
    var dividend := Dividend(crc, message);
    var lead := (if dividend[0] then Generator() else Zeros(33)) + Zeros(|message| - 1);
    var left, right := Xor(dividend, lead)[1..], Dividend(BitStep(crc, message[0]), message[1..]);
    forall i | 0 <= i < |left|
      ensures left[i] == right[i]
    {
      assert left[i] == (dividend[i + 1] != lead[i + 1]);
    }
    assert left == right;
  }

  /** The dividend of section 8 of RFC 1952: the message with its first 32 bits complemented and 32
      clear bits appended, each byte low bit first. */
  function Preset(buffer: seq<Byte>): (d: seq<bool>)
    ensures |d| == 8 * |buffer| + 32
  {
    Dividend(Ones(), MessageBits(buffer))
  }

  /** The complement of the checksum is the remainder of the preset message, and the only one. */
  lemma ChecksumIsRemainder(buffer: seq<Byte>)
    ensures exists q :: Divides(Preset(buffer), q, Xor(ToBits(Checksum(buffer), 32), Ones()))
    ensures forall q, r: Register :: Divides(Preset(buffer), q, r) ==> FromBits(Xor(r, Ones())) == Checksum(buffer)
  {
    var c := Feed(Ones(), buffer);
    FeedIsRun(Ones(), buffer);
    RegisterValue(Xor(c, Ones()));
    assert Xor(ToBits(Checksum(buffer), 32), Ones()) == c;
    var q := RunDivides(Ones(), MessageBits(buffer));
    assert Divides(Preset(buffer), q, c);
    forall q', r: Register | Divides(Preset(buffer), q', r)
      ensures FromBits(Xor(r, Ones())) == Checksum(buffer)
    {
      RemainderUnique(Preset(buffer), q, c, q', r);
    }
  }
}
