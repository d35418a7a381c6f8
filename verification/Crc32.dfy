/**
 * CRC-32 as in section 8 of RFC 1952: what the checksum is, and the algebra that makes a table work.
 * The word operations have names, so that lemmas about whole messages can treat them as given.
 */
module CrcAlgebra {

  const POLY: bv32 := 0xedb8_8320

  /** The number of bits in a byte, kept symbolic so that recursive definitions are not unrolled. */
  function OctetBits(): (n: nat)
    ensures n == 8
  {
    |[0, 0, 0, 0, 0, 0, 0, 0]|
  }

  // ----- words -----

  function Xor(a: bv32, b: bv32): bv32 {
    a ^ b
  }

  function Not(a: bv32): bv32 {
    !a
  }

  function Low(a: bv32): bool {
    a & 1 == 1
  }

  function Half(a: bv32): bv32 {
    a >> 1
  }

  function Rest(a: bv32): bv32 {
    a >> 8
  }

  function LowByte(a: bv32): bv32 {
    a & 0xff
  }

  function HighBytes(a: bv32): bv32 {
    a & 0xffff_ff00
  }

  function AsWord(octet: bv8): bv32 {
    octet as bv32
  }

  ghost predicate TopFree(a: bv32) {
    a & 0x8000_0000 == 0
  }

  /** The word whose lowest bit is `bit` and whose other bits are those of `a`, moved up. */
  function Prepend(bit: bool, a: bv32): bv32 {
    (if bit then 1 else 0) ^ (a << 1)
  }

  // ----- reference: dividing the message by the polynomial, bit by bit -----

  /** Feeds one message bit into the (reflected) remainder. */
  function FeedBit(crc: bv32, bit: bool): bv32 {
    if Low(crc) != bit then Xor(Half(crc), POLY) else Half(crc)
  }

  function FeedBits(crc: bv32, bits: seq<bool>): bv32
    decreases |bits|
  {
    if bits == [] then crc else FeedBits(FeedBit(crc, bits[0]), bits[1..])
  }

  /** The low `n` bits of `x`, least significant first. */
  function LowBits(x: bv32, n: nat): (bits: seq<bool>)
    ensures |bits| == n
    decreases n
  {
    if n == 0 then [] else [Low(x)] + LowBits(Half(x), n - 1)
  }

  function OctetAsBits(octet: bv8): (bits: seq<bool>)
    ensures |bits| == 8
  {
    LowBits(AsWord(octet), OctetBits())
  }

  /** The bits of a message, byte by byte, least significant bit first. */
  function MessageBits(buf: seq<bv8>): (bits: seq<bool>)
    ensures |bits| == 8 * |buf|
    decreases |buf|
  {
    if buf == [] then [] else OctetAsBits(buf[0]) + MessageBits(buf[1..])
  }

  /** The CRC of a message; `crc` is the CRC of what came before it, zero for nothing. */
  function Crc(crc: bv32, buf: seq<bv8>): bv32 {
    Not(FeedBits(Not(crc), MessageBits(buf)))
  }

  // ----- the step on the remainder alone -----

  function BitStep(x: bv32): bv32 {
    if Low(x) then Xor(Half(x), POLY) else Half(x)
  }

  function Steps(n: nat, x: bv32): bv32
    decreases n
  {
    if n == 0 then x else Steps(n - 1, BitStep(x))
  }

  function Halved(n: nat, x: bv32): bv32
    decreases n
  {
    if n == 0 then x else Halved(n - 1, Half(x))
  }

  /** A bit string as a word, first bit least significant; only its first 32 bits matter. */
  function Word(bits: seq<bool>): bv32
    decreases |bits|
  {
    if bits == [] then 0 else Prepend(bits[0], Word(bits[1..]))
  }

  // ----- facts about words -----

  lemma XorHalf(a: bv32, b: bv32)
    ensures Half(Xor(a, b)) == Xor(Half(a), Half(b))
  {
  }

  lemma XorBit(a: bv32, b: bv32)
    ensures (a ^ b) & 1 == (a & 1) ^ (b & 1)
    ensures a & 1 == 0 || a & 1 == 1
    ensures b & 1 == 0 || b & 1 == 1
  {
  }

  lemma XorLow(a: bv32, b: bv32)
    ensures Low(Xor(a, b)) == (Low(a) != Low(b))
  {
    XorBit(a, b);
  }

  lemma XorCommutes(a: bv32, b: bv32)
    ensures Xor(a, b) == Xor(b, a)
  {
  }

  lemma XorAssociates(a: bv32, b: bv32, c: bv32)
    ensures Xor(Xor(a, b), c) == Xor(a, Xor(b, c))
  {
    assert (a ^ b) ^ c == a ^ (b ^ c);
  }

  lemma XorUndoes(a: bv32, b: bv32)
    ensures Xor(Xor(a, b), b) == a
  {
  }

  lemma XorMoves(a: bv32, b: bv32, p: bv32)
    ensures Xor(Xor(a, p), Xor(b, p)) == Xor(a, b)
    ensures Xor(Xor(a, p), b) == Xor(Xor(a, b), p)
    ensures Xor(a, Xor(b, p)) == Xor(Xor(a, b), p)
  {
    hide Xor;
    XorAssociates(a, b, p);
    XorAssociates(a, p, b);
    XorCommutes(b, p);
    XorAssociates(Xor(a, p), b, p);
    XorUndoes(Xor(a, b), p);
  }

  lemma XorCancels(c: bv32, a: bv32, b: bv32)
    ensures Xor(c, a) == Xor(c, b) ==> a == b
    ensures Xor(a, c) == Xor(b, c) ==> a == b
  {
  }

  lemma XorZero(a: bv32)
    ensures Xor(a, 0) == a
  {
  }

  lemma NotTwice(a: bv32)
    ensures Not(Not(a)) == a
  {
  }

  lemma SplitLowByte(x: bv32)
    ensures x == Xor(HighBytes(x), LowByte(x))
    ensures LowByte(HighBytes(x)) == 0
    ensures Rest(HighBytes(x)) == Rest(x)
  {
  }

  lemma SplitLowBit(x: bv32)
    ensures x == Prepend(Low(x), Half(x))
  {
  }

  lemma PrependHead(bit: bool, a: bv32)
    ensures Low(Prepend(bit, a)) == bit
    ensures TopFree(a) ==> Half(Prepend(bit, a)) == a
  {
  }

  lemma OctetMixes(crc: bv32, octet: bv8)
    ensures Rest(Xor(crc, AsWord(octet))) == Rest(crc)
    ensures LowByte(Xor(crc, AsWord(octet))) == Xor(LowByte(crc), AsWord(octet))
  {
  }

  lemma OctetIsWord(x: bv8, y: bv8)
    ensures AsWord(x) == AsWord(y) ==> x == y
    ensures Rest(AsWord(x)) == 0
  {
  }

  // ----- the bit step is linear and one-to-one -----

  lemma BitStepLinear(a: bv32, b: bv32)
    ensures BitStep(Xor(a, b)) == Xor(BitStep(a), BitStep(b))
  {
    hide Xor, Low, Half;
    XorHalf(a, b);
    XorLow(a, b);
    XorMoves(Half(a), Half(b), POLY);
  }

  lemma {:induction false} StepsLinear(n: nat, a: bv32, b: bv32)
    ensures Steps(n, Xor(a, b)) == Xor(Steps(n, a), Steps(n, b))
    decreases n
  {
    hide Xor, BitStep;
    if n > 0 {
      BitStepLinear(a, b);
      StepsLinear(n - 1, BitStep(a), BitStep(b));
    }
  }

  /** The polynomial has its top bit set, so a step can be undone. */
  lemma BitStepInjective(a: bv32, b: bv32)
    ensures BitStep(a) == BitStep(b) ==> a == b
  {
  }

  lemma {:induction false} StepsInjective(n: nat, a: bv32, b: bv32)
    ensures Steps(n, a) == Steps(n, b) <==> a == b
    decreases n
  {
    hide BitStep;
    if n > 0 {
      BitStepInjective(a, b);
      StepsInjective(n - 1, BitStep(a), BitStep(b));
    }
  }

  // ----- eight steps are one table look-up -----

  ghost predicate LowZeros(n: nat, x: bv32)
    decreases n
  {
    n == 0 || (!Low(x) && LowZeros(n - 1, Half(x)))
  }

  /** While the low bit is zero a step only halves. */
  lemma {:induction false} StepsOverZeros(n: nat, x: bv32)
    requires LowZeros(n, x)
    ensures Steps(n, x) == Halved(n, x)
    decreases n
  {
    hide Xor, Low, Half;
    if n > 0 {
      StepsOverZeros(n - 1, Half(x));
    }
  }

  lemma {:induction false} HalvedSum(m: nat, n: nat, x: bv32)
    ensures Halved(m + n, x) == Halved(n, Halved(m, x))
    decreases m
  {
    hide Half;
    if m > 0 {
      HalvedSum(m - 1, n, Half(x));
    }
  }

  function Half8(x: bv32): bv32 {
    Half(Half(Half(Half(Half(Half(Half(Half(x))))))))
  }

  lemma {:induction false} HalvedEight(n: nat, x: bv32)
    requires n == 8
    ensures Halved(n, x) == Half8(x)
  {
    hide Half;
    var x4 := Half(Half(Half(Half(x))));
    assert Halved(n, x) == Halved(n - 1, Half(x)) == Halved(n - 2, Half(Half(x)));
    assert Halved(n - 2, Half(Half(x))) == Halved(n - 3, Half(Half(Half(x)))) == Halved(n - 4, x4);
    assert Halved(n - 4, x4) == Halved(n - 5, Half(x4)) == Halved(n - 6, Half(Half(x4)));
    assert Halved(n - 6, Half(Half(x4))) == Halved(n - 7, Half(Half(Half(x4)))) == Half8(x);
  }

  lemma Half8IsRest(x: bv32)
    ensures Half8(x) == Rest(x)
  {
  }

  lemma {:induction false} HalvedIsRest(n: nat, x: bv32)
    requires n == 8
    ensures Halved(n, x) == Rest(x)
  {
    hide Half8, Rest, Half;
    HalvedEight(n, x);
    Half8IsRest(x);
  }

  ghost predicate Zeros8(x: bv32) {
    var x4 := Half(Half(Half(Half(x))));
    !Low(x) && !Low(Half(x)) && !Low(Half(Half(x))) && !Low(Half(Half(Half(x))))
    && !Low(x4) && !Low(Half(x4)) && !Low(Half(Half(x4))) && !Low(Half(Half(Half(x4))))
  }

  lemma ByteZeros(x: bv32)
    requires LowByte(x) == 0
    ensures Zeros8(x)
  {
  }

  lemma {:induction false} LowByteZeros(n: nat, x: bv32)
    requires n == 8 && Zeros8(x)
    ensures LowZeros(n, x)
  {
    hide Low, Half;
    var x4 := Half(Half(Half(Half(x))));
    assert LowZeros(n - 7, Half(Half(Half(x4)))) && LowZeros(n - 6, Half(Half(x4)));
    assert LowZeros(n - 5, Half(x4)) && LowZeros(n - 4, x4);
    assert LowZeros(n - 3, Half(Half(Half(x)))) && LowZeros(n - 2, Half(Half(x))) && LowZeros(n - 1, Half(x));
  }

  /** The key to the table: eight steps are a shift by one byte and a look-up of the low byte. */
  lemma {:induction false} TableStep(x: bv32)
    ensures Steps(OctetBits(), x) == Xor(Rest(x), Steps(OctetBits(), LowByte(x)))
  {
    hide Xor, Rest, LowByte, HighBytes, Zeros8;
    SplitLowByte(x);
    StepsLinear(OctetBits(), HighBytes(x), LowByte(x));
    ByteZeros(HighBytes(x));
    LowByteZeros(OctetBits(), HighBytes(x));
    StepsOverZeros(OctetBits(), HighBytes(x));
    HalvedIsRest(OctetBits(), HighBytes(x));
  }

  // ----- feeding bits is stepping a word -----

  lemma {:induction false} HalvedZero(n: nat)
    ensures Halved(n, 0) == 0
    decreases n
  {
    if n > 0 {
      HalvedZero(n - 1);
    }
  }

  function Half7(x: bv32): bv32 {
    Half(Half(Half(Half(Half(Half(Half(x)))))))
  }

  lemma {:induction false} HalvedSeven(n: nat, x: bv32)
    requires n == 7
    ensures Halved(n, x) == Half7(x)
  {
    hide Half;
    var x3 := Half(Half(Half(x)));
    assert Halved(n, x) == Halved(n - 1, Half(x)) == Halved(n - 2, Half(Half(x))) == Halved(n - 3, x3);
    assert Halved(n - 3, x3) == Halved(n - 4, Half(x3)) == Halved(n - 5, Half(Half(x3)));
    assert Halved(n - 5, Half(Half(x3))) == Halved(n - 6, Half(Half(Half(x3)))) == Half7(x);
  }

  lemma TopAfter31(w: bv32)
    requires Half7(Rest(Rest(Rest(w)))) == 0
    ensures TopFree(w)
  {
  }

  /** A word that at most 31 halvings clear has its top bit free. */
  lemma {:induction false} TopClear(m: nat, w: bv32)
    requires m <= 31 && Halved(m, w) == 0
    ensures TopFree(w)
  {
    hide Half, Rest, Half7, TopFree;
    var n := OctetBits();
    HalvedSum(m, 31 - m, w);
    HalvedZero(31 - m);
    assert Halved(31, w) == 0;
    HalvedSum(n, 31 - n, w);
    HalvedIsRest(n, w);
    HalvedSum(n, 31 - n - n, Rest(w));
    HalvedIsRest(n, Rest(w));
    HalvedSum(n, 31 - n - n - n, Rest(Rest(w)));
    HalvedIsRest(n, Rest(Rest(w)));
    HalvedSeven(31 - n - n - n, Rest(Rest(Rest(w))));
    TopAfter31(w);
  }

  /** Up to 32 bits fit their word. */
  lemma {:induction false} WordFits(bits: seq<bool>)
    requires |bits| <= 32
    ensures Halved(|bits|, Word(bits)) == 0
    ensures bits != [] ==> TopFree(Word(bits[1..]))
    decreases |bits|
  {
    hide Half, Prepend, TopFree;
    if bits != [] {
      WordFits(bits[1..]);
      TopClear(|bits| - 1, Word(bits[1..]));
      PrependHead(bits[0], Word(bits[1..]));
    }
  }

  lemma {:induction false} WordInjective(a: seq<bool>, b: seq<bool>)
    requires |a| == |b| <= 32
    requires Word(a) == Word(b)
    ensures a == b
    decreases |a|
  {
    hide Half, Low, Prepend, TopFree;
    if a != [] {
      WordFits(a);
      WordFits(b);
      PrependHead(a[0], Word(a[1..]));
      PrependHead(b[0], Word(b[1..]));
      WordInjective(a[1..], b[1..]);
      assert a == [a[0]] + a[1..] && b == [b[0]] + b[1..];
    }
  }

  lemma FeedBitIsStep(crc: bv32, w: bv32)
    ensures BitStep(Xor(crc, w)) == Xor(FeedBit(crc, Low(w)), Half(w))
  {
    hide Xor, Half, Low;
    XorLow(crc, w);
    XorHalf(crc, w);
    XorMoves(Half(crc), Half(w), POLY);
  }

  /** Feeding up to 32 bits xors them into the remainder as one word and steps once for each of them. */
  lemma {:induction false} FeedBitsIsSteps(crc: bv32, bits: seq<bool>)
    requires |bits| <= 32
    ensures FeedBits(crc, bits) == Steps(|bits|, Xor(crc, Word(bits)))
    decreases |bits|
  {
    hide Xor, Half, Low, BitStep, FeedBit, Prepend, TopFree;
    if bits == [] {
      XorZero(crc);
    } else {
      WordFits(bits);
      PrependHead(bits[0], Word(bits[1..]));
      FeedBitIsStep(crc, Word(bits));
      FeedBitsIsSteps(FeedBit(crc, bits[0]), bits[1..]);
    }
  }

  /** A word short enough is its own low bits. */
  lemma {:induction false} WordOfLowBits(x: bv32, n: nat)
    requires Halved(n, x) == 0
    ensures Word(LowBits(x, n)) == x
    decreases n
  {
    hide Half, Low, Prepend;
    if n > 0 {
      WordOfLowBits(Half(x), n - 1);
      SplitLowBit(x);
      assert LowBits(x, n)[1..] == LowBits(Half(x), n - 1);
    }
  }

  lemma WordOfOctet(octet: bv8)
    ensures Word(OctetAsBits(octet)) == AsWord(octet)
  {
    hide AsWord, Rest;
    HalvedIsRest(OctetBits(), AsWord(octet));
    OctetIsWord(octet, octet);
    WordOfLowBits(AsWord(octet), OctetBits());
  }

  lemma OctetsApart(x: bv8, y: bv8)
    requires OctetAsBits(x) == OctetAsBits(y)
    ensures x == y
  {
    hide AsWord, Rest, OctetAsBits;
    WordOfOctet(x);
    WordOfOctet(y);
    OctetIsWord(x, y);
  }

  // ----- messages -----

  lemma {:induction false} FeedSum(crc: bv32, a: seq<bool>, b: seq<bool>)
    ensures FeedBits(crc, a + b) == FeedBits(FeedBits(crc, a), b)
    decreases |a|
  {
    hide FeedBit;
    if a == [] {
      assert a + b == b;
    } else {
      assert (a + b)[1..] == a[1..] + b;
      FeedSum(FeedBit(crc, a[0]), a[1..], b);
    }
  }

  lemma {:induction false} MessageSum(a: seq<bv8>, b: seq<bv8>)
    ensures MessageBits(a + b) == MessageBits(a) + MessageBits(b)
    decreases |a|
  {
    hide OctetAsBits;
    if a == [] {
      assert a + b == b;
    } else {
      assert (a + b)[1..] == a[1..] + b;
      MessageSum(a[1..], b);
    }
  }

  lemma {:induction false} MessageInjective(a: seq<bv8>, b: seq<bv8>)
    requires MessageBits(a) == MessageBits(b)
    ensures a == b
    decreases |a|
  {
    hide OctetAsBits;
    assert |a| == |b|;
    if a != [] {
      assert OctetAsBits(a[0]) == MessageBits(a)[..8] && OctetAsBits(b[0]) == MessageBits(b)[..8];
      assert MessageBits(a[1..]) == MessageBits(a)[8..] && MessageBits(b[1..]) == MessageBits(b)[8..];
      OctetsApart(a[0], b[0]);
      MessageInjective(a[1..], b[1..]);
      assert a == [a[0]] + a[1..] && b == [b[0]] + b[1..];
    }
  }

  /** Feeding a byte bit by bit is a shift by one byte and a look-up. */
  lemma {:induction false} FeedOctet(crc: bv32, octet: bv8)
    ensures FeedBits(crc, OctetAsBits(octet))
         == Xor(Rest(crc), Steps(OctetBits(), Xor(LowByte(crc), AsWord(octet))))
  {
    hide Xor, Rest, LowByte, AsWord, OctetAsBits;
    FeedBitsIsSteps(crc, OctetAsBits(octet));
    WordOfOctet(octet);
    TableStep(Xor(crc, AsWord(octet)));
    OctetMixes(crc, octet);
  }

  /** Checksums chain: a message may be fed in pieces. */
  lemma CrcChains(crc: bv32, a: seq<bv8>, b: seq<bv8>)
    ensures Crc(Crc(crc, a), b) == Crc(crc, a + b)
  {
    hide Not;
    MessageSum(a, b);
    FeedSum(Not(crc), MessageBits(a), MessageBits(b));
    NotTwice(FeedBits(Not(crc), MessageBits(a)));
  }

  lemma FeedBitInjective(c: bv32, d: bv32, bit: bool)
    ensures FeedBit(c, bit) == FeedBit(d, bit) ==> c == d
  {
  }

  lemma {:induction false} FeedInjective(c: bv32, d: bv32, bits: seq<bool>)
    ensures FeedBits(c, bits) == FeedBits(d, bits) <==> c == d
    decreases |bits|
  {
    hide FeedBit;
    if bits != [] {
      FeedBitInjective(c, d, bits[0]);
      FeedInjective(FeedBit(c, bits[0]), FeedBit(d, bits[0]), bits[1..]);
    }
  }

  /** From one remainder, different bit strings of up to 32 bits lead to different remainders. */
  lemma {:induction false} FeedApart(crc: bv32, x: seq<bool>, y: seq<bool>)
    requires |x| == |y| <= 32
    ensures FeedBits(crc, x) == FeedBits(crc, y) <==> x == y
  {
    hide Xor;
    FeedBitsIsSteps(crc, x);
    FeedBitsIsSteps(crc, y);
    StepsInjective(|x|, Xor(crc, Word(x)), Xor(crc, Word(y)));
    XorCancels(crc, Word(x), Word(y));
    if Word(x) == Word(y) {
      WordInjective(x, y);
    }
  }

  /** Bit strings alike outside a window of 32 bits leave different remainders. */
  lemma {:induction false} WindowDetected(crc: bv32, p: seq<bool>, x: seq<bool>, y: seq<bool>, s: seq<bool>)
    requires |x| == |y| <= 32
    ensures FeedBits(crc, p + x + s) == FeedBits(crc, p + y + s) <==> x == y
  {
    var c := FeedBits(crc, p);
    FeedSum(crc, p + x, s);
    FeedSum(crc, p, x);
    FeedSum(crc, p + y, s);
    FeedSum(crc, p, y);
    FeedInjective(FeedBits(c, x), FeedBits(c, y), s);
    FeedApart(c, x, y);
  }

  /** Every burst of up to 32 bits, wherever it starts, changes the checksum. */
  lemma {:induction false} BurstDetected(crc: bv32, a: seq<bv8>, b: seq<bv8>, from: nat, to: nat)
    requires |a| == |b| && from <= to <= from + 32 && to <= 8 * |a|
    requires MessageBits(a)[..from] == MessageBits(b)[..from]
    requires MessageBits(a)[to..] == MessageBits(b)[to..]
    ensures Crc(crc, a) == Crc(crc, b) <==> a == b
  {
    hide Not;
    var m, n := MessageBits(a), MessageBits(b);
    assert m == m[..from] + m[from..to] + m[to..];
    assert n == n[..from] + n[from..to] + n[to..];
    WindowDetected(Not(crc), m[..from], m[from..to], n[from..to], m[to..]);
    NotTwice(FeedBits(Not(crc), m));
    NotTwice(FeedBits(Not(crc), n));
    if m == n {
      MessageInjective(a, b);
    }
  }

  /** In bytes: two messages alike but for four neighbouring bytes have different checksums. */
  lemma FourBytesDetected(crc: bv32, p: seq<bv8>, x: seq<bv8>, y: seq<bv8>, s: seq<bv8>)
    requires |x| == |y| <= 4
    ensures Crc(crc, p + x + s) == Crc(crc, p + y + s) <==> x == y
  {
    hide Crc, MessageBits;
    var a, b := p + x + s, p + y + s;
    MessageSum(p + x, s);
    MessageSum(p, x);
    MessageSum(p + y, s);
    MessageSum(p, y);
    OuterParts(MessageBits(p), MessageBits(x), MessageBits(y), MessageBits(s));
    BurstDetected(crc, a, b, 8 * |p|, 8 * |p| + 8 * |x|);
    assert x == a[|p|..|p| + |x|] && y == b[|p|..|p| + |x|];
  }

  lemma OuterParts<T>(p: seq<T>, x: seq<T>, y: seq<T>, s: seq<T>)
    requires |x| == |y|
    ensures (p + x + s)[..|p|] == (p + y + s)[..|p|]
    ensures (p + x + s)[|p| + |x|..] == (p + y + s)[|p| + |x|..]
  {
    assert (p + x + s)[..|p|] == p == (p + y + s)[..|p|];
    assert (p + x + s)[|p| + |x|..] == s == (p + y + s)[|p| + |x|..];
  }
}

/** The table-driven checksum of hw2/src/crc32.c. */
module Crc32 {
  import opened CrcAlgebra

  ghost predicate EntryDone(table: seq<bv32>, i: int) {
    0 <= i < |table| <= 256 && table[i] == Steps(OctetBits(), i as bv32)
  }

  ghost predicate TableDone(table: seq<bv32>, n: int) {
    forall i {:trigger EntryDone(table, i)} :: 0 <= i < n ==> EntryDone(table, i)
  }

  lemma SmallIndex(index: bv32)
    requires index & 0xff == index
    ensures (index as int) < 256 && (index as int) as bv32 == index
  {
  }

  lemma IndexInTable(crc: bv32, octet: bv8)
    ensures (Xor(LowByte(crc), AsWord(octet)) as int) < 256
    ensures (Xor(LowByte(crc), AsWord(octet)) as int) as bv32 == Xor(LowByte(crc), AsWord(octet))
  {
    var index := Xor(LowByte(crc), AsWord(octet));
    assert index & 0xff == index;
    SmallIndex(index);
  }

  class Checksum {
    const table: array<bv32>
    var haveTable: bool

    ghost predicate Valid()
      reads this, table
    {
      table.Length == 256 && (haveTable ==> TableDone(table[..], 256))
    }

    constructor ()
      ensures Valid() && !haveTable && fresh(table)
    {
      table := new bv32[256](_ => 0);
      haveTable := false;
    }

    /** The remainder of one byte: eight bit steps. */
    method Remainder(i: int) returns (rem: bv32)
      requires 0 <= i < 256
      ensures rem == Steps(OctetBits(), i as bv32)
    {
      rem := i as bv32;
      var j := 0;
      while j < 8
        invariant 0 <= j <= 8
        invariant Steps(8 - j, rem) == Steps(OctetBits(), i as bv32)
      {
        ghost var was := rem;
        if rem & 1 == 1 {
          rem := rem >> 1;
          rem := rem ^ POLY;
        } else {
          rem := rem >> 1;
        }
        assert rem == BitStep(was);
        j := j + 1;
      }
    }

    method FillTable()
      requires Valid()
      modifies this, table
      ensures Valid() && haveTable
    {
      var i := 0;
      while i < 256
        invariant 0 <= i <= 256
        invariant TableDone(table[..], i)
      {
        ghost var was := table[..];
        var rem := Remainder(i);
        table[i] := rem;
        forall k | 0 <= k < i + 1
          ensures EntryDone(table[..], k)
        {
          if k < i {
            assert EntryDone(was, k);
          }
        }
        i := i + 1;
      }
      haveTable := true;
    }

    method LookUp(crc: bv32, octet: bv8) returns (next: bv32)
      requires Valid() && haveTable
      ensures next == FeedBits(crc, OctetAsBits(octet))
    {
      hide Xor, Rest, LowByte, AsWord, OctetAsBits;
      var index := Xor(LowByte(crc), AsWord(octet));
      IndexInTable(crc, octet);
      assert EntryDone(table[..], index as int);
      next := Xor(Rest(crc), table[index as int]);
      FeedOctet(crc, octet);
    }

    /** `rc_crc32`: on the first call and on every later one, the CRC of the message. */
    method RcCrc32(crc: bv32, buf: seq<bv8>) returns (r: bv32)
      requires Valid()
      modifies this, table
      ensures Valid() && haveTable
      ensures r == Crc(crc, buf)
    {
      if !haveTable {
        FillTable();
      }
      hide Not, OctetAsBits;
      var rem := Not(crc);
      var p := 0;
      while p < |buf|
        invariant 0 <= p <= |buf|
        invariant Valid() && haveTable
        invariant FeedBits(rem, MessageBits(buf[p..])) == FeedBits(Not(crc), MessageBits(buf))
      {
        ghost var was := rem;
        rem := LookUp(rem, buf[p]);
        assert buf[p..][1..] == buf[p + 1..];
        FeedSum(was, OctetAsBits(buf[p]), MessageBits(buf[p + 1..]));
        p := p + 1;
      }
      assert buf[p..] == [];
      r := Not(rem);
    }
  }
}
