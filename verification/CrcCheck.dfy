/** The checksum pinned down: its polynomial by the exponents, and the check value of the usual test message. */
module CrcCheck {
  import opened CrcAlgebra

  /** The word for `x` to the power 0, 1, and so on is read from the top bit down. */
  function Term(exponent: nat): bv32
    requires exponent < 32
  {
    1 << (31 - exponent)
  }

  /** x^32 + x^26 + x^23 + x^22 + x^16 + x^12 + x^11 + x^10 + x^8 + x^7 + x^5 + x^4 + x^2 + x + 1, but for x^32. */
  lemma PolynomialOfRfc()
    ensures POLY == Term(26) | Term(23) | Term(22) | Term(16) | Term(12) | Term(11) | Term(10)
                    | Term(8) | Term(7) | Term(5) | Term(4) | Term(2) | Term(1) | Term(0)
  {
  }

  function Eight(x: bv32): bv32 {
    BitStep(BitStep(BitStep(BitStep(BitStep(BitStep(BitStep(BitStep(x))))))))
  }

  lemma {:induction false} StepsAreEight(n: nat, x: bv32)
    requires n == 8
    ensures Steps(n, x) == Eight(x)
  {
    hide BitStep;
    var x4 := BitStep(BitStep(BitStep(BitStep(x))));
    assert Steps(n, x) == Steps(n - 1, BitStep(x)) == Steps(n - 2, BitStep(BitStep(x)));
    assert Steps(n - 2, BitStep(BitStep(x))) == Steps(n - 3, BitStep(BitStep(BitStep(x)))) == Steps(n - 4, x4);
    assert Steps(n - 4, x4) == Steps(n - 5, BitStep(x4)) == Steps(n - 6, BitStep(BitStep(x4)));
    var x6 := BitStep(BitStep(x4));
    assert Steps(n - 6, x6) == Steps(n - 7, BitStep(x6)) == Steps(n - 8, BitStep(BitStep(x6)));
  }

  lemma {:induction false} OctetFed(crc: bv32, octet: bv8)
    ensures FeedBits(crc, OctetAsBits(octet)) == Eight(Xor(crc, AsWord(octet)))
  {
    hide Xor, AsWord, OctetAsBits, Eight;
    FeedBitsIsSteps(crc, OctetAsBits(octet));
    WordOfOctet(octet);
    StepsAreEight(OctetBits(), Xor(crc, AsWord(octet)));
  }

  /** Feeding a message whose first byte takes the remainder to `next`. */
  lemma {:induction false} Fed(crc: bv32, octet: bv8, rest: seq<bv8>, next: bv32)
    requires Eight(Xor(crc, AsWord(octet))) == next
    ensures FeedBits(crc, MessageBits([octet] + rest)) == FeedBits(next, MessageBits(rest))
  {
    hide Xor, AsWord, OctetAsBits, Eight;
    OctetFed(crc, octet);
    assert ([octet] + rest)[0] == octet && ([octet] + rest)[1..] == rest;
    FeedSum(crc, OctetAsBits(octet), MessageBits(rest));
  }

  lemma Octet1()
    ensures Eight(Xor(0xffff_ffff, AsWord(0x31))) == 0x7c23_1048
  {
  }

  lemma Octet2()
    ensures Eight(Xor(0x7c23_1048, AsWord(0x32))) == 0xb0ac_bb32
  {
  }

  lemma Octet3()
    ensures Eight(Xor(0xb0ac_bb32, AsWord(0x33))) == 0x77b7_9c2d
  {
  }

  lemma Octet4()
    ensures Eight(Xor(0x77b7_9c2d, AsWord(0x34))) == 0x641c_1f5c
  {
  }

  lemma Octet5()
    ensures Eight(Xor(0x641c_1f5c, AsWord(0x35))) == 0x340a_c5e3
  {
  }

  lemma Octet6()
    ensures Eight(Xor(0x340a_c5e3, AsWord(0x36))) == 0xf68d_2c9e
  {
  }

  lemma Octet7()
    ensures Eight(Xor(0xf68d_2c9e, AsWord(0x37))) == 0xaffc_9660
  {
  }

  lemma Octet8()
    ensures Eight(Xor(0xaffc_9660, AsWord(0x38))) == 0x651f_2550
  {
  }

  lemma Octet9()
    ensures Eight(Xor(0x651f_2550, AsWord(0x39))) == 0x340b_c6d9
  {
  }

  lemma {:induction false} NoMessage(crc: bv32)
    ensures FeedBits(crc, MessageBits([])) == crc
  {
  }

  /** The CRC of the characters "123456789" is 0xcbf43926. */
  lemma CheckValue()
    ensures Crc(0, [0x31, 0x32, 0x33, 0x34, 0x35, 0x36, 0x37, 0x38, 0x39]) == 0xcbf4_3926
  {
    hide MessageBits, FeedBits, Eight, Xor, AsWord;
    Octet1();
    var r1: seq<bv8> := [0x32, 0x33, 0x34, 0x35, 0x36, 0x37, 0x38, 0x39];
    assert [0x31] + r1 == [0x31, 0x32, 0x33, 0x34, 0x35, 0x36, 0x37, 0x38, 0x39];
    Fed(0xffff_ffff, 0x31, r1, 0x7c23_1048);
    Octet2();
    var r2: seq<bv8> := [0x33, 0x34, 0x35, 0x36, 0x37, 0x38, 0x39];
    assert [0x32] + r2 == r1;
    Fed(0x7c23_1048, 0x32, r2, 0xb0ac_bb32);
    Octet3();
    var r3: seq<bv8> := [0x34, 0x35, 0x36, 0x37, 0x38, 0x39];
    assert [0x33] + r3 == r2;
    Fed(0xb0ac_bb32, 0x33, r3, 0x77b7_9c2d);
    Octet4();
    var r4: seq<bv8> := [0x35, 0x36, 0x37, 0x38, 0x39];
    assert [0x34] + r4 == r3;
    Fed(0x77b7_9c2d, 0x34, r4, 0x641c_1f5c);
    Octet5();
    var r5: seq<bv8> := [0x36, 0x37, 0x38, 0x39];
    assert [0x35] + r5 == r4;
    Fed(0x641c_1f5c, 0x35, r5, 0x340a_c5e3);
    Octet6();
    var r6: seq<bv8> := [0x37, 0x38, 0x39];
    assert [0x36] + r6 == r5;
    Fed(0x340a_c5e3, 0x36, r6, 0xf68d_2c9e);
    Octet7();
    var r7: seq<bv8> := [0x38, 0x39];
    assert [0x37] + r7 == r6;
    Fed(0xf68d_2c9e, 0x37, r7, 0xaffc_9660);
    Octet8();
    var r8: seq<bv8> := [0x39];
    assert [0x38] + r8 == r7;
    Fed(0xaffc_9660, 0x38, r8, 0x651f_2550);
    Octet9();
    var r9: seq<bv8> := [];
    assert [0x39] + r9 == r8;
    Fed(0x651f_2550, 0x39, r9, 0x340b_c6d9);
    NoMessage(0x340b_c6d9);
  }
}
