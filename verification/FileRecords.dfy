/** The in-memory file list of hw2/src/finddup.c: its records, their order, and the byte compare. */
module FileRecords {

  /** The bytes of the file with a given (device, inode). */
  type Disk = (int, int) -> seq<int>

  datatype FileDesc = FileDesc(length: int, crc: int, device: int, inode: int, name: int,
                               hasCrc: bool, dup: bool, lnk: bool)

  /** The part of a record that no scan changes. */
  datatype FileId = FileId(length: int, device: int, inode: int, name: int)

  function Id(f: FileDesc): FileId {
    FileId(f.length, f.device, f.inode, f.name)
  }

  function Content(disk: Disk, f: FileDesc): seq<int> {
    disk(f.device, f.inode)
  }

  predicate SameInode(f: FileDesc, g: FileDesc) {
    f.device == g.device && f.inode == g.inode
  }

  /** The fields that scan2 compares before looking into the files. */
  predicate SameKey(f: FileDesc, g: FileDesc) {
    f.length == g.length && f.crc == g.crc
  }

  // ----- comp1 -----

  /** `comp1` without overflow: the first non-zero difference of length, crc, device and inode. */
  function Comp1(f: FileDesc, g: FileDesc): int {
    if f.length != g.length then f.length - g.length
    else if f.crc != g.crc then f.crc - g.crc
    else if f.device != g.device then f.device - g.device
    else f.inode - g.inode
  }

  predicate InOrder(s: seq<FileDesc>, i: int, j: int)
    requires 0 <= i < |s| && 0 <= j < |s|
  {
    Comp1(s[i], s[j]) <= 0
  }

  ghost predicate Sorted(s: seq<FileDesc>) {
    forall i, j {:trigger InOrder(s, i, j)} | 0 <= i < j < |s| :: InOrder(s, i, j)
  }

  /** The value of `x` stored in a 32-bit `int`. */
  function Int32(x: int): int {
    (x + 0x8000_0000) % 0x1_0000_0000 - 0x8000_0000
  }

  /** `comp1` as written: every difference is truncated to an `int`. */
  function LiteralComp1(f: FileDesc, g: FileDesc): int {
    var l, c, d := Int32(f.length - g.length), Int32(f.crc - g.crc), Int32(f.device - g.device);
    if l != 0 then l else if c != 0 then c else if d != 0 then d else Int32(f.inode - g.inode)
  }

  predicate FitsInt(x: int) {
    -0x8000_0000 <= x < 0x8000_0000
  }

  predicate Word(x: int) {
    0 <= x < 0x1_0000_0000
  }

  predicate Words(f: FileDesc) {
    Word(f.length) && Word(f.crc) && Word(f.device) && Word(f.inode)
  }

  /** The low word of the first difference that truncation does not turn into zero; zero if there is none. */
  function FirstLowWord(f: FileDesc, g: FileDesc): int {
    var l, c, d := LowWord(f.length - g.length), LowWord(f.crc - g.crc), LowWord(f.device - g.device);
    if l != 0 then l else if c != 0 then c else if d != 0 then d else LowWord(f.inode - g.inode)
  }

  function LowWord(x: int): (w: int)
    ensures 0 <= w < 0x1_0000_0000 && (x - w) % 0x1_0000_0000 == 0
  {
    x % 0x1_0000_0000
  }

  /** That low word is zero or has its top bit set exactly when the first record does not come after the second. */
  predicate SignKept(f: FileDesc, g: FileDesc) {
    var w := FirstLowWord(f, g);
    w == 0 || w >= 0x8000_0000 <==> Comp1(f, g) <= 0
  }

  lemma Int32Sign(x: int)
    ensures Int32(x) == if LowWord(x) < 0x8000_0000 then LowWord(x) else LowWord(x) - 0x1_0000_0000
  {
  }

  /** For fields of any width the truncated compare has the right sign exactly when the first low word keeps it. */
  lemma LiteralComp1Any(f: FileDesc, g: FileDesc)
    ensures (LiteralComp1(f, g) <= 0 <==> Comp1(f, g) <= 0) <==> SignKept(f, g)
  {
    hide Int32, LowWord, Comp1;
    Int32Sign(f.length - g.length);
    Int32Sign(f.crc - g.crc);
    Int32Sign(f.device - g.device);
    Int32Sign(f.inode - g.inode);
  }

  /** Whatever the width of the fields, a first difference that fits an `int` keeps its sign. */
  lemma LiteralComp1Fits(f: FileDesc, g: FileDesc)
    requires FitsInt(Comp1(f, g))
    ensures LiteralComp1(f, g) == Comp1(f, g)
  {
    Int32Fits(f.length - g.length);
    Int32Fits(f.crc - g.crc);
    Int32Fits(f.device - g.device);
    Int32Fits(f.inode - g.inode);
  }

  lemma Int32Fits(x: int)
    ensures FitsInt(x) ==> Int32(x) == x
  {
  }

  lemma LowWordOfSmall(x: int)
    requires -0x1_0000_0000 < x < 0x1_0000_0000
    ensures LowWord(x) == if x < 0 then x + 0x1_0000_0000 else x
  {
  }

  /** For fields of 32 bits it has the right sign exactly when the first difference fits an `int`. */
  lemma LiteralComp1Sign(f: FileDesc, g: FileDesc)
    requires Words(f) && Words(g)
    ensures (LiteralComp1(f, g) <= 0 <==> Comp1(f, g) <= 0) <==> FitsInt(Comp1(f, g))
  {
    hide LowWord, LiteralComp1;
    LiteralComp1Any(f, g);
    LowWordOfSmall(f.length - g.length);
    LowWordOfSmall(f.crc - g.crc);
    LowWordOfSmall(f.device - g.device);
    LowWordOfSmall(f.inode - g.inode);
  }

  /** Lengths about 3 GB apart, or inodes 2^31 apart, are put the wrong way round. */
  lemma LiteralComp1Fails(f: FileDesc, g: FileDesc)
    requires f.length - g.length == 3_000_000_000
          || (f.length == g.length && f.crc == g.crc && f.device == g.device && f.inode - g.inode == 0x8000_0000)
    ensures LiteralComp1(f, g) < 0 < Comp1(f, g)
  {
    assert Int32(3_000_000_000) == 3_000_000_000 - 0x1_0000_0000;
    assert Int32(0x8000_0000) == -0x8000_0000;
  }

  predicate LiteralInOrder(s: seq<FileDesc>, i: int, j: int)
    requires 0 <= i < |s| && 0 <= j < |s|
  {
    LiteralComp1(s[i], s[j]) <= 0
  }

  /** Ordered by the compare as written. */
  ghost predicate LiteralSorted(s: seq<FileDesc>) {
    forall i, j {:trigger LiteralInOrder(s, i, j)} | 0 <= i < j < |s| :: LiteralInOrder(s, i, j)
  }

  /** On any two different entries the compare as written has the right sign. */
  ghost predicate SignsKept(s: seq<FileDesc>) {
    forall i, j {:trigger SignKept(s[i], s[j])} | 0 <= i < |s| && 0 <= j < |s| && i != j :: SignKept(s[i], s[j])
  }

  /** Where no pair is truncated to the wrong sign, both compares order the same lists. */
  lemma LiteralOrder(s: seq<FileDesc>)
    requires SignsKept(s)
    ensures LiteralSorted(s) <==> Sorted(s)
  {
    forall i, j | 0 <= i < j < |s|
      ensures LiteralInOrder(s, i, j) <==> InOrder(s, i, j)
    {
      assert SignKept(s[i], s[j]);
      LiteralComp1Any(s[i], s[j]);
    }
  }

  predicate PairFits(f: FileDesc, g: FileDesc) {
    FitsInt(Comp1(f, g))
  }

  /** Where every first difference fits an `int`, both compares order the same lists. */
  lemma LiteralOrderFits(s: seq<FileDesc>)
    requires forall i, j {:trigger PairFits(s[i], s[j])} | 0 <= i < |s| && 0 <= j < |s| && i != j ::
               PairFits(s[i], s[j])
    ensures SignsKept(s) && (LiteralSorted(s) <==> Sorted(s))
  {
    forall i, j {:trigger SignKept(s[i], s[j])} | 0 <= i < |s| && 0 <= j < |s| && i != j
      ensures SignKept(s[i], s[j])
    {
      assert PairFits(s[i], s[j]);
      LiteralComp1Fits(s[i], s[j]);
      LiteralComp1Any(s[i], s[j]);
    }
    LiteralOrder(s);
  }

  /** CRCs on which the truncated compare runs in a circle, so that no order satisfies it. */
  lemma LiteralComp1Circle(f: FileDesc, g: FileDesc, h: FileDesc)
    requires f.length == g.length == h.length && f.crc == 0 && g.crc == 0x6000_0000 && h.crc == 0xC000_0000
    ensures LiteralComp1(f, g) < 0 && LiteralComp1(g, h) < 0 && LiteralComp1(h, f) < 0
  {
    assert Int32(-0x6000_0000) == -0x6000_0000;
    assert Int32(0xC000_0000) == -0x4000_0000;
  }

  // ----- fullcmp -----

  /** A byte read by `getc` and stored in a signed `char`; past the end, EOF. */
  function CharAt(file: seq<int>, i: nat): int {
    if i < |file| then (if file[i] < 128 then file[i] else file[i] - 256) else -1
  }

  /** The `int` that `getc` returns. */
  function GetC(file: seq<int>, i: nat): int {
    if i < |file| then file[i] else -1
  }

  predicate Bytes(file: seq<int>) {
    forall i | 0 <= i < |file| :: 0 <= file[i] < 256
  }

  /** Only bytes below 0x80. */
  predicate Text(file: seq<int>) {
    forall i | 0 <= i < |file| :: 0 <= file[i] < 128
  }

  /** The first byte from 0x80 on, from position `i`; the length of the file if there is none. */
  function FirstHigh(a: seq<int>, i: nat): (f: nat)
    requires i <= |a|
    ensures i <= f <= |a| && (f < |a| ==> a[f] >= 128) && forall k | i <= k < f :: a[k] < 128
    decreases |a| - i
  {
    if i == |a| || a[i] >= 128 then i else FirstHigh(a, i + 1)
  }

  /** Where the compare loop stops when started at position `i`: true if it stops on an end-of-file character. */
  predicate EndsOnEof(a: seq<int>, b: seq<int>, i: nat)
    decreases |a| - i
  {
    if CharAt(a, i) == -1 then true
    else if CharAt(a, i) != GetC(b, i) then false
    else EndsOnEof(a, b, i + 1)
  }

  /** `fullcmp`: 0 means equal. */
  method FullCmp(a: seq<int>, b: seq<int>) returns (r: int)
    requires Bytes(a)
    ensures r == if EndsOnEof(a, b, 0) then 0 else 1
  {
    var i := 0;
    var ch := CharAt(a, i);
    while ch != -1
      invariant 0 <= i <= |a| && ch == CharAt(a, i)
      invariant EndsOnEof(a, b, 0) == EndsOnEof(a, b, i)
      decreases |a| - i
    {
      if ch - GetC(b, i) != 0 { break; }
      i := i + 1;
      ch := CharAt(a, i);
    }
    r := if ch == -1 then 0 else 1;
  }

  lemma {:induction false} EndsOnEofText(a: seq<int>, b: seq<int>, i: nat)
    requires Text(a) && |a| == |b| && i <= |a|
    ensures EndsOnEof(a, b, i) <==> a[i..] == b[i..]
    decreases |a| - i
  {
    if i < |a| {
      EndsOnEofText(a, b, i + 1);
      assert a[i..] == [a[i]] + a[i + 1..] && b[i..] == [b[i]] + b[i + 1..];
    }
  }

  lemma {:induction false} EndsOnEofPrefix(a: seq<int>, b: seq<int>, f: nat, i: nat)
    requires i <= f < |a| == |b| && Text(a[..f]) && a[..f] == b[..f]
    ensures EndsOnEof(a, b, i) == EndsOnEof(a, b, f)
    decreases f - i
  {
    if i < f {
      assert a[..f][i] == a[i] && b[..f][i] == b[i];
      EndsOnEofPrefix(a, b, f, i + 1);
    }
  }

  /** `fullcmp` decides equality with every file of the same length exactly when its first file is plain text:
      a byte 0xff reads as end of file and other bytes from 0x80 never match themselves. */
  lemma {:induction false} FullCmpIsEquality(a: seq<int>)
    requires Bytes(a)
    ensures (forall b | |b| == |a| && Bytes(b) :: EndsOnEof(a, b, 0) <==> a == b) <==> Text(a)
  {
    if Text(a) {
      forall b | |b| == |a| && Bytes(b) ensures EndsOnEof(a, b, 0) <==> a == b {
        EndsOnEofText(a, b, 0);
        assert a[0..] == a && b[0..] == b;
      }
    } else {
      var f := FirstHigh(a, 0);
      if a[f] != 255 {
        EndsOnEofPrefix(a, a, f, 0);
        assert !EndsOnEof(a, a, 0);
      } else {
        var b := a[f := 0];
        assert a[..f] == b[..f];
        EndsOnEofPrefix(a, b, f, 0);
        assert EndsOnEof(a, b, 0) && b != a;
      }
    }
  }

  /**
   * Found alike are files of one length that agree up to the first byte from 0x80 on, if that byte is 0xff or there
   * is none. So a file is told from itself exactly when its first byte from 0x80 on is not 0xff.
   */
  lemma {:induction false} FullCmpReads(a: seq<int>, b: seq<int>)
    requires Bytes(a) && Bytes(b) && |a| == |b|
    ensures var f := FirstHigh(a, 0);
      EndsOnEof(a, b, 0) <==> (f == |a| || a[f] == 255) && a[..f] == b[..f]
  {
    var f := FirstHigh(a, 0);
    if f == |a| {
      EndsOnEofText(a, b, 0);
      assert a[0..] == a && b[0..] == b && a[..f] == a && b[..f] == b;
    } else if a[..f] == b[..f] {
      EndsOnEofPrefix(a, b, f, 0);
    } else {
      StopsAtDifference(a, b, f, 0);
    }
  }

  lemma {:induction false} StopsAtDifference(a: seq<int>, b: seq<int>, f: nat, i: nat)
    requires i <= f <= |a| == |b| && Text(a[..f]) && a[..i] == b[..i] && a[..f] != b[..f]
    ensures !EndsOnEof(a, b, i)
    decreases f - i
  {
    assert i < f;
    assert a[..f][i] == a[i];
    if a[i] == b[i] {
      assert a[..i + 1] == a[..i] + [a[i]] && b[..i + 1] == b[..i] + [b[i]];
      StopsAtDifference(a, b, f, i + 1);
    }
  }
}
