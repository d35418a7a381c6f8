/**
 * The duplicate scan of finddup with the byte compare as it is: which files it takes for one another, and exactly
 * when it goes wrong.
 */
module DupExact {
  import opened FileRecords
  import opened DupScan
  import opened Permutations

  // ----- which files the program can take for one another -----

  /** `fullcmp` finds nothing to tell the second file from the first. */
  predicate Alike(disk: Disk, f: FileDesc, g: FileDesc) {
    EndsOnEof(Content(disk, f), Content(disk, g), 0)
  }

  /** A copy of the disk on which a file that `fullcmp` tells from itself differs from every other. */
  function Marks(disk: Disk): Disk {
    (device, inode) =>
      var c := disk(device, inode);
      if EndsOnEof(c, c, 0) then [0] + c else [1, device, inode] + c
  }

  /** Two files have one mark if they have one content, and are one file or found alike. */
  lemma MarksAgree(disk: Disk, f: FileDesc, g: FileDesc)
    ensures Content(Marks(disk), f) == Content(Marks(disk), g)
       <==> Content(disk, f) == Content(disk, g) && (SameInode(f, g) || Alike(disk, f, f))
  {
    hide EndsOnEof;
    var c, d := Content(disk, f), Content(disk, g);
    assert ([0] + c)[1..] == c && ([0] + d)[1..] == d;
    assert ([1, f.device, f.inode] + c)[3..] == c && ([1, g.device, g.inode] + d)[3..] == d;
    assert ([0] + c)[0] == 0 && ([0] + d)[0] == 0;
    assert ([1, f.device, f.inode] + c)[..3] == [1, f.device, f.inode];
    assert ([1, g.device, g.inode] + d)[..3] == [1, g.device, g.inode];
  }

  lemma MarksKeyed(disk: Disk, s: Files)
    requires Keyed(disk, s)
    ensures Keyed(Marks(disk), s)
  {
    hide Marks;
    forall i, j | 0 <= i < |s| && 0 <= j < |s|
      ensures KeyRight(Marks(disk), s, i, j)
    {
      assert KeyRight(disk, s, i, j);
      MarksAgree(disk, s[i], s[j]);
    }
  }

  // ----- the order of inodes, and who comes first -----

  predicate IdLe(f: FileDesc, g: FileDesc) {
    f.device < g.device || (f.device == g.device && f.inode <= g.inode)
  }

  predicate InodeOrder(s: Files, i: int, j: int)
    requires 0 <= i < |s| && 0 <= j < |s|
  {
    SameKey(s[i], s[j]) ==> IdLe(s[i], s[j])
  }

  ghost predicate InodesFrom(s: Files, from: int) {
    forall i, j {:trigger InodeOrder(s, i, j)} | 0 <= from <= i < j < |s| :: InodeOrder(s, i, j)
  }

  /** An entry of the group of `i` among the first `p` comes before `j` by inode. */
  ghost predicate Led(marks: Disk, s: Files, p: int, i: int, j: int)
    requires 0 <= i < |s| && 0 <= j < |s|
  {
    exists k :: 0 <= k < p && k < |s| && SameContent(marks, s, k, i) && IdLe(s[k], s[j])
  }

  /** The group of `i` comes before entry `j`, which was compared with it and not found alike. */
  ghost predicate Passed(disk: Disk, s: Files, p: int, i: int, j: int)
    requires 0 <= i < |s| && 0 <= j < |s|
  {
    SameKey(s[i], s[j]) && !SameContent(Marks(disk), s, i, j)
    ==> !Alike(disk, s[i], s[j]) && Led(Marks(disk), s, p, i, j)
  }

  ghost predicate Sifted(disk: Disk, s: Files, p: int) {
    forall i, j {:trigger Passed(disk, s, p, i, j)} | 0 <= i < p && i < j < |s| :: Passed(disk, s, p, i, j)
  }

  /** Entry `i` heads a group and stands before entry `j`: it also does by key and inode. */
  ghost predicate HeadBefore(s: Files, i: int, j: int)
    requires 0 <= i < |s| && 0 <= j < |s|
  {
    !s[i].dup ==> KeyLe(s, i, j) && InodeOrder(s, i, j)
  }

  ghost predicate HeadsFirst(s: Files, p: int) {
    forall i, j {:trigger HeadBefore(s, i, j)} | 0 <= i < p && i < j < |s| :: HeadBefore(s, i, j)
  }

  // ----- the scan while it makes no mistake -----

  ghost predicate Round(disk: Disk, s: Files, p: int, ix: int) {
    && Outer(Marks(disk), s, p, ix) && KeySorted(s, ix)
    && Sifted(disk, s, p) && HeadsFirst(s, p) && InodesFrom(s, p) && LinksFlagged(s)
  }

  /** Head `ix` is no later by inode than what is not in its group, and was told from what the loop has passed. */
  ghost predicate HeadApart(disk: Disk, s: Files, p: int, ix: int, m: int, ix2: int) {
    && 0 <= ix < m <= ix2 <= |s|
    && (p == ix ==> forall j {:trigger InodeOrder(s, ix, j)} | ix < j < |s| :: InodeOrder(s, ix, j))
    && (forall j {:trigger Alike(disk, s[ix], s[j])} | m <= j < ix2 :: !Alike(disk, s[ix], s[j]))
  }

  ghost predicate Turn(disk: Disk, s: Files, p: int, ix: int, m: int, ix2: int, lastix: int, lnkmatch: bool,
          prev: FileDesc) {
    && Inner(Marks(disk), s, p, ix, m, ix2, lastix, lnkmatch, prev)
    && Sifted(disk, s, p) && HeadsFirst(s, p) && InodesFrom(s, m)
    && HeadApart(disk, s, p, ix, m, ix2) && LinksFlagged(s)
  }

  lemma EnterTurn(disk: Disk, s: Files, p: int, ix: int)
    requires Round(disk, s, p, ix) && ix < |s|
    ensures Turn(disk, s, p, ix, ix + 1, ix + 1, ix + 1, true, s[ix])
  {
    hide Marks, Sifted, LinksFlagged, Inner, InodeOrder;
    EnterInner(Marks(disk), s, p, ix);
  }

  lemma RotatedSifted(disk: Disk, s: Files, p: int, a: int, b: int)
    requires 0 <= p <= a <= b < |s| && Sifted(disk, s, p)
    ensures Sifted(disk, Rotated(s, a, b), p)
  {
    hide Marks, Rotated, EndsOnEof;
    var t := Rotated(s, a, b);
    RotatedAt(s, a, b, a);
    forall i, j | 0 <= i < p && i < j < |t|
      ensures Passed(disk, t, p, i, j)
    {
      RotatedAt(s, a, b, i);
      RotatedAt(s, a, b, j);
      assert Passed(disk, s, p, i, Before(a, b, j));
      if Led(Marks(disk), s, p, i, Before(a, b, j)) {
        RotatedLed(Marks(disk), s, p, a, b, i, j);
      }
    }
  }

  lemma RotatedHeads(s: Files, p: int, a: int, b: int)
    requires 0 <= p <= a <= b < |s| && HeadsFirst(s, p)
    ensures HeadsFirst(Rotated(s, a, b), p)
  {
    hide Rotated;
    var t := Rotated(s, a, b);
    RotatedAt(s, a, b, a);
    forall i, j | 0 <= i < p && i < j < |t|
      ensures HeadBefore(t, i, j)
    {
      RotatedAt(s, a, b, i);
      RotatedAt(s, a, b, j);
      assert HeadBefore(s, i, Before(a, b, j));
    }
  }

  lemma RotatedLed(marks: Disk, s: Files, p: int, a: int, b: int, i: int, j: int)
    requires 0 <= i < p <= a <= b < |s| && 0 <= j < |s| && 0 <= Before(a, b, j) < |s|
    requires Led(marks, s, p, i, Before(a, b, j))
    ensures |Rotated(s, a, b)| == |s| && Led(marks, Rotated(s, a, b), p, i, j)
  {
    hide Rotated;
    var t := Rotated(s, a, b);
    RotatedAt(s, a, b, i);
    RotatedAt(s, a, b, j);
    var k :| 0 <= k < p && k < |s| && SameContent(marks, s, k, i) && IdLe(s[k], s[Before(a, b, j)]);
    RotatedAt(s, a, b, k);
    assert SameContent(marks, t, k, i) && IdLe(t[k], t[j]);
  }

  lemma RotatedInodes(s: Files, m: int, a: int, b: int)
    requires 0 <= a <= m <= b < |s| && m - 1 <= a && InodesFrom(s, m)
    ensures InodesFrom(Rotated(s, a, b), m + 1)
  {
    hide Rotated;
    var t := Rotated(s, a, b);
    RotatedAt(s, a, b, a);
    forall i, j | m + 1 <= i < j < |t|
      ensures InodeOrder(t, i, j)
    {
      RotatedAt(s, a, b, i);
      RotatedAt(s, a, b, j);
      assert InodeOrder(s, Before(a, b, i), Before(a, b, j));
    }
  }

  lemma RotatedApart(disk: Disk, s: Files, p: int, ix: int, m: int, a: int, b: int)
    requires HeadApart(disk, s, p, ix, m, b) && ix < a <= m && m - 1 <= a && b < |s|
    ensures HeadApart(disk, Rotated(s, a, b), p, ix, m + 1, b + 1)
  {
    hide Rotated, EndsOnEof;
    var t := Rotated(s, a, b);
    RotatedAt(s, a, b, ix);
    forall j | ix < j < |t| && p == ix
      ensures InodeOrder(t, ix, j)
    {
      RotatedAt(s, a, b, j);
      assert InodeOrder(s, ix, Before(a, b, j));
    }
    forall j | m + 1 <= j < b + 1
      ensures !Alike(disk, t[ix], t[j])
    {
      RotatedAt(s, a, b, j);
      assert !Alike(disk, s[ix], s[Before(a, b, j)]);
    }
  }

  lemma RotatedLinks(s: Files, a: int, b: int)
    requires 0 <= a <= b < |s| && LinksFlagged(s)
    ensures LinksFlagged(Rotated(s, a, b))
  {
    hide LinksFlagged, Rotated, Unflagged;
    RotatedUnflagged(s, a, b);
    PermutedFlagged(s, Rotated(s, a, b));
  }

  lemma MatchTurn(disk: Disk, s: Files, p: int, ix: int, m: int, ix2: int, lastix: int, lnkmatch: bool, prev: FileDesc)
    requires Turn(disk, s, p, ix, m, ix2, lastix, lnkmatch, prev) && ix2 < |s|
    requires SameKey(s[ix], s[ix2]) && SameContent(Marks(disk), s, ix, ix2)
    ensures Turn(disk, Rotated(s, lastix, ix2), p, ix, m + 1, ix2 + 1,
                 if lastix == ix2 then lastix else lastix + 1, true, s[ix2])
  {
    hide Marks, Sifted, HeadsFirst, LinksFlagged, InodesFrom, HeadApart, Rotated, Settled, Keyed, KeySorted, Part;
    MatchStep(Marks(disk), s, p, ix, m, ix2, lastix, lnkmatch, prev);
    RotatedSifted(disk, s, p, lastix, ix2);
    RotatedHeads(s, p, lastix, ix2);
    RotatedInodes(s, m, lastix, ix2);
    RotatedApart(disk, s, p, ix, m, lastix, ix2);
    RotatedLinks(s, lastix, ix2);
  }

  lemma MissTurn(disk: Disk, s: Files, p: int, ix: int, m: int, ix2: int, lastix: int, lnkmatch: bool, prev: FileDesc)
    requires Turn(disk, s, p, ix, m, ix2, lastix, lnkmatch, prev) && ix2 < |s|
    requires SameKey(s[ix], s[ix2]) && !SameContent(Marks(disk), s, ix, ix2) && !Alike(disk, s[ix], s[ix2])
    ensures Turn(disk, s, p, ix, m, ix2 + 1, lastix, false, s[ix2])
  {
    hide Marks, Sifted, HeadsFirst, LinksFlagged, InodesFrom, Inner, Alike;
    MissStep(Marks(disk), s, p, ix, m, ix2, lastix, lnkmatch, prev);
  }

  /** The end of the inner loop. */
  lemma ExitTurn(disk: Disk, s: Files, p: int, ix: int, m: int, ix2: int, lastix: int, lnkmatch: bool, prev: FileDesc)
    requires Turn(disk, s, p, ix, m, ix2, lastix, lnkmatch, prev)
    requires ix2 < |s| ==> !SameKey(s[ix], s[ix2])
    ensures Round(disk, s, m, lastix)
  {
    hide Marks, LinksFlagged, Passed, InodeOrder, Settled, Keyed, Part;
    ExitInner(Marks(disk), s, p, ix, m, ix2, lastix, lnkmatch, prev);
    forall i, j | 0 <= i < m && i < j < |s|
      ensures Passed(disk, s, m, i, j)
    {
      ExitPassed(disk, s, p, ix, m, ix2, lastix, lnkmatch, prev, i, j);
    }
    forall i, j | 0 <= i < m && i < j < |s|
      ensures HeadBefore(s, i, j)
    {
      ExitHead(disk, s, p, ix, m, ix2, lastix, lnkmatch, prev, i, j);
    }
  }

  lemma ExitHead(disk: Disk, s: Files, p: int, ix: int, m: int, ix2: int, lastix: int, lnkmatch: bool, prev: FileDesc,
          i: int, j: int)
    requires Turn(disk, s, p, ix, m, ix2, lastix, lnkmatch, prev) && 0 <= i < m && i < j < |s|
    ensures HeadBefore(s, i, j)
  {
    hide Marks, LinksFlagged, Settled, Keyed, Sifted, Alike;
    if i < p {
      assert HeadBefore(s, i, j);
    } else if ix < i {
      assert Part(Marks(disk), s, p, ix, m, ix2, prev, i);
    } else {
      assert KeyLe(s, ix, j) && InodeOrder(s, ix, j);
    }
  }

  lemma LedLater(marks: Disk, s: Files, p: int, q: int, i: int, j: int)
    requires 0 <= i < |s| && 0 <= j < |s| && p <= q && Led(marks, s, p, i, j)
    ensures Led(marks, s, q, i, j)
  {
  }

  lemma ExitPassed(disk: Disk, s: Files, p: int, ix: int, m: int, ix2: int, lastix: int, lnkmatch: bool, prev: FileDesc,
          i: int, j: int)
    requires Turn(disk, s, p, ix, m, ix2, lastix, lnkmatch, prev) && 0 <= i < m && i < j < |s|
    requires ix2 < |s| ==> !SameKey(s[ix], s[ix2])
    ensures Passed(disk, s, m, i, j)
  {
    hide Marks, LinksFlagged, Settled, Keyed, EndsOnEof, Led;
    var marks := Marks(disk);
    if i < p {
      assert Passed(disk, s, p, i, j);
      if Led(marks, s, p, i, j) {
        LedLater(marks, s, p, m, i, j);
      }
    }
    if p <= i && SameKey(s[i], s[j]) && !SameContent(marks, s, i, j) {
      assert ix < i ==> Part(marks, s, p, ix, m, ix2, prev, i);
      assert Part(marks, s, p, ix, m, ix2, prev, j);
      assert ix2 <= j ==> KeyLe(s, ix, ix2) && (ix2 < j ==> KeyLe(s, ix2, j));
      assert m <= j < ix2;
      assert !Alike(disk, s[ix], s[j]);
      MarksAgree(disk, s[ix], s[i]);
      ExitLed(disk, s, p, ix, m, i, j);
    }
  }

  lemma ExitLed(disk: Disk, s: Files, p: int, ix: int, m: int, i: int, j: int)
    requires Sifted(disk, s, p) && 0 <= ix <= p <= ix + 1 <= m <= j < |s| && 0 <= i < m
    requires p == ix ==> InodeOrder(s, ix, j)
    requires SameKey(s[ix], s[j]) && SameContent(Marks(disk), s, ix, i) && !SameContent(Marks(disk), s, i, j)
    ensures Led(Marks(disk), s, m, i, j)
  {
    hide Marks, EndsOnEof;
    if p == ix {
      assert SameContent(Marks(disk), s, ix, i) && IdLe(s[ix], s[j]);
    } else {
      assert Passed(disk, s, p, ix, j);
      var k :| 0 <= k < p && k < |s| && SameContent(Marks(disk), s, k, ix) && IdLe(s[k], s[j]);
      assert SameContent(Marks(disk), s, k, i);
    }
  }

  /** Entries of one mark are found to match: by the compare, or as links without it. */
  lemma MarksMatch(disk: Disk, s: Files, p: int, ix: int, m: int, ix2: int, lastix: int, lnkmatch: bool, prev: FileDesc)
    requires Turn(disk, s, p, ix, m, ix2, lastix, lnkmatch, prev) && ix2 < |s|
    requires SameContent(Marks(disk), s, ix, ix2)
    ensures (s[ix2].lnk && lnkmatch) || Alike(disk, s[ix], s[ix2])
  {
    hide Marks, Keyed, EndsOnEof, HasFirst;
    MarksAgree(disk, s[ix], s[ix2]);
    if SameInode(s[ix], s[ix2]) {
      assert p == ix;
      assert FirstsApart(s, ix, ix2);
      assert Part(Marks(disk), s, p, ix, m, ix2, prev, ix2);
    }
  }

  // ----- the mistake -----

  /** Entry `i` comes first by inode of those it can be taken for. */
  ghost predicate Lead(marks: Disk, s: Files, i: int)
    requires 0 <= i < |s|
  {
    forall k {:trigger SameContent(marks, s, k, i)} | 0 <= k < |s| && SameContent(marks, s, k, i) :: IdLe(s[i], s[k])
  }

  /** The first of one group is taken for the first of a later one, though their contents differ. */
  ghost predicate Misleads(disk: Disk, s: Files, i: int, j: int) {
    && 0 <= i < |s| && 0 <= j < |s| && Lead(Marks(disk), s, i) && Lead(Marks(disk), s, j)
    && SameKey(s[i], s[j]) && IdLe(s[i], s[j]) && Content(disk, s[i]) != Content(disk, s[j])
    && Alike(disk, s[i], s[j])
  }

  ghost predicate Misled(disk: Disk, s: Files) {
    exists i, j :: Misleads(disk, s, i, j)
  }

  lemma IdLeTransitive(f: FileDesc, g: FileDesc, h: FileDesc)
    ensures IdLe(f, g) && IdLe(g, h) ==> IdLe(f, h)
    ensures IdLe(f, g) || IdLe(g, f)
    ensures IdLe(f, g) && IdLe(g, f) ==> SameInode(f, g)
  {
  }

  lemma LeadOf(marks: Disk, s: Files, i: int, n: int) returns (h: int)
    requires 0 <= i < |s| && 0 <= n <= |s|
    ensures 0 <= h < |s| && SameContent(marks, s, h, i) && IdLe(s[h], s[i])
    ensures forall k {:trigger s[k]} | 0 <= k < n && SameContent(marks, s, k, i) :: IdLe(s[h], s[k])
    decreases n
  {
    if n == 0 {
      h := i;
    } else {
      h := LeadOf(marks, s, i, n - 1);
      if SameContent(marks, s, n - 1, i) && !IdLe(s[h], s[n - 1]) {
        h := n - 1;
      }
    }
  }

  lemma LeadExists(marks: Disk, s: Files, i: int) returns (h: int)
    requires 0 <= i < |s|
    ensures 0 <= h < |s| && Lead(marks, s, h) && SameContent(marks, s, h, i) && IdLe(s[h], s[i])
  {
    h := LeadOf(marks, s, i, |s|);
    forall k | 0 <= k < |s| && SameContent(marks, s, k, h)
      ensures IdLe(s[h], s[k])
    {
      assert SameContent(marks, s, k, i);
    }
  }

  /** During the scan the group of the head is led by an entry before whatever is not yet in a group. */
  lemma HeadIsLed(disk: Disk, s: Files, p: int, ix: int, m: int, ix2: int, lastix: int, lnkmatch: bool, prev: FileDesc,
          j: int) returns (k: int)
    requires Turn(disk, s, p, ix, m, ix2, lastix, lnkmatch, prev) && m <= j < |s| && SameKey(s[ix], s[j])
    requires !SameContent(Marks(disk), s, ix, j)
    ensures 0 <= k < |s| && SameContent(Marks(disk), s, k, ix) && IdLe(s[k], s[j])
  {
    hide Marks, Settled, Keyed, KeySorted, EndsOnEof, LinksFlagged;
    if p == ix {
      assert InodeOrder(s, ix, j);
      k := ix;
    } else {
      assert Passed(disk, s, p, ix, j);
      k :| 0 <= k < p && k < |s| && SameContent(Marks(disk), s, k, ix) && IdLe(s[k], s[j]);
    }
  }

  /** An entry of another mark stands behind the group of the head, and so do all of its mark. */
  lemma OthersBehind(marks: Disk, s: Files, p: int, ix: int, m: int, ix2: int, lastix: int, lnkmatch: bool,
          prev: FileDesc, j: int)
    requires Inner(marks, s, p, ix, m, ix2, lastix, lnkmatch, prev) && 0 <= j < |s| && ix2 < |s|
    requires SameContent(marks, s, j, ix2) && !SameContent(marks, s, ix, ix2)
    ensures m <= j
  {
    hide KeySorted, Keyed, Part;
    if ix < j < m {
      GroupContent(marks, s, p, ix, m, ix2, lastix, lnkmatch, prev, j);
    }
  }

  lemma GroupContent(marks: Disk, s: Files, p: int, ix: int, m: int, ix2: int, lastix: int, lnkmatch: bool,
          prev: FileDesc, j: int)
    requires Inner(marks, s, p, ix, m, ix2, lastix, lnkmatch, prev) && ix < j < m
    ensures SameContent(marks, s, ix, j)
  {
    hide KeySorted, Keyed, Settled;
    assert Part(marks, s, p, ix, m, ix2, prev, j);
  }

  /** Whenever the scan is about to go wrong, the list is a misleading one. */
  lemma MistakeIsMisled(disk: Disk, s: Files, p: int, ix: int, m: int, ix2: int, lastix: int, lnkmatch: bool,
          prev: FileDesc)
    requires Turn(disk, s, p, ix, m, ix2, lastix, lnkmatch, prev) && ix2 < |s| && SameKey(s[ix], s[ix2])
    requires !SameContent(Marks(disk), s, ix, ix2) && Alike(disk, s[ix], s[ix2])
    ensures Content(disk, s[ix]) != Content(disk, s[ix2]) && Misled(disk, s)
  {
    hide Marks, Settled, KeySorted, EndsOnEof, LinksFlagged, Lead, IdLe, Sifted, InodesFrom, HeadApart, Part;
    var marks := Marks(disk);
    MarksAgree(disk, s[ix], s[ix2]);
    var i := LeadExists(marks, s, ix);
    var j := LeadExists(marks, s, ix2);
    OthersBehind(marks, s, p, ix, m, ix2, lastix, lnkmatch, prev, j);
    assert KeyRight(marks, s, j, ix2) && KeyRight(marks, s, i, ix);
    var k := HeadIsLed(disk, s, p, ix, m, ix2, lastix, lnkmatch, prev, j);
    LeadFirst(marks, s, i, k);
    IdLeTransitive(s[i], s[k], s[j]);
    MarksAgree(disk, s[i], s[ix]);
    MarksAgree(disk, s[j], s[ix2]);
    assert Misleads(disk, s, i, j);
  }

  lemma LeadFirst(marks: Disk, s: Files, i: int, k: int)
    requires 0 <= i < |s| && 0 <= k < |s| && Lead(marks, s, i) && SameContent(marks, s, k, i)
    ensures IdLe(s[i], s[k])
  {
  }

  /** A scan that has made no mistake to the end was given a list that does not mislead it. */
  lemma NotMisled(disk: Disk, s: Files, ix: int)
    requires Round(disk, s, |s|, ix)
    ensures !Misled(disk, s)
  {
    hide Marks, Outer, KeySorted, EndsOnEof, LinksFlagged, InodesFrom, Lead, IdLe;
    if i, j :| Misleads(disk, s, i, j) {
      MarksAgree(disk, s[i], s[j]);
      assert i < j ==> Passed(disk, s, |s|, i, j);
      if j < i {
        assert Passed(disk, s, |s|, j, i);
        var k :| 0 <= k < |s| && SameContent(Marks(disk), s, k, j) && IdLe(s[k], s[i]);
        LeadFirst(Marks(disk), s, j, k);
        IdLeTransitive(s[j], s[k], s[i]);
        IdLeTransitive(s[i], s[j], s[i]);
        assert false;
      }
    }
  }

  /** Heads stand in the order of `comp1`. */
  lemma HeadsOrdered(disk: Disk, s: Files, ix: int, i: int, j: int)
    requires Round(disk, s, |s|, ix) && 0 <= i < j < |s| && !s[i].dup
    ensures Comp1(s[i], s[j]) <= 0
  {
    hide Marks, Outer, KeySorted, EndsOnEof, LinksFlagged, InodesFrom, Sifted;
    assert HeadBefore(s, i, j);
  }

  /** Some entry has the inode of `f`. */
  ghost predicate HasInode(s: Files, f: FileDesc) {
    exists k :: 0 <= k < |s| && SameInode(s[k], f)
  }

  ghost predicate CoversInodes(s: Files, t: Files) {
    forall k {:trigger t[k]} | 0 <= k < |t| :: HasInode(s, t[k])
  }

  lemma LeadKept(marks: Disk, s: Files, t: Files, i: int, i': int)
    requires CoversInodes(s, t) && 0 <= i < |s| && Lead(marks, s, i)
    requires 0 <= i' < |t| && SameInode(s[i], t[i'])
    ensures Lead(marks, t, i')
  {
    forall k | 0 <= k < |t| && SameContent(marks, t, k, i')
      ensures IdLe(t[i'], t[k])
    {
      assert HasInode(s, t[k]);
      var k' :| 0 <= k' < |s| && SameInode(s[k'], t[k]);
      assert SameContent(marks, s, k', i);
    }
  }

  lemma UnflaggedCovers(s: Files, t: Files)
    requires multiset(Unflagged(s)) == multiset(Unflagged(t))
    ensures CoversInodes(s, t)
  {
    forall k | 0 <= k < |t|
      ensures HasInode(s, t[k])
    {
      assert Unflagged(t)[k] in multiset(Unflagged(s));
      var k' :| 0 <= k' < |s| && Unflagged(s)[k'] == Unflagged(t)[k];
      assert SameInode(s[k'], t[k]);
    }
  }

  /** Misleading is a matter of the records, not of their order or flags. */
  lemma PermutedMisled(disk: Disk, s: Files, t: Files)
    requires multiset(Unflagged(s)) == multiset(Unflagged(t)) && Misled(disk, s)
    ensures Misled(disk, t)
  {
    hide Marks, Lead, EndsOnEof, CoversInodes;
    UnflaggedCovers(s, t);
    var i, j :| Misleads(disk, s, i, j);
    assert Unflagged(s)[i] in multiset(Unflagged(t)) && Unflagged(s)[j] in multiset(Unflagged(t));
    var i' :| 0 <= i' < |t| && Unflagged(t)[i'] == Unflagged(s)[i];
    var j' :| 0 <= j' < |t| && Unflagged(t)[j'] == Unflagged(s)[j];
    LeadKept(Marks(disk), s, t, i, i');
    LeadKept(Marks(disk), s, t, j, j');
    assert Misleads(disk, t, i', j');
  }

  // ----- a mistake is never undone -----

  predicate DupRun(s: Files, a: int, b: int) {
    0 <= a < b < |s| && forall k | a < k <= b :: s[k].dup
  }

  /** Among the first `q` entries two of different contents stand in one group. */
  ghost predicate Broken(disk: Disk, s: Files, q: int) {
    exists a, b :: DupRun(s, a, b) && b < q && Content(disk, s[a]) != Content(disk, s[b])
  }

  lemma BrokenLater(disk: Disk, s: Files, p: int, q: int)
    requires Broken(disk, s, p) && p <= q
    ensures Broken(disk, s, q)
  {
  }

  lemma BreaksGroup(disk: Disk, s: Files, p: int, ix: int, m: int, ix2: int, lastix: int, lnkmatch: bool,
          prev: FileDesc)
    requires Turn(disk, s, p, ix, m, ix2, lastix, lnkmatch, prev) && ix2 < |s|
    requires Content(disk, s[ix]) != Content(disk, s[ix2])
    ensures Broken(disk, Rotated(s, lastix, ix2), m + 1)
  {
    hide Marks, Rotated, Settled, Keyed, KeySorted, Sifted, InodesFrom, HeadApart, LinksFlagged;
    var t := Rotated(s, lastix, ix2);
    RotatedAt(s, lastix, ix2, ix);
    RotatedAt(s, lastix, ix2, lastix);
    forall k | ix < k <= lastix
      ensures t[k].dup
    {
      RotatedAt(s, lastix, ix2, k);
      assert Part(Marks(disk), s, p, ix, m, ix2, prev, k);
    }
    assert DupRun(t, ix, lastix);
  }

  lemma StaysBroken(disk: Disk, s: Files, m: int, lastix: int, ix2: int)
    requires Broken(disk, s, m) && 0 < lastix && m - 1 <= lastix <= m <= ix2 < |s|
    ensures Broken(disk, Rotated(s, lastix, ix2), m + 1)
  {
    hide Rotated;
    var t := Rotated(s, lastix, ix2);
    var a, b :| DupRun(s, a, b) && b < m && Content(disk, s[a]) != Content(disk, s[b]);
    var b' := if b < lastix then b else b + 1;
    RotatedAt(s, lastix, ix2, a);
    RotatedAt(s, lastix, ix2, lastix);
    RotatedAt(s, lastix, ix2, b');
    forall k | a < k <= b'
      ensures 0 <= k < |t| && t[k].dup
    {
      RotatedAt(s, lastix, ix2, k);
    }
    assert DupRun(t, a, b');
  }
}
