/** The duplicate scan of finddup: what its rotations keep, entry by entry. */
module DupScan {
  import opened FileRecords

  type Files = seq<FileDesc>

  predicate SameContent(disk: Disk, s: Files, i: int, j: int)
    requires 0 <= i < |s| && 0 <= j < |s|
  {
    Content(disk, s[i]) == Content(disk, s[j])
  }

  /** Files with equal content agree on length and CRC, so that they stand in one run. */
  ghost predicate KeyRight(disk: Disk, s: Files, i: int, j: int)
    requires 0 <= i < |s| && 0 <= j < |s|
  {
    SameContent(disk, s, i, j) ==> SameKey(s[i], s[j])
  }

  ghost predicate Keyed(disk: Disk, s: Files) {
    forall i, j {:trigger KeyRight(disk, s, i, j)} | 0 <= i < |s| && 0 <= j < |s| :: KeyRight(disk, s, i, j)
  }

  predicate KeyLe(s: Files, i: int, j: int)
    requires 0 <= i < |s| && 0 <= j < |s|
  {
    s[i].length < s[j].length || (s[i].length == s[j].length && s[i].crc <= s[j].crc)
  }

  ghost predicate KeySorted(s: Files, from: int) {
    forall i, j {:trigger KeyLe(s, i, j)} | 0 <= from <= i < j < |s| :: KeyLe(s, i, j)
  }

  /** No file before `p` has the content of a file from `p` on. */
  ghost predicate Closed(disk: Disk, s: Files, p: int) {
    forall i, j {:trigger SameContent(disk, s, i, j)} | 0 <= i < p <= j < |s| :: !SameContent(disk, s, i, j)
  }

  /** Entry `i` is flagged exactly if it repeats the entry before it. */
  ghost predicate DupRight(disk: Disk, s: Files, i: int)
    requires 0 <= i < |s|
  {
    s[i].dup <==> i > 0 && SameContent(disk, s, i - 1, i)
  }

  /** Equal files stand next to each other: what equals `j` further left also equals `j - 1`. */
  ghost predicate JoinsPrev(disk: Disk, s: Files, i: int, j: int)
    requires 0 <= i < j < |s|
  {
    SameContent(disk, s, i, j) ==> SameContent(disk, s, i, j - 1)
  }

  /** The entries before `p` are grouped and flagged for good. */
  ghost predicate Settled(disk: Disk, s: Files, p: int)
    requires p <= |s|
  {
    && Closed(disk, s, p)
    && (forall i {:trigger DupRight(disk, s, i)} | 0 <= i < p :: DupRight(disk, s, i))
    && (forall i, j {:trigger JoinsPrev(disk, s, i, j)} | 0 <= i < j < p :: JoinsPrev(disk, s, i, j))
  }

  /** An entry not yet reached: not flagged, and a link only if it follows an entry with its inode. */
  ghost predicate Untouched(s: Files, p: int, j: int)
    requires 0 <= j < |s|
  {
    !s[j].dup && (s[j].lnk ==> 0 <= p < j && SameInode(s[j - 1], s[j]))
  }

  /** The outer loop at `ix`: everything before `p` is settled, where `p` is `ix`, or `ix + 1` if `ix` is the last
      entry of a group that the loop comes back to. */
  ghost predicate Outer(disk: Disk, s: Files, p: int, ix: int) {
    && 0 <= ix <= p <= |s| && (p == ix || (p == ix + 1 && 0 < ix && s[ix].dup))
    && Settled(disk, s, p) && Keyed(disk, s) && KeySorted(s, p)
    && (forall j {:trigger Untouched(s, p, j)} | 0 <= p <= j < |s| :: Untouched(s, p, j))
  }

  /** Entry `j > ix` during the inner loop of head `ix`: from `ix + 1` to `m` the matches, from `m` to `ix2` the
      entries that did not match, from `ix2` on the rest.  `prev` is the entry looked at last. */
  ghost predicate Part(disk: Disk, s: Files, p: int, ix: int, m: int, ix2: int, prev: FileDesc, j: int)
    requires 0 <= ix < j < |s|
  {
    if j < m then s[j].dup && SameContent(disk, s, ix, j) && SameKey(s[ix], s[j])
    else if j < ix2 then
      !s[j].dup && !SameContent(disk, s, ix, j) && SameKey(s[ix], s[j])
      && (s[j].lnk ==> m < j && SameInode(s[j - 1], s[j]))
    else
      !s[j].dup && (s[j].lnk ==> p < j && SameInode(if j == ix2 then prev else s[j - 1], s[j]))
  }

  ghost predicate Inner(disk: Disk, s: Files, p: int, ix: int, m: int, ix2: int, lastix: int, lnkmatch: bool,
          prev: FileDesc) {
    && 0 <= ix <= p <= ix + 1 <= m <= ix2 <= |s|
    && (lastix == m || (lastix == m - 1 && ix < lastix))
    && Settled(disk, s, p) && Keyed(disk, s) && KeySorted(s, ix) && (p == ix ==> !s[ix].dup && !s[ix].lnk)
    && (forall j {:trigger Part(disk, s, p, ix, m, ix2, prev, j)} | ix < j < |s| ::
         Part(disk, s, p, ix, m, ix2, prev, j))
    && (lnkmatch <==> Content(disk, prev) == Content(disk, s[ix]))
    && (!lnkmatch ==> m < ix2 && SameInode(s[ix2 - 1], prev))
  }

  /** The first step of the inner loop. */
  lemma EnterInner(disk: Disk, s: Files, p: int, ix: int)
    requires Outer(disk, s, p, ix) && ix < |s| && KeySorted(s, ix)
    ensures Inner(disk, s, p, ix, ix + 1, ix + 1, ix + 1, true, s[ix])
  {
    assert p == ix ==> Untouched(s, p, ix);
    forall j {:trigger Part(disk, s, p, ix, ix + 1, ix + 1, s[ix], j)} | ix < j < |s|
      ensures Part(disk, s, p, ix, ix + 1, ix + 1, s[ix], j)
    {
      assert Untouched(s, p, j);
    }
  }

  /** The shortcut for links never misjudges: the test of the inner loop is equality of content. */
  lemma LinkShortcut(disk: Disk, s: Files, p: int, ix: int, m: int, ix2: int, lastix: int,
          lnkmatch: bool, prev: FileDesc)
    requires Inner(disk, s, p, ix, m, ix2, lastix, lnkmatch, prev) && ix2 < |s|
    ensures s[ix2].lnk && lnkmatch ==> SameContent(disk, s, ix, ix2)
  {
    assert Part(disk, s, p, ix, m, ix2, prev, ix2);
  }

  /** The list after entry `b` moves to position `a` and is flagged. */
  function Rotated(s: Files, a: int, b: int): Files
    requires 0 <= a <= b < |s|
  {
    s[..a] + [s[b].(dup := true)] + s[a..b] + s[b + 1..]
  }

  /** Where entry `j` of the rotated list was before. */
  function Before(a: int, b: int, j: int): int {
    if j == a then b else if a < j <= b then j - 1 else j
  }

  lemma RotatedAt(s: Files, a: int, b: int, j: int)
    requires 0 <= a <= b < |s| && 0 <= j < |s|
    ensures |Rotated(s, a, b)| == |s|
    ensures Rotated(s, a, b)[j] == if j == a then s[b].(dup := true) else s[Before(a, b, j)]
  {
  }

  /** A match: the entry joins the group of the head. */
  lemma MatchStep(disk: Disk, s: Files, p: int, ix: int, m: int, ix2: int, lastix: int,
          lnkmatch: bool, prev: FileDesc)
    requires Inner(disk, s, p, ix, m, ix2, lastix, lnkmatch, prev) && ix2 < |s|
    requires SameKey(s[ix], s[ix2]) && SameContent(disk, s, ix, ix2)
    ensures Inner(disk, Rotated(s, lastix, ix2), p, ix, m + 1, ix2 + 1,
                  if lastix == ix2 then lastix else lastix + 1, true, s[ix2])
  {
    var s' := Rotated(s, lastix, ix2);
    RotatedAt(s, lastix, ix2, ix);
    assert Part(disk, s, p, ix, m, ix2, prev, ix2);
    MatchSettled(disk, s, p, ix, lastix, ix2);
    MatchKeys(disk, s, ix, lastix, ix2, p, m, lnkmatch, prev);
    forall j {:trigger Part(disk, s', p, ix, m + 1, ix2 + 1, s[ix2], j)} | ix < j < |s'|
      ensures Part(disk, s', p, ix, m + 1, ix2 + 1, s[ix2], j)
    {
      MatchPart(disk, s, p, ix, m, ix2, lastix, lnkmatch, prev, j);
    }
  }

  lemma MatchPart(disk: Disk, s: Files, p: int, ix: int, m: int, ix2: int, lastix: int,
          lnkmatch: bool, prev: FileDesc, j: int)
    requires Inner(disk, s, p, ix, m, ix2, lastix, lnkmatch, prev) && ix2 < |s|
    requires SameKey(s[ix], s[ix2]) && SameContent(disk, s, ix, ix2) && ix < j < |s|
    ensures |Rotated(s, lastix, ix2)| == |s| && Part(disk, Rotated(s, lastix, ix2), p, ix, m + 1, ix2 + 1, s[ix2], j)
  {
    RotatedAt(s, lastix, ix2, ix);
    RotatedAt(s, lastix, ix2, j);
    RotatedAt(s, lastix, ix2, j - 1);
    assert Part(disk, s, p, ix, m, ix2, prev, Before(lastix, ix2, j));
  }

  lemma MatchSettled(disk: Disk, s: Files, p: int, ix: int, a: int, b: int)
    requires 0 <= ix <= p <= ix + 1 <= a <= b < |s| && Settled(disk, s, p)
    ensures |Rotated(s, a, b)| == |s| && Settled(disk, Rotated(s, a, b), p)
  {
    var s' := Rotated(s, a, b);
    forall i, j {:trigger SameContent(disk, s', i, j)} | 0 <= i < p <= j < |s'| ensures !SameContent(disk, s', i, j) {
      RotatedAt(s, a, b, i);
      RotatedAt(s, a, b, j);
      assert !SameContent(disk, s, i, Before(a, b, j));
    }
    forall i {:trigger DupRight(disk, s', i)} | 0 <= i < p ensures DupRight(disk, s', i) {
      RotatedAt(s, a, b, i);
      if i > 0 { RotatedAt(s, a, b, i - 1); }
      assert DupRight(disk, s, i);
    }
    forall i, j {:trigger JoinsPrev(disk, s', i, j)} | 0 <= i < j < p ensures JoinsPrev(disk, s', i, j) {
      RotatedAt(s, a, b, i);
      RotatedAt(s, a, b, j);
      RotatedAt(s, a, b, j - 1);
      assert JoinsPrev(disk, s, i, j);
    }
  }

  lemma MatchKeys(disk: Disk, s: Files, ix: int, a: int, b: int, p: int, m: int,
          lnkmatch: bool, prev: FileDesc)
    requires Inner(disk, s, p, ix, m, b, a, lnkmatch, prev) && b < |s| && SameKey(s[ix], s[b])
    ensures |Rotated(s, a, b)| == |s| && Keyed(disk, Rotated(s, a, b)) && KeySorted(Rotated(s, a, b), ix)
  {
    var s' := Rotated(s, a, b);
    forall i, j {:trigger KeyRight(disk, s', i, j)} | 0 <= i < |s'| && 0 <= j < |s'| ensures KeyRight(disk, s', i, j) {
      RotatedAt(s, a, b, i);
      RotatedAt(s, a, b, j);
      assert KeyRight(disk, s, Before(a, b, i), Before(a, b, j));
    }
    forall i, j {:trigger KeyLe(s', i, j)} | ix <= i < j < |s'| ensures KeyLe(s', i, j) {
      RotatedAt(s, a, b, i);
      RotatedAt(s, a, b, j);
      var i', j' := Before(a, b, i), Before(a, b, j);
      if j <= b {
        if ix < i { assert i' < b ==> Part(disk, s, p, ix, m, b, prev, i'); }
        assert j' < b ==> Part(disk, s, p, ix, m, b, prev, j');
      } else {
        assert KeyLe(s, i', j);
      }
    }
  }

  /** No match: the entry stays behind the group. */
  lemma MissStep(disk: Disk, s: Files, p: int, ix: int, m: int, ix2: int, lastix: int,
          lnkmatch: bool, prev: FileDesc)
    requires Inner(disk, s, p, ix, m, ix2, lastix, lnkmatch, prev) && ix2 < |s|
    requires SameKey(s[ix], s[ix2]) && !SameContent(disk, s, ix, ix2)
    ensures Inner(disk, s, p, ix, m, ix2 + 1, lastix, false, s[ix2])
  {
    forall j {:trigger Part(disk, s, p, ix, m, ix2 + 1, s[ix2], j)} | ix < j < |s|
      ensures Part(disk, s, p, ix, m, ix2 + 1, s[ix2], j)
    {
      MissPart(disk, s, p, ix, m, ix2, lastix, lnkmatch, prev, j);
    }
  }

  lemma MissPart(disk: Disk, s: Files, p: int, ix: int, m: int, ix2: int, lastix: int,
          lnkmatch: bool, prev: FileDesc, j: int)
    requires Inner(disk, s, p, ix, m, ix2, lastix, lnkmatch, prev) && ix2 < |s| && ix < j < |s|
    requires SameKey(s[ix], s[ix2]) && !SameContent(disk, s, ix, ix2)
    ensures Part(disk, s, p, ix, m, ix2 + 1, s[ix2], j)
  {
    assert Part(disk, s, p, ix, m, ix2, prev, j);
    if j == ix2 && s[j].lnk {
      assert Content(disk, prev) == Content(disk, s[j]);
    }
  }

  /** The end of the inner loop: the group of the head is settled. */
  lemma ExitInner(disk: Disk, s: Files, p: int, ix: int, m: int, ix2: int, lastix: int,
          lnkmatch: bool, prev: FileDesc)
    requires Inner(disk, s, p, ix, m, ix2, lastix, lnkmatch, prev)
    requires ix2 < |s| ==> !SameKey(s[ix], s[ix2])
    ensures Outer(disk, s, m, lastix) && KeySorted(s, ix)
  {
    BeyondRun(disk, s, p, ix, m, ix2, lastix, lnkmatch, prev);
    ExitSettled(disk, s, p, ix, m, ix2, lastix, lnkmatch, prev);
    forall i, j {:trigger KeyLe(s, i, j)} | m <= i < j < |s| ensures KeyLe(s, i, j) {
    }
    forall j {:trigger Untouched(s, m, j)} | m <= j < |s| ensures Untouched(s, m, j) {
      ExitUntouched(disk, s, p, ix, m, ix2, lastix, lnkmatch, prev, j);
    }
    if lastix == m - 1 {
      assert Part(disk, s, p, ix, m, ix2, prev, lastix);
    }
  }

  /** Entries behind the run have another key, hence other content. */
  lemma BeyondRun(disk: Disk, s: Files, p: int, ix: int, m: int, ix2: int, lastix: int,
          lnkmatch: bool, prev: FileDesc)
    requires Inner(disk, s, p, ix, m, ix2, lastix, lnkmatch, prev)
    requires ix2 < |s| ==> !SameKey(s[ix], s[ix2])
    ensures forall j {:trigger SameContent(disk, s, ix, j)} | m <= j < |s| :: !SameContent(disk, s, ix, j)
  {
    forall j {:trigger SameContent(disk, s, ix, j)} | m <= j < |s| ensures !SameContent(disk, s, ix, j) {
      assert KeyRight(disk, s, ix, j);
      if j < ix2 {
        assert Part(disk, s, p, ix, m, ix2, prev, j);
      } else {
        assert KeyLe(s, ix, ix2) && (ix2 < j ==> KeyLe(s, ix2, j));
      }
    }
  }

  lemma ExitSettled(disk: Disk, s: Files, p: int, ix: int, m: int, ix2: int, lastix: int,
          lnkmatch: bool, prev: FileDesc)
    requires Inner(disk, s, p, ix, m, ix2, lastix, lnkmatch, prev)
    requires forall j {:trigger SameContent(disk, s, ix, j)} | m <= j < |s| :: !SameContent(disk, s, ix, j)
    requires p == ix ==> !s[ix].dup
    ensures Settled(disk, s, m)
  {
    forall i, j {:trigger SameContent(disk, s, i, j)} | 0 <= i < m <= j < |s| ensures !SameContent(disk, s, i, j) {
      if p <= i {
        assert ix < i ==> Part(disk, s, p, ix, m, ix2, prev, i);
        assert !SameContent(disk, s, ix, j);
      }
    }
    forall i {:trigger DupRight(disk, s, i)} | 0 <= i < m ensures DupRight(disk, s, i) {
      if i < p {
      } else if i == ix {
        assert i > 0 ==> !SameContent(disk, s, i - 1, i);
      } else {
        assert Part(disk, s, p, ix, m, ix2, prev, i);
        assert ix < i - 1 ==> Part(disk, s, p, ix, m, ix2, prev, i - 1);
      }
    }
    forall i, j {:trigger JoinsPrev(disk, s, i, j)} | 0 <= i < j < m ensures JoinsPrev(disk, s, i, j) {
      if p <= j {
        if i < p { assert !SameContent(disk, s, i, j); }
        assert ix < j ==> Part(disk, s, p, ix, m, ix2, prev, j);
        assert ix < j - 1 ==> Part(disk, s, p, ix, m, ix2, prev, j - 1);
        assert ix < i ==> Part(disk, s, p, ix, m, ix2, prev, i);
      }
    }
  }

  lemma ExitUntouched(disk: Disk, s: Files, p: int, ix: int, m: int, ix2: int, lastix: int,
          lnkmatch: bool, prev: FileDesc, j: int)
    requires Inner(disk, s, p, ix, m, ix2, lastix, lnkmatch, prev) && m <= j < |s|
    requires ix2 < |s| ==> !SameKey(s[ix], s[ix2])
    ensures Untouched(s, m, j)
  {
    assert Part(disk, s, p, ix, m, ix2, prev, j);
    if j == ix2 {
      assert KeyRight(disk, s, ix, ix2) && KeyRight(disk, s, ix2 - 1, ix2);
      assert ix < ix2 - 1 ==> Part(disk, s, p, ix, m, ix2, prev, ix2 - 1);
    }
  }
}
