/** The three scans of hw2/src/finddup.c over the file list array. */
module FindDup {
  import opened FileRecords
  import opened DupScan
  import opened DupExact
  import opened Permutations
  import opened DupReport
  import opened Wrappers

  class FileList {
    const filelist: array<FileDesc>        // the first n_files entries
    const disk: Disk
    const crcOf: seq<int> -> int           // get_crc, as a function of the bytes of the file
    const linkflag: bool                   // show links

    ghost predicate Described(f: FileDesc) {
      var c := Content(disk, f);
      f.length == |c| && Bytes(c)
    }

    /** Every entry describes a file of the disk. */
    ghost predicate Valid()
      reads filelist
    {
      forall i {:trigger filelist[i]} | 0 <= i < filelist.Length :: Described(filelist[i])
    }

    // ----- which lists the program gets wrong -----

    /** The contents of the two files agree in length and CRC. */
    predicate OneKey(f: FileDesc, g: FileDesc) {
      |Content(disk, f)| == |Content(disk, g)| && crcOf(Content(disk, f)) == crcOf(Content(disk, g))
    }

    /**
     * The files differ, but `fullcmp` takes the second for the first, and each comes first by inode of the files with
     * its content.
     */
    ghost predicate Confuses(s: Files, i: int, j: int) {
      && 0 <= i < |s| && 0 <= j < |s| && Lead(Marks(disk), s, i) && Lead(Marks(disk), s, j)
      && OneKey(s[i], s[j]) && IdLe(s[i], s[j]) && Content(disk, s[i]) != Content(disk, s[j])
      && Alike(disk, s[i], s[j])
    }

    ghost predicate Confused(s: Files) {
      exists i, j :: Confuses(s, i, j)
    }

    /** The files have one content but are not one file, and `fullcmp` tells that content from itself. */
    predicate Overlooks(f: FileDesc, g: FileDesc) {
      Content(disk, f) == Content(disk, g) && !SameInode(f, g) && !Alike(disk, f, f)
    }

    ghost predicate Overlooked(s: Files) {
      exists i, j :: 0 <= i < |s| && 0 <= j < |s| && Overlooks(s[i], s[j])
    }

    /** No list of text files is confused or overlooked. */
    lemma TextIsRight(s: Files)
      requires forall i {:trigger s[i]} | 0 <= i < |s| :: Text(Content(disk, s[i]))
      ensures !Confused(s) && !Overlooked(s)
    {
      hide Lead, EndsOnEof;
      forall i, j | 0 <= i < |s| && 0 <= j < |s|
        ensures !Confuses(s, i, j) && !Overlooks(s[i], s[j])
      {
        var a, b := Content(disk, s[i]), Content(disk, s[j]);
        EndsOnEofText(a, a, 0);
        if |a| == |b| {
          EndsOnEofText(a, b, 0);
          assert a[0..] == a && b[0..] == b;
        }
      }
    }

    /** Two files that both hold the one byte 0x80 are overlooked. */
    lemma OverlookedExample(f: FileDesc, g: FileDesc)
      requires Content(disk, f) == Content(disk, g) == [128] && !SameInode(f, g)
      ensures Overlooked([f, g])
    {
      assert Overlooks([f, g][0], [f, g][1]);
    }

    /** Two different files of one length and CRC are confused if the one with the first inode begins with 0xff. */
    lemma ConfusedExample(f: FileDesc, g: FileDesc)
      requires OneKey(f, g) && Content(disk, f) != Content(disk, g) && IdLe(f, g)
      requires Content(disk, f) != [] && Content(disk, f)[0] == 255
      ensures Confused([f, g])
    {
      hide Marks;
      MarksAgree(disk, f, g);
      assert Confuses([f, g], 0, 1);
    }

    lemma InodesConfused(s: Files, t: Files)
      requires multiset(Ids(s)) == multiset(Ids(t)) && Confused(s)
      ensures Confused(t)
    {
      hide Marks, Lead, EndsOnEof, Ids;
      forall k | 0 <= k < |t|
        ensures HasInode(s, t[k])
      {
        var k' := IdsMember(t, s, k);
        assert SameInode(s[k'], t[k]);
      }
      var i, j :| Confuses(s, i, j);
      var i' := IdsMember(s, t, i);
      var j' := IdsMember(s, t, j);
      LeadKept(Marks(disk), s, t, i, i');
      LeadKept(Marks(disk), s, t, j, j');
      assert Confuses(t, i', j');
    }

    ghost predicate KeyExact(f: FileDesc, g: FileDesc) {
      SameKey(f, g) <==> OneKey(f, g)
    }

    /** Lengths and CRCs of the records are those of the contents, as far as two records can be told by them. */
    ghost predicate KeysExact(s: Files) {
      forall i, j {:trigger KeyExact(s[i], s[j])} | 0 <= i < |s| && 0 <= j < |s| && i != j :: KeyExact(s[i], s[j])
    }

    lemma PermutedKeys(s: Files, t: Files)
      requires KeysExact(s) && multiset(s) == multiset(t)
      ensures KeysExact(t)
    {
      hide KeyExact;
      forall i, j {:trigger KeyExact(t[i], t[j])} | 0 <= i < |t| && 0 <= j < |t| && i != j
        ensures KeyExact(t[i], t[j])
      {
        var i', j' := PermutedPair(s, t, i, j);
        assert KeyExact(s[i'], s[j']);
      }
    }

    lemma ConfusedIsMisled(s: Files)
      requires KeysExact(s)
      ensures Misled(disk, s) <==> Confused(s)
    {
      hide Marks, Lead, EndsOnEof, IdLe;
      forall i, j
        ensures Misleads(disk, s, i, j) <==> Confuses(s, i, j)
      {
        assert 0 <= i < |s| && 0 <= j < |s| && i != j ==> KeyExact(s[i], s[j]);
      }
    }

    /** No flag is set. */
    ghost predicate Fresh()
      reads filelist
    {
      forall i | 0 <= i < filelist.Length :: !filelist[i].hasCrc && !filelist[i].dup && !filelist[i].lnk
    }

    /** `SORT`.  The contract leaves the order of entries that `comp1` does not tell apart open, as `qsort` does. */
    method QSort()
      modifies filelist
      ensures Sorted(filelist[..]) && multiset(filelist[..]) == multiset(old(filelist[..]))
      ensures SignsKept(old(filelist[..])) ==> LiteralSorted(filelist[..])
    {
      ghost var s := filelist[..];
      OrderedSorted(filelist[..]);
      var t := Ordered(filelist[..]);
      assert |t| == |multiset(t)| == |multiset(filelist[..])| == filelist.Length;
      forall i | 0 <= i < filelist.Length {
        filelist[i] := t[i];
      }
      assert filelist[..] == t;
      if SignsKept(s) {
        PermutedSigns(s, t);
        LiteralOrder(t);
      }
    }

    function WithCrc(f: FileDesc): FileDesc {
      f.(crc := crcOf(Content(disk, f)), hasCrc := true)
    }

    function Crced(f: FileDesc): FileDesc {
      if f.hasCrc then f else WithCrc(f)
    }

    /** The CRCs of entries `ix - 1` and `ix` if their lengths are equal. */
    function PairStep(t: Files, ix: int): (u: Files)
      requires 0 < ix < |t|
      ensures |u| == |t|
    {
      if t[ix - 1].length != t[ix].length then t else t[ix - 1 := Crced(t[ix - 1])][ix := Crced(t[ix])]
    }

    /** The loop of `scan1` over the first `n` entries. */
    function CrcPass(s: Files, n: int): (t: Files)
      requires 0 <= n <= |s|
      ensures |t| == |s|
      decreases n
    {
      if n <= 1 then s else PairStep(CrcPass(s, n - 1), n - 1)
    }

    /** Whether that loop asks for another sort. */
    function NeedSort(s: Files, n: int): bool
      requires 0 <= n <= |s|
      decreases n
    {
      n > 1 && (NeedSort(s, n - 1) || s[n - 2].length == s[n - 1].length)
    }

    /** What `scan1` may have done to entry `i`. */
    ghost predicate MaybeCrc(f: FileDesc, g: FileDesc) {
      g == f || g == WithCrc(f)
    }

    /** Entries `p - 1` and `p` both carry their CRC if their lengths are equal. */
    ghost predicate PairDone(s: Files, t: Files, p: int)
      requires 0 < p < |s| == |t|
    {
      s[p - 1].length == s[p].length ==> t[p - 1] == WithCrc(s[p - 1]) && t[p] == WithCrc(s[p])
    }

    ghost predicate Unmarked(s: Files) {
      forall i {:trigger s[i]} | 0 <= i < |s| :: !s[i].hasCrc
    }

    lemma {:induction false} PassMarks(s: Files, n: int)
      requires Unmarked(s) && 0 <= n <= |s|
      ensures forall i | 0 <= i < |s| :: MaybeCrc(s[i], CrcPass(s, n)[i])
      ensures forall p {:trigger PairDone(s, CrcPass(s, n), p)} | 0 < p < n :: PairDone(s, CrcPass(s, n), p)
      ensures forall i | n <= i < |s| :: CrcPass(s, n)[i] == s[i]
      decreases n
    {
      if n > 1 {
        PassMarks(s, n - 1);
        var t, u := CrcPass(s, n - 1), CrcPass(s, n);
        forall p {:trigger PairDone(s, u, p)} | 0 < p < n
          ensures PairDone(s, u, p)
        {
          assert p < n - 1 ==> PairDone(s, t, p);
          assert MaybeCrc(s[p], t[p]) && MaybeCrc(s[p - 1], t[p - 1]);
        }
      }
    }

    /** The CRCs of two neighbours of equal length. */
    method CrcPair(ix: int) returns (paired: bool)
      requires 0 < ix < filelist.Length
      modifies filelist
      ensures filelist[..] == PairStep(old(filelist[..]), ix)
      ensures paired == (old(filelist[ix - 1]).length == old(filelist[ix]).length)
    {
      paired := false;
      if filelist[ix - 1].length == filelist[ix].length {
        if !filelist[ix - 1].hasCrc {
          filelist[ix - 1] := WithCrc(filelist[ix - 1]);
        }
        if !filelist[ix].hasCrc {
          filelist[ix] := WithCrc(filelist[ix]);
        }
        paired := true;
      }
    }

    lemma {:induction false} PassLengths(s: Files, n: int)
      requires 0 <= n <= |s|
      ensures forall i {:trigger CrcPass(s, n)[i]} | 0 <= i < |s| :: CrcPass(s, n)[i].length == s[i].length
      decreases n
    {
      if n > 1 {
        PassLengths(s, n - 1);
      }
    }

    /** Entry `i` has a neighbour of its length among the first `n` entries. */
    predicate SharesLength(s: Files, n: int, i: int)
      requires 0 <= i < |s| && n <= |s|
    {
      (0 < i < n && s[i - 1].length == s[i].length) || (i + 1 < n && s[i].length == s[i + 1].length)
    }

    /** The loop gives their CRCs to exactly the entries that share their length with a neighbour. */
    lemma {:induction false} PassIsExact(s: Files, n: int)
      requires Unmarked(s) && 0 <= n <= |s|
      ensures forall i {:trigger SharesLength(s, n, i)} | 0 <= i < |s| ::
                CrcPass(s, n)[i] == if SharesLength(s, n, i) then WithCrc(s[i]) else s[i]
      ensures NeedSort(s, n) <==> exists i {:trigger SharesLength(s, n, i)} :: 0 <= i < |s| && SharesLength(s, n, i)
      decreases n
    {
      if n > 1 {
        PassIsExact(s, n - 1);
        var t := CrcPass(s, n - 1);
        forall i | 0 <= i < |s|
          ensures CrcPass(s, n)[i] == if SharesLength(s, n, i) then WithCrc(s[i]) else s[i]
        {
          assert t[i] == if SharesLength(s, n - 1, i) then WithCrc(s[i]) else s[i];
          assert t[n - 2] == if SharesLength(s, n - 1, n - 2) then WithCrc(s[n - 2]) else s[n - 2];
          assert !SharesLength(s, n - 1, n - 1);
        }
        SharedLater(s, n);
      }
    }

    lemma SharedLater(s: Files, n: int)
      requires 1 < n <= |s|
      ensures (exists i {:trigger SharesLength(s, n, i)} :: 0 <= i < |s| && SharesLength(s, n, i))
         <==> (exists i {:trigger SharesLength(s, n - 1, i)} :: 0 <= i < |s| && SharesLength(s, n - 1, i))
              || s[n - 2].length == s[n - 1].length
    {
      var m := n - 1;
      if i :| 0 <= i < |s| && SharesLength(s, m, i) {
        assert SharesLength(s, n, i);
      }
      if s[n - 2].length == s[n - 1].length {
        assert SharesLength(s, n, n - 1);
      }
      if i :| 0 <= i < |s| && SharesLength(s, n, i) {
        assert SharesLength(s, n - 1, i) || s[n - 2].length == s[n - 1].length;
      }
    }

    /** The loop of `scan1`, which stops at the last entry. */
    method CrcLoop() returns (needsort: bool)
      modifies filelist
      ensures filelist[..] == CrcPass(old(filelist[..]), filelist.Length)
      ensures needsort == NeedSort(old(filelist[..]), filelist.Length)
    {
      ghost var s := filelist[..];
      needsort := false;
      var ix := 1;
      while ix < filelist.Length
        invariant 1 <= ix && (ix <= filelist.Length || filelist.Length == 0)
        invariant filelist[..] == CrcPass(s, if ix <= |s| then ix else |s|)
        invariant needsort == NeedSort(s, if ix <= |s| then ix else |s|)
      {
        PassLengths(s, ix);
        assert CrcPass(s, ix)[ix - 1].length == s[ix - 1].length && CrcPass(s, ix)[ix].length == s[ix].length;
        var paired := CrcPair(ix);
        needsort := needsort || paired;
        ix := ix + 1;
      }
    }

    method Scan1()
      requires Valid() && Fresh() && Sorted(filelist[..])
      modifies filelist
      ensures Sorted(filelist[..]) && Keyed(disk, filelist[..]) && KeysExact(filelist[..]) && Valid()
      ensures multiset(Ids(filelist[..])) == multiset(Ids(old(filelist[..])))
      ensures forall i | 0 <= i < filelist.Length :: !filelist[i].dup && !filelist[i].lnk
    {
      hide CrcPass, NeedSort, KeysExact;
      ghost var s := filelist[..];
      var needsort := CrcLoop();
      ghost var t := filelist[..];
      PassMarks(s, |s|);
      PassUnsorted(s);
      CrcKeyed(s, t);
      MaybeCrcIds(s, t);
      if needsort {
        QSort();
        ghost var u := filelist[..];
        SortedKeyed(disk, t, u);
        PermutedKeys(t, u);
        IdsPermute(t, u);
        forall i | 0 <= i < |u| ensures u[i] in t {
          assert u[i] in multiset(u);
        }
      }
    }

    /** Where no sort is asked for, nothing was marked. */
    lemma {:induction false} PassUnsorted(s: Files)
      ensures !NeedSort(s, |s|) ==> CrcPass(s, |s|) == s
    {
      PassUnsortedUpTo(s, |s|);
    }

    lemma {:induction false} PassUnsortedUpTo(s: Files, n: int)
      requires 0 <= n <= |s|
      ensures !NeedSort(s, n) ==> CrcPass(s, n) == s
      decreases n
    {
      if n > 1 {
        PassUnsortedUpTo(s, n - 1);
      }
    }

    // ----- scan1 as written looks at the entry behind the list -----

    lemma {:induction false} PassPrefix(s: Files, e: FileDesc, n: int)
      requires 0 <= n <= |s|
      ensures CrcPass(s + [e], n) == CrcPass(s, n) + [e]
      ensures NeedSort(s + [e], n) == NeedSort(s, n)
      decreases n
    {
      if n > 1 {
        PassPrefix(s, e, n - 1);
      }
    }

    /**
     * The loop of the code runs one entry further, over `e`. It does what it should exactly when the list is empty,
     * or `e` has another length than the last entry, or both carry CRCs already.
     */
    lemma {:induction false} Scan1Overrun(s: Files, e: FileDesc)
      requires Unmarked(s)
      ensures CrcPass(s + [e], |s| + 1) == CrcPass(s, |s|) + [e] && NeedSort(s + [e], |s| + 1) == NeedSort(s, |s|)
         <==> s == [] || e.length != s[|s| - 1].length
              || (e.hasCrc && |s| > 1 && s[|s| - 2].length == s[|s| - 1].length)
    {
      var n := |s|;
      PassPrefix(s, e, n);
      if n > 0 {
        var t := CrcPass(s, n);
        PassLengths(s, n);
        PassMarks(s, n);
        assert t[n - 1].length == s[n - 1].length;
        LastMarked(s);
        assert (t + [e])[n] == e && (t + [e])[n - 1] == t[n - 1];
        var u := CrcPass(s + [e], n + 1);
        assert u == PairStep(t + [e], n);
        assert u[n] == if e.length == s[n - 1].length then Crced(e) else e;
        assert u[n - 1] == if e.length == s[n - 1].length then Crced(t[n - 1]) else t[n - 1];
      }
    }

    lemma {:induction false} LastMarked(s: Files)
      requires Unmarked(s) && s != []
      ensures CrcPass(s, |s|)[|s| - 1].hasCrc <==> |s| > 1 && s[|s| - 2].length == s[|s| - 1].length
    {
      var n := |s|;
      if n > 1 {
        PassLengths(s, n - 1);
        PassMarks(s, n - 1);
        assert CrcPass(s, n - 1)[n - 2].length == s[n - 2].length;
        assert CrcPass(s, n - 1)[n - 1] == s[n - 1];
      }
    }

    /** One file, and behind it an entry of the same length: the entry is marked, and the list gets a CRC and a sort. */
    lemma Scan1OverrunFails(f: FileDesc, e: FileDesc)
      requires !f.hasCrc && !e.hasCrc && e.length == f.length
      ensures CrcPass([f] + [e], 2) == [WithCrc(f), WithCrc(e)] && CrcPass([f], 1) == [f]
      ensures NeedSort([f] + [e], 2) && !NeedSort([f], 1)
    {
      assert CrcPass([f] + [e], 1) == [f, e];
    }

    lemma MaybeCrcIds(s: Files, t: Files)
      requires |s| == |t| && forall i | 0 <= i < |s| :: MaybeCrc(s[i], t[i])
      ensures Ids(s) == Ids(t)
    {
    }

    lemma CrcKeyed(s: Files, t: Files)
      requires |s| == |t| && Sorted(s)
      requires forall i | 0 <= i < |s| :: Described(s[i])
      requires forall i | 0 <= i < |s| :: MaybeCrc(s[i], t[i])
      requires forall p {:trigger PairDone(s, t, p)} | 0 < p < |s| :: PairDone(s, t, p)
      ensures Keyed(disk, t) && KeysExact(t)
    {
      hide Comp1;
      forall i, j {:trigger KeyExact(t[i], t[j])} | 0 <= i < |t| && 0 <= j < |t| && i != j
        ensures KeyExact(t[i], t[j])
      {
        assert Described(s[i]) && Described(s[j]) && MaybeCrc(s[i], t[i]) && MaybeCrc(s[j], t[j]);
        if t[i].length == t[j].length {
          CrcOfLength(s, t, i, j);
        }
      }
      forall i, j {:trigger KeyRight(disk, t, i, j)} | 0 <= i < |t| && 0 <= j < |t| ensures KeyRight(disk, t, i, j) {
        assert i != j ==> KeyExact(t[i], t[j]);
      }
    }

    /** Entries of equal length stand side by side, so that both have got their CRC. */
    lemma CrcOfLength(s: Files, t: Files, i: int, j: int)
      requires |s| == |t| && Sorted(s) && 0 <= i < |s| && 0 <= j < |s| && i != j
      requires forall k | 0 <= k < |s| :: MaybeCrc(s[k], t[k])
      requires forall p {:trigger PairDone(s, t, p)} | 0 < p < |s| :: PairDone(s, t, p)
      requires t[i].length == t[j].length
      ensures t[i] == WithCrc(s[i]) && t[j] == WithCrc(s[j])
    {
      var a, b := if i < j then i else j, if i < j then j else i;
      assert MaybeCrc(s[a], t[a]) && MaybeCrc(s[b], t[b]);
      assert InOrder(s, a, b);
      assert a + 1 < b ==> InOrder(s, a, a + 1) && InOrder(s, a + 1, b) && InOrder(s, a, b - 1) && InOrder(s, b - 1, b);
      assert PairDone(s, t, a + 1) && PairDone(s, t, b);
    }

    // ----- scan2 -----

    /** The first `n` entries are as after the link scan of `s`, the others as in `s`. */
    ghost predicate LinkedUpTo(s: Files, n: int)
      reads filelist
    {
      && |s| == filelist.Length
      && (forall i {:trigger LinkedAt(s, i)} | 0 <= i < n && i < |s| :: filelist[i] == LinkedAt(s, i))
      && (forall i {:trigger filelist[i]} | 0 <= n <= i < |s| :: filelist[i] == s[i])
    }

    /** The link scan of `scan2`. */
    method Scan2Links() returns (out: seq<Line>)
      requires forall i | 0 <= i < filelist.Length :: !filelist[i].lnk
      modifies filelist
      ensures filelist[..] == Linked(old(filelist[..]))
      ensures out == if linkflag then LinkReport(old(filelist[..]), filelist.Length) else []
      ensures linkflag && UniqueNames(old(filelist[..])) ==> PrintsLinks(old(filelist[..]), out)
    {
      ghost var s := filelist[..];
      out := [];
      var ix := 0;
      while ix < filelist.Length
        invariant 0 <= ix <= filelist.Length
        invariant ix < filelist.Length ==> !IsLink(s, ix)
        invariant LinkedUpTo(s, ix)
        invariant out == if linkflag then LinkReport(s, ix) else []
      {
        ix, out := LinkRun(ix, out, s);
      }
      assert forall i {:trigger LinkedAt(s, i)} | 0 <= i < |s| :: filelist[i] == LinkedAt(s, i);
      if UniqueNames(s) {
        LinkReportPrints(s);
      }
    }

    /** One entry with the inode of entry `ix`: it is flagged and printed. */
    method LinkEntry(ix: int, ix2: int, inmatch: bool, out: seq<Line>, ghost s: Files) returns (out': seq<Line>)
      requires 0 <= ix < ix2 < filelist.Length && LinkedUpTo(s, ix2) && filelist[ix] == s[ix]
      requires IsLink(s, ix2) && (IsLink(s, ix2 - 1) <==> ix + 1 < ix2) && (linkflag ==> (inmatch <==> ix + 1 < ix2))
      requires out == if linkflag then LinkReport(s, ix2) else []
      modifies filelist
      ensures LinkedUpTo(s, ix2 + 1) && filelist[ix] == s[ix]
      ensures out' == if linkflag then LinkReport(s, ix2 + 1) else []
    {
      hide IsLink;
      ghost var t := filelist[..];
      out' := out;
      if linkflag {
        if !inmatch {
          out' := out' + [LinkFile(filelist[ix].name)];
        }
        out' := out' + [Link(filelist[ix2].name)];
      }
      assert filelist[ix2] == s[ix2];
      filelist[ix2] := filelist[ix2].(lnk := true);
      assert filelist[ix2] == LinkedAt(s, ix2);
    }

    /** The inner loop: the entries with the inode of entry `ix`. */
    method LinkRun(ix: int, out: seq<Line>, ghost s: Files) returns (ix2: int, out': seq<Line>)
      requires 0 <= ix < filelist.Length && LinkedUpTo(s, ix) && !IsLink(s, ix) && !s[ix].lnk
      requires out == if linkflag then LinkReport(s, ix) else []
      modifies filelist
      ensures ix < ix2 <= filelist.Length && LinkedUpTo(s, ix2)
      ensures ix2 < filelist.Length ==> !IsLink(s, ix2)
      ensures out' == if linkflag then LinkReport(s, ix2) else []
    {
      hide Described, Valid;
      var inmatch := false;
      ix2, out' := ix + 1, out;
      assert filelist[ix] == LinkedAt(s, ix);
      while ix2 < filelist.Length && SameInode(filelist[ix], filelist[ix2])
        invariant ix < ix2 <= filelist.Length && LinkedUpTo(s, ix2) && SameInode(s[ix], s[ix2 - 1])
        invariant filelist[ix] == s[ix]
        invariant ix + 1 < ix2 ==> IsLink(s, ix2 - 1)
        invariant linkflag ==> (inmatch <==> ix + 1 < ix2)
        invariant out' == if linkflag then LinkReport(s, ix2) else []
      {
        out' := LinkEntry(ix, ix2, inmatch, out', s);
        inmatch := inmatch || linkflag;
        ix2 := ix2 + 1;
      }
    }

    /** `filelist[ix2]` moves to position `lastix`; the entries between move up by one. */
    method Rotate(lastix: int, ix2: int)
      requires 0 <= lastix <= ix2 < filelist.Length && filelist[ix2].dup
      modifies filelist
      ensures filelist[..] == Rotated(old(filelist[..]), lastix, ix2)
    {
      hide Rotated;
      ghost var s := filelist[..];
      var wkdesc := filelist[ix2];
      var n1 := ix2;
      while n1 > lastix
        invariant lastix <= n1 <= ix2
        invariant forall i {:trigger filelist[i]} | 0 <= i < filelist.Length ::
                    filelist[i] == if n1 < i <= ix2 then s[i - 1] else s[i]
      {
        filelist[n1] := filelist[n1 - 1];
        n1 := n1 - 1;
      }
      filelist[lastix] := wkdesc;
      assert wkdesc.(dup := true) == wkdesc;
      RotatedAt(s, lastix, ix2, lastix);
      forall i | 0 <= i < |s| ensures filelist[..][i] == Rotated(s, lastix, ix2)[i] {
        RotatedAt(s, lastix, ix2, i);
      }
    }

    /**
     * The inner loop of the duplicate scan: all is well so far, or different files stand in one group and the list is
     * a misleading one.
     */
    ghost predicate Scanning(well: bool, p: int, ix: int, m: int, ix2: int, lastix: int, lnkmatch: bool, prev: FileDesc)
      reads filelist
    {
      && Valid() && 0 <= ix < m <= ix2 <= filelist.Length && ix < lastix && m - 1 <= lastix <= m
      && !filelist[0].dup
      && if well then Turn(disk, filelist[..], p, ix, m, ix2, lastix, lnkmatch, prev)
         else Broken(disk, filelist[..], m) && Misled(disk, filelist[..])
    }

    /** The outer loop. */
    ghost predicate AtHead(well: bool, p: int, ix: int)
      reads filelist
    {
      && Valid() && 0 <= ix <= filelist.Length && (filelist.Length > 0 ==> !filelist[0].dup)
      && if well then Round(disk, filelist[..], p, ix)
         else Broken(disk, filelist[..], ix + 1) && Misled(disk, filelist[..])
    }

    /** One entry of the inner loop of the duplicate scan, with the head's length and CRC. */
    method ScanEntry(ix: int, ix2: int, lastix: int, lnkmatch: bool,
                     ghost well: bool, ghost p: int, ghost m: int, ghost prev: FileDesc)
      returns (lastix': int, lnkmatch': bool, ghost well': bool, ghost m': int)
      requires Scanning(well, p, ix, m, ix2, lastix, lnkmatch, prev) && ix2 < filelist.Length
      requires SameKey(filelist[ix], filelist[ix2])
      modifies filelist
      ensures Scanning(well', p, ix, m', ix2 + 1, lastix', lnkmatch', old(filelist[ix2]))
      ensures multiset(Unflagged(filelist[..])) == multiset(Unflagged(old(filelist[..])))
      ensures var s := old(filelist[..]);
        var hit := (s[ix2].lnk && lnkmatch) || Alike(disk, s[ix], s[ix2]);
        && lnkmatch' == hit && lastix' == (if hit && lastix != ix2 then lastix + 1 else lastix)
        && filelist[..] == if hit then s[..lastix] + [s[ix2].(dup := true)] + s[lastix..ix2] + s[ix2 + 1..] else s
    {
      hide EndsOnEof, Unflagged, Turn, Misled, Broken, Marks;
      ghost var s := filelist[..];
      lastix', lnkmatch', well', m' := lastix, lnkmatch, well, m;
      var match_ := filelist[ix2].lnk && lnkmatch;
      if !match_ {
        var r := FullCmp(Content(disk, filelist[ix]), Content(disk, filelist[ix2]));
        match_ := r == 0;
      }
      assert match_ <==> (s[ix2].lnk && lnkmatch) || Alike(disk, s[ix], s[ix2]);
      if match_ {
        filelist[ix2] := filelist[ix2].(dup := true);
        RotateFlagged(s, lastix, ix2);
        assert filelist[..] == s[ix2 := s[ix2].(dup := true)];
        if lastix != ix2 {
          Rotate(lastix, ix2);
          lastix' := lastix + 1;
        }
        lnkmatch', m' := true, m + 1;
        well' := Matched(s, well, p, ix, m, ix2, lastix, lnkmatch, prev);
        RotatedAt(s, lastix, ix2, 0);
        forall i | 0 <= i < filelist.Length ensures Described(filelist[i]) {
          RotatedAt(s, lastix, ix2, i);
        }
      } else {
        lnkmatch' := false;
        if well {
          Missed(s, p, ix, m, ix2, lastix, lnkmatch, prev);
        }
      }
    }

    /** A match is right or breaks a group for good. */
    lemma Matched(s: Files, well: bool, p: int, ix: int, m: int, ix2: int, lastix: int, lnkmatch: bool, prev: FileDesc)
      returns (well': bool)
      requires 0 <= ix < m <= ix2 < |s| && ix < lastix && m - 1 <= lastix <= m && SameKey(s[ix], s[ix2])
      requires if well then Turn(disk, s, p, ix, m, ix2, lastix, lnkmatch, prev)
               else Broken(disk, s, m) && Misled(disk, s)
      requires (s[ix2].lnk && lnkmatch) || Alike(disk, s[ix], s[ix2])
      ensures var t := Rotated(s, lastix, ix2);
        && multiset(Unflagged(t)) == multiset(Unflagged(s))
        && if well' then
             Turn(disk, t, p, ix, m + 1, ix2 + 1, if lastix == ix2 then lastix else lastix + 1, true, s[ix2])
           else Broken(disk, t, m + 1) && Misled(disk, t)
    {
      hide Rotated, EndsOnEof, Unflagged, Misled, Broken, Marks, Sifted, InodesFrom, HeadApart, LinksFlagged, Inner;
      var t := Rotated(s, lastix, ix2);
      RotatedUnflagged(s, lastix, ix2);
      well' := well && SameContent(Marks(disk), s, ix, ix2);
      if well' {
        MatchTurn(disk, s, p, ix, m, ix2, lastix, lnkmatch, prev);
      } else if well {
        LinkShortcut(Marks(disk), s, p, ix, m, ix2, lastix, lnkmatch, prev);
        MistakeIsMisled(disk, s, p, ix, m, ix2, lastix, lnkmatch, prev);
        BreaksGroup(disk, s, p, ix, m, ix2, lastix, lnkmatch, prev);
        PermutedMisled(disk, s, t);
      } else {
        StaysBroken(disk, s, m, lastix, ix2);
        PermutedMisled(disk, s, t);
      }
    }

    /** A miss is right. */
    lemma Missed(s: Files, p: int, ix: int, m: int, ix2: int, lastix: int, lnkmatch: bool, prev: FileDesc)
      requires Turn(disk, s, p, ix, m, ix2, lastix, lnkmatch, prev) && ix2 < |s| && SameKey(s[ix], s[ix2])
      requires !(s[ix2].lnk && lnkmatch) && !Alike(disk, s[ix], s[ix2])
      ensures Turn(disk, s, p, ix, m, ix2 + 1, lastix, false, s[ix2])
    {
      hide Marks, EndsOnEof, Sifted, InodesFrom, HeadApart, LinksFlagged, Settled, Keyed, KeySorted, Part;
      if SameContent(Marks(disk), s, ix, ix2) {
        MarksMatch(disk, s, p, ix, m, ix2, lastix, lnkmatch, prev);
      } else {
        MissTurn(disk, s, p, ix, m, ix2, lastix, lnkmatch, prev);
      }
    }

    lemma RotateFlagged(s: Files, a: int, b: int)
      requires 0 <= a <= b < |s|
      ensures Rotated(s[b := s[b].(dup := true)], a, b) == Rotated(s, a, b)
      ensures a == b ==> s[b := s[b].(dup := true)] == Rotated(s, a, b)
    {
    }

    /** The duplicate scan of `scan2`: it groups the files by their marks, unless the list misleads it. */
    method Scan2Dups()
      requires Valid() && Keyed(disk, filelist[..]) && KeySorted(filelist[..], 0)
      requires InodesFrom(filelist[..], 0) && LinksFlagged(filelist[..])
      requires forall i {:trigger Untouched(filelist[..], 0, i)} | 0 <= i < filelist.Length ::
        Untouched(filelist[..], 0, i)
      modifies filelist
      ensures Valid() && (filelist.Length > 0 ==> !filelist[0].dup)
      ensures multiset(Unflagged(filelist[..])) == multiset(Unflagged(old(filelist[..])))
      ensures if Misled(disk, old(filelist[..])) then Broken(disk, filelist[..], filelist.Length)
              else Settled(Marks(disk), filelist[..], filelist.Length) && HeadsInOrder(filelist[..])
    {
      hide Unflagged, Misled, Broken, Round, Marks;
      ghost var s := filelist[..];
      var ix := 0;
      ghost var p, well := 0, true;
      FirstRound(s);
      assert filelist.Length > 0 ==> Untouched(s, 0, 0);
      while ix < filelist.Length
        invariant AtHead(well, p, ix)
        invariant multiset(Unflagged(filelist[..])) == multiset(Unflagged(s))
        decreases filelist.Length - ix
      {
        ix, well, p := ScanGroup(ix, well, p);
      }
      LastRound(s, filelist[..], well, p, ix);
    }

    /** Whatever heads a group comes, as `comp1` orders, before all that stands behind it. */
    ghost predicate HeadsInOrder(s: Files) {
      forall i, j {:trigger InOrder(s, i, j)} | 0 <= i < j < |s| && !s[i].dup :: InOrder(s, i, j)
    }

    lemma FirstRound(s: Files)
      requires Keyed(disk, s) && KeySorted(s, 0) && InodesFrom(s, 0) && LinksFlagged(s)
      requires forall i {:trigger Untouched(s, 0, i)} | 0 <= i < |s| :: Untouched(s, 0, i)
      ensures Round(disk, s, 0, 0)
    {
      hide Marks, Keyed, LinksFlagged, InodeOrder, Passed;
      MarksKeyed(disk, s);
    }

    lemma LastRound(s: Files, t: Files, well: bool, p: int, ix: int)
      requires multiset(Unflagged(s)) == multiset(Unflagged(t)) && ix == |t|
      requires if well then Round(disk, t, p, ix) else Broken(disk, t, ix + 1) && Misled(disk, t)
      ensures if Misled(disk, s) then Broken(disk, t, |t|) else Settled(Marks(disk), t, |t|) && HeadsInOrder(t)
    {
      hide Misled, Marks, Unflagged, Keyed, KeySorted, InodesFrom, LinksFlagged;
      if well {
        assert p == |t|;
        NotMisled(disk, t, ix);
        forall i, j | 0 <= i < j < |t| && !t[i].dup
          ensures InOrder(t, i, j)
        {
          HeadsOrdered(disk, t, ix, i, j);
        }
        if Misled(disk, s) {
          PermutedMisled(disk, s, t);
        }
      } else {
        PermutedMisled(disk, t, s);
      }
    }

    /** One round of the outer loop: the group of head `ix`. */
    method ScanGroup(ix: int, ghost well: bool, ghost p: int) returns (lastix: int, ghost well': bool, ghost m: int)
      requires AtHead(well, p, ix) && ix < filelist.Length
      modifies filelist
      ensures AtHead(well', m, lastix) && ix < lastix
      ensures multiset(Unflagged(filelist[..])) == multiset(Unflagged(old(filelist[..])))
    {
      hide Round, Turn, Misled, Unflagged, Broken, Alike, SameInode;
      if well {
        EnterTurn(disk, filelist[..], p, ix);
      }
      var ix2, lnkmatch := ix + 1, true;
      lastix := ix + 1;
      ghost var prev := filelist[ix];
      m, well' := ix + 1, well;
      while ix2 < filelist.Length && SameKey(filelist[ix], filelist[ix2])
        invariant Scanning(well', p, ix, m, ix2, lastix, lnkmatch, prev)
        invariant multiset(Unflagged(filelist[..])) == multiset(Unflagged(old(filelist[..])))
        decreases filelist.Length - ix2
      {
        ghost var e := filelist[ix2];
        lastix, lnkmatch, well', m := ScanEntry(ix, ix2, lastix, lnkmatch, well', p, m, prev);
        prev := e;
        ix2 := ix2 + 1;
      }
      if !well' {
        BrokenLater(disk, filelist[..], m, lastix + 1);
      } else {
        ExitTurn(disk, filelist[..], p, ix, m, ix2, lastix, lnkmatch, prev);
      }
    }

    // ----- scan3 -----

    /** `scan3`: print the groups. */
    method Scan3() returns (out: seq<Line>)
      requires filelist.Length > 0 ==> !filelist[0].dup
      ensures out == Report(filelist[..], linkflag, filelist.Length)
      ensures UniqueNames(filelist[..]) ==> Prints(filelist[..], linkflag, out)
    {
      ghost var s := filelist[..];
      out := [];
      var ix, inmatch, headfn := 0, true, None;
      while ix < filelist.Length
        invariant 0 <= ix <= filelist.Length
        invariant inmatch <==> ix == 0 || s[ix - 1].dup
        invariant 0 < ix && inmatch ==>
                    headfn == PendingHead(s, linkflag, ix - 1, ix)
        invariant out == Report(s, linkflag, ix)
      {
        if filelist[ix].dup {
          PendingStep(s, linkflag, ix);
          if !inmatch {
            headfn := Some(filelist[ix - 1].name);
          }
          inmatch := true;
          if linkflag || !filelist[ix].lnk {
            if headfn != None {
              out := out + [File(headfn.value)];
              headfn := None;
            }
            out := out + [Dup(filelist[ix].name)];
          }
        } else {
          inmatch := false;
        }
        ix := ix + 1;
      }
      if UniqueNames(s) {
        ReportPrints(s, linkflag);
      }
    }

    // ----- the whole program -----

    /**
     * finddup on the list it has built: sort, CRC scan, duplicate scan, report. Unless the list is confused, two files
     * stand in one group exactly if they are one file, or have one content that `fullcmp` does not tell from itself.
     * If and only if the list is neither confused nor overlooked, any two stand together exactly if their bytes are
     * equal. With links hidden one file of each inode counts.
     */
    method Run() returns (links: seq<Line>, out: seq<Line>)
      requires Valid() && Fresh() && UniqueNames(filelist[..])
      modifies filelist
      ensures multiset(Ids(filelist[..])) == multiset(Ids(old(filelist[..]))) && UniqueNames(filelist[..])
      ensures LinksFlagged(filelist[..]) && Prints(filelist[..], linkflag, out)
      ensures out == Report(filelist[..], linkflag, filelist.Length)
      ensures if linkflag then LinksTold(links, old(filelist[..])) && LinksPrinted(links, filelist[..]) else links == []
      ensures !Confused(old(filelist[..])) ==> DupsFlagged(filelist[..]) && HeadsInOrder(filelist[..])
      ensures linkflag && !Confused(old(filelist[..])) ==> MarksTold(out, old(filelist[..]))
      ensures linkflag ==>
        (DuplicatesTold(out, old(filelist[..])) <==> !Confused(old(filelist[..])) && !Overlooked(old(filelist[..])))
      ensures !Confused(old(filelist[..])) ==> UnlinkedTold(out, filelist[..])
    {
      hide Unflagged, Misled, Confused, Overlooked, KeysExact, Marks, Broken, Prints, PrintsLinks;
      ghost var s0 := filelist[..];
      QSort();
      IdsPermute(s0, filelist[..]);
      FreshPermuted(s0, filelist[..]);
      Scan1();
      ghost var s2 := filelist[..];
      UniquePermuted(s0, s2);
      links := Scan2Links();
      LinksOfFiles(s0, s2);
      LinkedReady(s2);
      LinkedFlagged(disk, s2);
      ConfusedList(s0, Linked(s2));
      Scan2Dups();
      ghost var s := filelist[..];
      PermutedFlagged(Linked(s2), s);
      UnflaggedIds(Linked(s2), s);
      UniquePermuted(s0, s);
      if linkflag {
        LinksOfList(s2, s, links);
      }
      out := Scan3();
      FilesOfReport(s0, s);
      if !Confused(s0) {
        FlagsOfList(s);
      }
    }

    /** An entry is flagged as a duplicate exactly if it is one, as the program can see, of an earlier entry. */
    ghost predicate DupsFlagged(s: Files) {
      forall i | 0 <= i < |s| :: s[i].dup <==> exists j | 0 <= j < i ::
        Content(disk, s[j]) == Content(disk, s[i]) && (SameInode(s[j], s[i]) || Alike(disk, s[j], s[j]))
    }

    /** The hard link summary has the flagged files, and as heads the unflagged ones that share their inode. */
    ghost predicate LinksPrinted(lines: seq<Line>, s: Files) {
      forall i | 0 <= i < |s| ::
        && (Link(s[i].name) in lines <==> s[i].lnk)
        && (LinkFile(s[i].name) in lines <==> !s[i].lnk && exists j | 0 <= j < |s| :: j != i && SameInode(s[j], s[i]))
    }

    lemma FlagsOfList(s: Files)
      requires Settled(Marks(disk), s, |s|)
      ensures DupsFlagged(s)
    {
      hide Marks, Settled, EndsOnEof;
      forall i | 0 <= i < |s|
        ensures s[i].dup <==> exists j | 0 <= j < i ::
          Content(disk, s[j]) == Content(disk, s[i]) && (SameInode(s[j], s[i]) || Alike(disk, s[j], s[j]))
      {
        FlaggedIfRepeats(Marks(disk), s, i);
        forall j | 0 <= j < i
          ensures SameContent(Marks(disk), s, j, i)
             <==> Content(disk, s[j]) == Content(disk, s[i]) && (SameInode(s[j], s[i]) || Alike(disk, s[j], s[j]))
        {
          MarksAgree(disk, s[j], s[i]);
        }
      }
    }

    /** Entry `i` of the sorted list shares its inode with the next one, or it is the last of its inode. */
    lemma NextOfInode(s: Files, i: int, j: int)
      requires Sorted(s) && Keyed(disk, s) && 0 <= i < j < |s| && SameInode(s[i], s[j])
      ensures SameInode(s[i], s[i + 1])
    {
      Between(disk, s, i, i + 1, j);
    }

    lemma LinksOfList(s: Files, t: Files, lines: seq<Line>)
      requires Sorted(s) && Keyed(disk, s) && (forall i | 0 <= i < |s| :: !s[i].lnk) && PrintsLinks(s, lines)
      requires multiset(Unflagged(Linked(s))) == multiset(Unflagged(t))
      ensures LinksPrinted(lines, t)
    {
      hide Sorted, Keyed, InListOrder;
      var u, v := Unflagged(Linked(s)), Unflagged(t);
      forall i | 0 <= i < |t|
        ensures Link(t[i].name) in lines <==> t[i].lnk
        ensures LinkFile(t[i].name) in lines
           <==> !t[i].lnk && exists j | 0 <= j < |t| :: j != i && SameInode(t[j], t[i])
      {
        assert v[i] in multiset(u);
        var i' :| 0 <= i' < |u| && u[i'] == v[i];
        assert LinkPrinted(s, lines, i');
        assert t[i].lnk == IsLink(s, i');
        if !t[i].lnk {
          SharesInode(s, t, i', i);
        }
      }
    }

    /** The first of its inode shares it with another entry exactly if it shares it with the next of the sorted list. */
    lemma SharesInode(s: Files, t: Files, i': int, i: int)
      requires Sorted(s) && Keyed(disk, s) && multiset(Unflagged(Linked(s))) == multiset(Unflagged(t))
      requires 0 <= i' < |s| && 0 <= i < |t| && Unflagged(Linked(s))[i'] == Unflagged(t)[i] && !IsLink(s, i')
      requires !s[i'].lnk
      ensures i' + 1 < |s| && SameInode(s[i'], s[i' + 1])
         <==> exists j | 0 <= j < |t| :: j != i && SameInode(t[j], t[i])
    {
      hide Sorted, Keyed;
      var u, v := Unflagged(Linked(s)), Unflagged(t);
      if i' + 1 < |s| && SameInode(s[i'], s[i' + 1]) {
        assert u[i' + 1] in multiset(v);
        var j :| 0 <= j < |v| && v[j] == u[i' + 1];
        assert u[i' + 1].lnk && !u[i'].lnk;
        assert j != i && SameInode(t[j], t[i]);
      }
      if j :| 0 <= j < |t| && j != i && SameInode(t[j], t[i]) {
        var a, b := PermutedPair(u, v, i, j);
        LinksAreClasses(disk, s, i');
        LinksAreClasses(disk, s, a);
        LinksAreClasses(disk, s, b);
        var c := if a == i' then b else a;
        assert c != i' && SameInode(s[c], s[i']);
        assert i' < c;
        NextOfInode(s, i', c);
      }
    }

    lemma ConfusedList(s: Files, t: Files)
      requires multiset(Ids(s)) == multiset(Ids(t)) && KeysExact(t)
      ensures Misled(disk, t) <==> Confused(s)
    {
      hide Misled, Confused, KeysExact, Ids;
      ConfusedIsMisled(t);
      if Confused(s) {
        InodesConfused(s, t);
      } else if Confused(t) {
        InodesConfused(t, s);
      }
    }

    /** Two files are told as duplicates exactly if their contents are equal. */
    ghost predicate DuplicatesTold(out: seq<Line>, s: Files) {
      forall i, j | 0 <= i < j < |s| ::
        Together(out, s[i].name, s[j].name) <==> Content(disk, s[i]) == Content(disk, s[j])
    }

    /** Two files are told as duplicates exactly if they are one file, or equal as `fullcmp` can see. */
    ghost predicate MarksTold(out: seq<Line>, s: Files) {
      forall i, j | 0 <= i < j < |s| ::
        Together(out, s[i].name, s[j].name)
        <==> Content(disk, s[i]) == Content(disk, s[j]) && (SameInode(s[i], s[j]) || Alike(disk, s[i], s[i]))
    }

    /** The same of files that are no links, which are never one file. */
    ghost predicate UnlinkedTold(out: seq<Line>, s: Files) {
      forall i, j | 0 <= i < j < |s| && !s[i].lnk && !s[j].lnk ::
        Together(out, s[i].name, s[j].name)
        <==> Content(disk, s[i]) == Content(disk, s[j]) && Alike(disk, s[i], s[i])
    }

    ghost predicate LinksTold(out: seq<Line>, s: Files) {
      forall i, j | 0 <= i < j < |s| :: Together(out, s[i].name, s[j].name) <==> SameInode(s[i], s[j])
    }

    lemma {:induction false} FilesOfReport(s0: Files, s: Files)
      requires multiset(Ids(s0)) == multiset(Ids(s)) && UniqueNames(s) && UniqueNames(s0) && LinksFlagged(s)
      requires NoHead(s)
      requires if Confused(s0) then Broken(disk, s, |s|) else Settled(Marks(disk), s, |s|)
      ensures linkflag && !Confused(s0) ==> MarksTold(Report(s, linkflag, |s|), s0)
      ensures linkflag ==>
        (DuplicatesTold(Report(s, linkflag, |s|), s0) <==> !Confused(s0) && !Overlooked(s0))
      ensures !Confused(s0) ==> UnlinkedTold(Report(s, linkflag, |s|), s)
    {
      hide Together, Report, UniqueNames, Settled, Ids, Marks, Confused, Broken, EndsOnEof, NoHead, LinksFlagged;
      hide MarksTold, DuplicatesTold, Overlooked, UnlinkedTold;
      if Confused(s0) {
        if linkflag {
          BrokenReport(s0, s);
        }
      } else {
        UnlinkedReport(s);
        if linkflag {
          MarksReport(s0, s);
          ToldExactly(Report(s, true, |s|), s0);
        }
      }
    }

    /** Grouping by marks is grouping by contents exactly when no file is overlooked. */
    lemma ToldExactly(out: seq<Line>, s: Files)
      requires MarksTold(out, s)
      ensures DuplicatesTold(out, s) <==> !Overlooked(s)
    {
      hide Together, EndsOnEof;
      if i, j :| 0 <= i < |s| && 0 <= j < |s| && Overlooks(s[i], s[j]) {
        var a, b := if i < j then i else j, if i < j then j else i;
        assert !(Together(out, s[a].name, s[b].name) <==> Content(disk, s[a]) == Content(disk, s[b]));
      } else {
        forall i, j | 0 <= i < j < |s|
          ensures Together(out, s[i].name, s[j].name) <==> Content(disk, s[i]) == Content(disk, s[j])
        {
          assert !Overlooks(s[i], s[j]);
        }
      }
    }

    lemma {:induction false} MarksReport(s0: Files, s: Files)
      requires multiset(Ids(s0)) == multiset(Ids(s)) && UniqueNames(s) && UniqueNames(s0)
      requires Settled(Marks(disk), s, |s|)
      ensures MarksTold(Report(s, true, |s|), s0)
    {
      hide Together, Report, UniqueNames, Settled, Ids, Marks, EndsOnEof;
      forall i, j | 0 <= i < j < |s0|
        ensures Together(Report(s, true, |s|), s0[i].name, s0[j].name)
           <==> Content(disk, s0[i]) == Content(disk, s0[j]) && (SameInode(s0[i], s0[j]) || Alike(disk, s0[i], s0[i]))
      {
        ReportOfFiles(s0, s, i, j);
        MarksAgree(disk, s0[i], s0[j]);
      }
    }

    lemma {:induction false} UnlinkedReport(s: Files)
      requires UniqueNames(s) && LinksFlagged(s) && Settled(Marks(disk), s, |s|)
      ensures UnlinkedTold(Report(s, linkflag, |s|), s)
    {
      hide Together, Report, UniqueNames, Settled, Marks, EndsOnEof, HasFirst;
      forall i, j | 0 <= i < j < |s| && !s[i].lnk && !s[j].lnk
        ensures Together(Report(s, linkflag, |s|), s[i].name, s[j].name)
           <==> Content(disk, s[i]) == Content(disk, s[j]) && Alike(disk, s[i], s[i])
      {
        ReportIsExact(Marks(disk), s, linkflag, i, j);
        MarksAgree(disk, s[i], s[j]);
        assert FirstsApart(s, i, j);
      }
    }

    /** A broken group is seen in the report. */
    lemma {:induction false} BrokenReport(s0: Files, s: Files)
      requires multiset(Ids(s0)) == multiset(Ids(s)) && UniqueNames(s) && NoHead(s) && Broken(disk, s, |s|)
      ensures !DuplicatesTold(Report(s, true, |s|), s0)
    {
      hide Together, Report, Ids, Visible, HeadOf;
      var a, b :| DupRun(s, a, b) && b < |s| && Content(disk, s[a]) != Content(disk, s[b]);
      HeadOfRun(s, a, b);
      DuplicatesVisible(s, true, a, b);
      TogetherIffOneHead(s, true, a, b);
      var i := IdsMember(s, s0, a);
      var j := IdsMember(s, s0, b);
      TogetherSymmetric(Report(s, true, |s|), s[a].name, s[b].name);
      var k, l := if i < j then i else j, if i < j then j else i;
      assert Together(Report(s, true, |s|), s0[k].name, s0[l].name);
    }

    lemma {:induction false} LinksOfFiles(s0: Files, s: Files)
      requires multiset(Ids(s0)) == multiset(Ids(s)) && UniqueNames(s) && UniqueNames(s0)
      requires Sorted(s) && Keyed(disk, s)
      ensures LinksTold(LinkReport(s, |s|), s0)
    {
      hide Together, LinkReport, Sorted, Keyed, Ids;
      forall i, j | 0 <= i < j < |s0|
        ensures Together(LinkReport(s, |s|), s0[i].name, s0[j].name) <==> SameInode(s0[i], s0[j])
      {
        var a := IdsMember(s0, s, i);
        var b := IdsMember(s0, s, j);
        assert NamesDiffer(s0, i, j);
        LinkReportIsExact(disk, s, if a < b then a else b, if a < b then b else a);
        TogetherSymmetric(LinkReport(s, |s|), s[a].name, s[b].name);
      }
    }

    lemma FreshPermuted(s0: Files, s1: Files)
      requires multiset(s1) == multiset(s0) && forall i | 0 <= i < |s0| :: Described(s0[i])
      ensures forall i | 0 <= i < |s1| :: Described(s1[i]) && s1[i] in s0
    {
      forall i | 0 <= i < |s1|
        ensures s1[i] in s0
      {
        assert s1[i] in multiset(s1);
      }
    }

    lemma LinkedReady(s: Files)
      requires Sorted(s) && Keyed(disk, s) && KeysExact(s)
      requires forall i | 0 <= i < |s| :: !s[i].dup && !s[i].lnk && Described(s[i])
      ensures Keyed(disk, Linked(s)) && KeysExact(Linked(s)) && KeySorted(Linked(s), 0) && InodesFrom(Linked(s), 0)
      ensures Ids(Linked(s)) == Ids(s)
      ensures forall i {:trigger Untouched(Linked(s), 0, i)} | 0 <= i < |Linked(s)| :: Untouched(Linked(s), 0, i)
      ensures forall i | 0 <= i < |s| :: Described(Linked(s)[i])
    {
      var t := Linked(s);
      forall i, j {:trigger KeyRight(disk, t, i, j)} | 0 <= i < |t| && 0 <= j < |t| ensures KeyRight(disk, t, i, j) {
        assert KeyRight(disk, s, i, j);
      }
      forall i, j {:trigger KeyExact(t[i], t[j])} | 0 <= i < |t| && 0 <= j < |t| && i != j
        ensures KeyExact(t[i], t[j])
      {
        assert KeyExact(s[i], s[j]);
      }
      forall i, j | 0 <= i < j < |t|
        ensures KeyLe(t, i, j) && InodeOrder(t, i, j)
      {
        assert InOrder(s, i, j);
      }
      forall i | 0 <= i < |s| ensures Described(t[i]) {
        assert Described(s[i]);
      }
    }

    lemma {:induction false} ReportOfFiles(s0: Files, s: Files, i: int, j: int)
      requires multiset(Ids(s0)) == multiset(Ids(s)) && UniqueNames(s) && UniqueNames(s0)
      requires Settled(Marks(disk), s, |s|) && 0 <= i < j < |s0|
      ensures Together(Report(s, true, |s|), s0[i].name, s0[j].name)
         <==> Content(Marks(disk), s0[i]) == Content(Marks(disk), s0[j])
    {
      hide Marks;
      var a := IdsMember(s0, s, i);
      var b := IdsMember(s0, s, j);
      assert NamesDiffer(s0, i, j);
      if a < b {
        ReportIsExact(Marks(disk), s, true, a, b);
      } else {
        ReportIsExact(Marks(disk), s, true, b, a);
        TogetherSymmetric(Report(s, true, |s|), s[a].name, s[b].name);
      }
    }
  }
}
