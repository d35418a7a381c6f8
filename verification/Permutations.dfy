/** Reordering a file list keeps the files that are on it. */
module Permutations {
  import opened FileRecords
  import opened DupScan
  import opened DupReport

  function Ids(s: Files): seq<FileId> {
    seq(|s|, i requires 0 <= i < |s| => Id(s[i]))
  }

  function Without<T>(t: seq<T>, k: int): seq<T>
    requires 0 <= k < |t|
  {
    t[..k] + t[k + 1..]
  }

  lemma TakeOut<T>(t: seq<T>, k: int)
    requires 0 <= k < |t|
    ensures multiset(t) == multiset(Without(t, k)) + multiset{t[k]}
  {
    assert t == t[..k] + [t[k]] + t[k + 1..];
  }

  lemma TakeOutBoth(t: Files, k: int)
    requires 0 <= k < |t|
    ensures multiset(t) == multiset(Without(t, k)) + multiset{t[k]}
    ensures multiset(Ids(t)) == multiset(Ids(Without(t, k))) + multiset{Id(t[k])}
  {
    TakeOut(t, k);
    TakeOut(Ids(t), k);
    assert Ids(Without(t, k)) == Without(Ids(t), k);
  }

  lemma CancelOne<T>(a: multiset<T>, b: multiset<T>, x: T)
    requires a + multiset{x} == b + multiset{x}
    ensures a == b
  {
    assert a == a + multiset{x} - multiset{x} && b == b + multiset{x} - multiset{x};
  }

  /** Equal multisets of records give equal multisets of identities. */
  lemma IdsPermute(s: Files, t: Files)
    requires multiset(s) == multiset(t)
    ensures multiset(Ids(s)) == multiset(Ids(t))
    decreases |s|
  {
    assert |s| == |multiset(s)| == |multiset(t)| == |t|;
    if s != [] {
      assert s[0] in multiset(t);
      var k :| 0 <= k < |t| && t[k] == s[0];
      TakeOutBoth(s, 0);
      TakeOutBoth(t, k);
      CancelOne(multiset(Without(s, 0)), multiset(Without(t, k)), s[0]);
      IdsPermute(Without(s, 0), Without(t, k));
    }
  }

  /** Insertion into an ordered list. */
  function Inserted(f: FileDesc, s: Files): Files {
    if s == [] then [f]
    else if Comp1(f, s[0]) <= 0 then [f] + s
    else [s[0]] + Inserted(f, s[1..])
  }

  lemma Comp1Transitive(f: FileDesc, g: FileDesc, h: FileDesc)
    ensures Comp1(f, g) <= 0 && Comp1(g, h) <= 0 ==> Comp1(f, h) <= 0
    ensures Comp1(f, g) > 0 ==> Comp1(g, f) < 0
  {
  }

  lemma {:induction false} InsertedSorted(f: FileDesc, s: Files)
    requires Sorted(s)
    ensures Sorted(Inserted(f, s)) && multiset(Inserted(f, s)) == multiset(s) + multiset{f}
    decreases |s|
  {
    var t := Inserted(f, s);
    if s == [] {
    } else if Comp1(f, s[0]) <= 0 {
      forall i, j {:trigger InOrder(t, i, j)} | 0 <= i < j < |t| ensures InOrder(t, i, j) {
        assert i > 0 ==> InOrder(s, i - 1, j - 1);
        assert j > 1 ==> InOrder(s, 0, j - 1);
        Comp1Transitive(f, s[0], t[j]);
      }
    } else {
      forall i, j {:trigger InOrder(s[1..], i, j)} | 0 <= i < j < |s[1..]| ensures InOrder(s[1..], i, j) {
        assert InOrder(s, i + 1, j + 1);
      }
      InsertedSorted(f, s[1..]);
      assert s == [s[0]] + s[1..];
      forall i, j {:trigger InOrder(t, i, j)} | 0 <= i < j < |t| ensures InOrder(t, i, j) {
        InsertedLater(f, s, Inserted(f, s[1..]), i, j);
      }
    }
  }

  lemma HeadLeast(f: FileDesc, s: Files, g: FileDesc)
    requires s != [] && Sorted(s) && Comp1(f, s[0]) > 0 && (g == f || g in s[1..])
    ensures Comp1(s[0], g) <= 0
  {
    if g == f {
      Comp1Transitive(f, s[0], f);
    } else {
      var k :| 0 <= k < |s[1..]| && s[1..][k] == g;
      assert InOrder(s, 0, k + 1);
    }
  }

  lemma InsertedLater(f: FileDesc, s: Files, r: Files, i: int, j: int)
    requires s != [] && Sorted(s) && Comp1(f, s[0]) > 0 && Sorted(r)
    requires multiset(r) == multiset(s[1..]) + multiset{f} && 0 <= i < j < |r| + 1
    ensures InOrder([s[0]] + r, i, j)
  {
    if i > 0 {
      assert InOrder(r, i - 1, j - 1);
    } else {
      assert r[j - 1] in multiset(r);
      HeadLeast(f, s, r[j - 1]);
    }
  }

  /** One of the orders that `comp1` allows. */
  function Ordered(s: Files): Files {
    if s == [] then [] else Inserted(s[0], Ordered(s[1..]))
  }

  lemma {:induction false} OrderedSorted(s: Files)
    ensures Sorted(Ordered(s)) && multiset(Ordered(s)) == multiset(s)
    decreases |s|
  {
    if s == [] {
      assert Sorted(s);
    } else {
      OrderedSorted(s[1..]);
      InsertedSorted(s[0], Ordered(s[1..]));
      assert s == [s[0]] + s[1..];
    }
  }

  lemma SortedKeyed(disk: Disk, s: Files, t: Files)
    requires Keyed(disk, s) && multiset(s) == multiset(t)
    ensures Keyed(disk, t)
  {
    forall i, j {:trigger KeyRight(disk, t, i, j)} | 0 <= i < |t| && 0 <= j < |t| ensures KeyRight(disk, t, i, j) {
      assert t[i] in multiset(s) && t[j] in multiset(s);
      var i' :| 0 <= i' < |s| && s[i'] == t[i];
      var j' :| 0 <= j' < |s| && s[j'] == t[j];
      assert KeyRight(disk, s, i', j');
    }
  }

  /** Two entries of a rearranged list were two entries before. */
  lemma PermutedPair(s: Files, t: Files, i: int, j: int) returns (i': int, j': int)
    requires multiset(s) == multiset(t) && 0 <= i < |t| && 0 <= j < |t| && i != j
    ensures 0 <= i' < |s| && 0 <= j' < |s| && i' != j' && s[i'] == t[i] && s[j'] == t[j]
  {
    if t[i] == t[j] {
      TwiceInMultiset(t, if i < j then i else j, if i < j then j else i);
      TwiceInSequence(s, t[i]);
      i', j' :| 0 <= i' < j' < |s| && s[i'] == t[i] && s[j'] == t[i];
    } else {
      assert t[i] in multiset(s) && t[j] in multiset(s);
      i' :| 0 <= i' < |s| && s[i'] == t[i];
      j' :| 0 <= j' < |s| && s[j'] == t[j];
    }
  }

  lemma PermutedSigns(s: Files, t: Files)
    requires SignsKept(s) && multiset(s) == multiset(t)
    ensures SignsKept(t)
  {
    hide SignKept;
    forall i, j {:trigger SignKept(t[i], t[j])} | 0 <= i < |t| && 0 <= j < |t| && i != j
      ensures SignKept(t[i], t[j])
    {
      var i', j' := PermutedPair(s, t, i, j);
      assert SignKept(s[i'], s[j']);
    }
  }

  /** The records but for what the duplicate scan sets. */
  function Unflagged(s: Files): Files {
    seq(|s|, i requires 0 <= i < |s| => s[i].(dup := false))
  }

  lemma RotatedUnflagged(s: Files, a: int, b: int)
    requires 0 <= a <= b < |s|
    ensures multiset(Unflagged(Rotated(s, a, b))) == multiset(Unflagged(s))
  {
    var t := Rotated(s, a, b);
    assert Without(Unflagged(t), a) == Without(Unflagged(s), b);
    TakeOut(Unflagged(t), a);
    TakeOut(Unflagged(s), b);
  }

  lemma UnflaggedIds(s: Files, t: Files)
    requires multiset(Unflagged(s)) == multiset(Unflagged(t))
    ensures multiset(Ids(s)) == multiset(Ids(t))
  {
    IdsPermute(Unflagged(s), Unflagged(t));
    assert Ids(Unflagged(s)) == Ids(s) && Ids(Unflagged(t)) == Ids(t);
  }

  // ----- which files are flagged as links -----

  /** Some entry that is no link has the inode of entry `i`. */
  ghost predicate HasFirst(s: Files, i: int)
    requires 0 <= i < |s|
  {
    exists k :: 0 <= k < |s| && !s[k].lnk && SameInode(s[k], s[i])
  }

  predicate FirstsApart(s: Files, i: int, j: int)
    requires 0 <= i < |s| && 0 <= j < |s|
  {
    i != j && !s[i].lnk && !s[j].lnk ==> !SameInode(s[i], s[j])
  }

  /** Of the entries of one device and inode all but one are flagged as links. */
  ghost predicate LinksFlagged(s: Files) {
    && (forall i {:trigger HasFirst(s, i)} | 0 <= i < |s| :: HasFirst(s, i))
    && (forall i, j {:trigger FirstsApart(s, i, j)} | 0 <= i < |s| && 0 <= j < |s| :: FirstsApart(s, i, j))
  }

  lemma LinkedFirst(disk: Disk, s: Files, i: int)
    requires Sorted(s) && Keyed(disk, s) && 0 <= i < |s| && forall k | 0 <= k < |s| :: !s[k].lnk
    ensures HasFirst(Linked(s), i)
    decreases i
  {
    var t := Linked(s);
    if IsLink(s, i) {
      LinkedFirst(disk, s, i - 1);
      var k :| 0 <= k < |t| && !t[k].lnk && SameInode(t[k], t[i - 1]);
      assert SameInode(t[k], t[i]);
    } else {
      assert !t[i].lnk && SameInode(t[i], t[i]);
    }
  }

  /** The link scan leaves one file of each device and inode unflagged. */
  lemma LinkedFlagged(disk: Disk, s: Files)
    requires Sorted(s) && Keyed(disk, s) && forall k | 0 <= k < |s| :: !s[k].lnk
    ensures LinksFlagged(Linked(s))
  {
    hide Sorted, Keyed, HasFirst;
    var t := Linked(s);
    forall i | 0 <= i < |t|
      ensures HasFirst(t, i)
    {
      LinkedFirst(disk, s, i);
    }
    forall i, j | 0 <= i < |t| && 0 <= j < |t|
      ensures FirstsApart(t, i, j)
    {
      LinksAreClasses(disk, s, i);
      LinksAreClasses(disk, s, j);
    }
  }

  lemma PermutedFlagged(s: Files, t: Files)
    requires LinksFlagged(s) && multiset(Unflagged(s)) == multiset(Unflagged(t))
    ensures LinksFlagged(t)
  {
    var u, v := Unflagged(s), Unflagged(t);
    forall i | 0 <= i < |t|
      ensures HasFirst(t, i)
    {
      assert v[i] in multiset(u);
      var i' :| 0 <= i' < |u| && u[i'] == v[i];
      assert HasFirst(s, i');
      var k' :| 0 <= k' < |s| && !s[k'].lnk && SameInode(s[k'], s[i']);
      assert u[k'] in multiset(v);
      var k :| 0 <= k < |v| && v[k] == u[k'];
      assert !t[k].lnk && SameInode(t[k], t[i]);
    }
    forall i, j | 0 <= i < |t| && 0 <= j < |t|
      ensures FirstsApart(t, i, j)
    {
      if i != j {
        var i', j' := PermutedPair(u, v, i, j);
        assert FirstsApart(s, i', j');
      }
    }
  }

  lemma TwiceInMultiset<T>(q: seq<T>, i: int, j: int)
    requires 0 <= i < j < |q| && q[i] == q[j]
    ensures multiset(q)[q[i]] >= 2
  {
    TakeOut(q, j);
    assert Without(q, j)[i] == q[i];
    assert q[i] in multiset(Without(q, j));
  }

  lemma TwiceInSequence<T>(q: seq<T>, x: T)
    requires multiset(q)[x] >= 2
    ensures exists i, j :: 0 <= i < j < |q| && q[i] == x && q[j] == x
  {
    assert x in multiset(q);
    var i :| 0 <= i < |q| && q[i] == x;
    TakeOut(q, i);
    assert x in multiset(Without(q, i));
    var k :| 0 <= k < |Without(q, i)| && Without(q, i)[k] == x;
    var k' := if k < i then k else k + 1;
    assert q[k'] == x;
    if i < k' { assert q[i] == x && q[k'] == x; } else { assert q[k'] == x && q[i] == x; }
  }

  /** Every file of the one list is on the other. */
  lemma IdsMember(s: Files, t: Files, i: int) returns (k: int)
    requires multiset(Ids(s)) == multiset(Ids(t)) && 0 <= i < |s|
    ensures 0 <= k < |t| && Id(t[k]) == Id(s[i])
  {
    assert Ids(s)[i] in multiset(Ids(t));
    k :| 0 <= k < |Ids(t)| && Ids(t)[k] == Id(s[i]);
  }

  lemma IdsDistinct(s: Files)
    requires UniqueNames(s)
    ensures forall a, b | 0 <= a < b < |s| :: Ids(s)[a] != Ids(s)[b]
  {
    forall a, b | 0 <= a < b < |s| ensures Ids(s)[a] != Ids(s)[b] {
      assert NamesDiffer(s, a, b);
    }
  }

  lemma UniquePermuted(s: Files, t: Files)
    requires multiset(Ids(s)) == multiset(Ids(t)) && UniqueNames(s)
    ensures UniqueNames(t)
  {
    forall i, j {:trigger NamesDiffer(t, i, j)} | 0 <= i < j < |t| ensures NamesDiffer(t, i, j) {
      if Ids(t)[i] == Ids(t)[j] {
        TwiceInMultiset(Ids(t), i, j);
        IdsDistinct(s);
        TwiceInSequence(Ids(s), Id(t[i]));
      } else {
        var a := IdsMember(t, s, i);
        var b := IdsMember(t, s, j);
        assert a < b ==> NamesDiffer(s, a, b);
        assert b < a ==> NamesDiffer(s, b, a);
      }
    }
  }
}
