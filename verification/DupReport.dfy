/** What finddup prints, and what a reader can tell from it. */
module DupReport {
  import opened FileRecords
  import opened DupScan
  import opened Wrappers

  /** Output lines, with the name of the file they show. */
  datatype Line = LinkFile(name: int) | Link(name: int) | File(name: int) | Dup(name: int)

  // ----- the hard link summary -----

  predicate IsLink(s: Files, i: int)
    requires i < |s|
  {
    0 < i && SameInode(s[i - 1], s[i])
  }

  /** Entry `i` after the link scan. */
  function LinkedAt(s: Files, i: int): FileDesc
    requires 0 <= i < |s|
  {
    s[i].(lnk := s[i].lnk || IsLink(s, i))
  }

  /** The list after the link scan. */
  function Linked(s: Files): Files {
    seq(|s|, i requires 0 <= i < |s| => LinkedAt(s, i))
  }

  function LinkReport(s: Files, n: int): seq<Line>
    requires 0 <= n <= |s|
  {
    if n == 0 then []
    else
      LinkReport(s, n - 1)
      + (if IsLink(s, n - 1)
         then (if IsLink(s, n - 2) then [] else [LinkFile(s[n - 2].name)]) + [Link(s[n - 1].name)]
         else [])
  }

  /** The adjacent scan flags exactly the files that are not the first of their (device, inode) class. */
  lemma LinksAreClasses(disk: Disk, s: Files, i: int)
    requires Sorted(s) && Keyed(disk, s) && 0 <= i < |s|
    ensures IsLink(s, i) <==> exists j | 0 <= j < i :: SameInode(s[j], s[i])
  {
    forall j | 0 <= j < i && SameInode(s[j], s[i]) ensures IsLink(s, i) {
      assert SameContent(disk, s, j, i) && KeyRight(disk, s, j, i);
      assert j < i - 1 ==> InOrder(s, j, i - 1);
      assert InOrder(s, i - 1, i);
    }
  }

  // ----- the duplicate report -----

  /** The entry that starts the group of entry `i`. */
  function HeadOf(s: Files, i: int): (h: int)
    requires 0 <= i < |s|
    ensures 0 <= h <= i && (forall k | h < k <= i :: s[k].dup) && (h == 0 || !s[h].dup)
  {
    if i == 0 || !s[i].dup then i else HeadOf(s, i - 1)
  }

  predicate Shown(s: Files, linkflag: bool, i: int)
    requires 0 <= i < |s|
  {
    s[i].dup && (linkflag || !s[i].lnk)
  }

  predicate AnyShown(s: Files, linkflag: bool, from: int, to: int)
    requires 0 <= from && to <= |s|
  {
    exists k | from <= k < to :: Shown(s, linkflag, k)
  }

  /** The head of the group of entry `i`, if no entry of the group before `to` has been shown. */
  function PendingHead(s: Files, linkflag: bool, i: int, to: int): Option<int>
    requires 0 <= i < |s| && to <= |s|
  {
    if AnyShown(s, linkflag, HeadOf(s, i) + 1, to) then None else Some(s[HeadOf(s, i)].name)
  }

  lemma PendingStep(s: Files, linkflag: bool, i: int)
    requires 0 < i < |s| && s[i].dup
    ensures HeadOf(s, i) == HeadOf(s, i - 1)
    ensures PendingHead(s, linkflag, i, i) == PendingHead(s, linkflag, i - 1, i)
    ensures !s[i - 1].dup ==> PendingHead(s, linkflag, i, i) == Some(s[i - 1].name)
    ensures PendingHead(s, linkflag, i, i + 1) == if Shown(s, linkflag, i) then None else PendingHead(s, linkflag, i, i)
  {
    if Shown(s, linkflag, i) {
      assert AnyShown(s, linkflag, HeadOf(s, i) + 1, i + 1);
    }
  }

  function EntryLines(s: Files, linkflag: bool, i: int): seq<Line>
    requires 0 <= i < |s|
  {
    if !Shown(s, linkflag, i) then []
    else
      var head := PendingHead(s, linkflag, i, i);
      (if head == None then [] else [File(head.value)]) + [Dup(s[i].name)]
  }

  function Report(s: Files, linkflag: bool, n: int): seq<Line>
    requires 0 <= n <= |s|
  {
    if n == 0 then [] else Report(s, linkflag, n - 1) + EntryLines(s, linkflag, n - 1)
  }

  // ----- reading a report -----

  /** A line that starts a group. */
  predicate IsHead(l: Line) {
    l.File? || l.LinkFile?
  }

  /** The group a line belongs to: how many groups have been started up to it. */
  function GroupNo(lines: seq<Line>, p: int): int
    requires 0 <= p < |lines|
  {
    (if IsHead(lines[p]) then 1 else 0) + (if p == 0 then 0 else GroupNo(lines, p - 1))
  }

  ghost predicate At(lines: seq<Line>, p: int, name: int) {
    0 <= p < |lines| && lines[p].name == name
  }

  /** The report shows files `a` and `b` in one group. */
  ghost predicate Together(lines: seq<Line>, a: int, b: int) {
    exists p, q :: At(lines, p, a) && At(lines, q, b) && GroupNo(lines, p) == GroupNo(lines, q)
  }

  predicate NamesDiffer(s: Files, i: int, j: int)
    requires 0 <= i < |s| && 0 <= j < |s|
  {
    s[i].name != s[j].name
  }

  ghost predicate UniqueNames(s: Files) {
    forall i, j {:trigger NamesDiffer(s, i, j)} | 0 <= i < j < |s| :: NamesDiffer(s, i, j)
  }

  // ----- who is shown, and in which group -----

  /** The first entry from `from` on that is shown before the run of duplicates ends, or the length of the list. */
  function FirstShown(s: Files, linkflag: bool, from: int): (k: int)
    requires 0 <= from <= |s|
    ensures from <= k <= |s| && (k < |s| ==> Shown(s, linkflag, k))
    decreases |s| - from
  {
    if from == |s| || !s[from].dup then |s|
    else if Shown(s, linkflag, from) then from
    else FirstShown(s, linkflag, from + 1)
  }

  /** The entry whose lines start the group of entry `i`. */
  function StartOf(s: Files, linkflag: bool, i: int): (k: int)
    requires 0 <= i < |s|
    ensures 0 < k <= |s|
  {
    FirstShown(s, linkflag, HeadOf(s, i) + 1)
  }

  /** Entry `i` has a line: it is shown itself, or it heads a group of which something is shown. */
  predicate Visible(s: Files, linkflag: bool, i: int)
    requires 0 <= i < |s|
  {
    StartOf(s, linkflag, i) < |s| && (Shown(s, linkflag, i) || HeadOf(s, i) == i)
  }

  predicate Starts(s: Files, linkflag: bool, i: int)
    requires 0 <= i < |s|
  {
    Shown(s, linkflag, i) && StartOf(s, linkflag, i) == i
  }

  /** Number of groups started before entry `n`. */
  function Groups(s: Files, linkflag: bool, n: int): int
    requires 0 <= n <= |s|
  {
    if n == 0 then 0 else Groups(s, linkflag, n - 1) + (if Starts(s, linkflag, n - 1) then 1 else 0)
  }

  predicate NoHead(s: Files) {
    s != [] ==> !s[0].dup
  }

  lemma {:induction false} HeadOfRun(s: Files, i: int, j: int)
    requires NoHead(s) && 0 <= i <= j < |s|
    ensures HeadOf(s, i) == HeadOf(s, j) <==> forall k | i < k <= j :: s[k].dup
    ensures !s[HeadOf(s, i)].dup
    decreases j
  {
    if i < j && s[j].dup {
      HeadOfRun(s, i, j - 1);
    }
  }

  /** A shown entry belongs to the group that starts with the first one shown. */
  lemma {:induction false} StartIsFirst(s: Files, linkflag: bool, from: int, i: int)
    requires 0 <= from <= i < |s| && Shown(s, linkflag, i) && forall k | from <= k <= i :: s[k].dup
    ensures FirstShown(s, linkflag, from) <= i
    ensures forall k | from <= k < FirstShown(s, linkflag, from) :: !Shown(s, linkflag, k)
    decreases i - from
  {
    if !Shown(s, linkflag, from) {
      StartIsFirst(s, linkflag, from + 1, i);
    }
  }

  lemma {:induction false} FirstIsInRun(s: Files, linkflag: bool, from: int)
    requires 0 <= from <= |s| && FirstShown(s, linkflag, from) < |s|
    ensures forall k | from <= k <= FirstShown(s, linkflag, from) :: s[k].dup
    decreases |s| - from
  {
    if !Shown(s, linkflag, from) {
      FirstIsInRun(s, linkflag, from + 1);
    }
  }

  /** The start of a group belongs to it, and no later one of the group starts another. */
  lemma {:induction false} StartOfGroup(s: Files, linkflag: bool, i: int)
    requires NoHead(s) && 0 <= i < |s| && StartOf(s, linkflag, i) < |s|
    ensures var k := StartOf(s, linkflag, i); HeadOf(s, k) == HeadOf(s, i) < k && Starts(s, linkflag, k)
  {
    var h, k := HeadOf(s, i), StartOf(s, linkflag, i);
    FirstIsInRun(s, linkflag, h + 1);
    HeadOfRun(s, h, i);
    HeadOfRun(s, h, k);
  }

  lemma {:induction false} ShownIsStarted(s: Files, linkflag: bool, i: int)
    requires NoHead(s) && 0 <= i < |s| && Shown(s, linkflag, i)
    ensures HeadOf(s, i) < StartOf(s, linkflag, i) <= i
    ensures AnyShown(s, linkflag, HeadOf(s, i) + 1, i) <==> StartOf(s, linkflag, i) < i
  {
    StartIsFirst(s, linkflag, HeadOf(s, i) + 1, i);
    if StartOf(s, linkflag, i) < i {
      assert Shown(s, linkflag, StartOf(s, linkflag, i));
    }
  }

  lemma {:induction false} GroupsMonotone(s: Files, linkflag: bool, m: int, n: int)
    requires 0 <= m <= n <= |s|
    ensures Groups(s, linkflag, m) <= Groups(s, linkflag, n)
    ensures (forall k | m <= k < n :: !Starts(s, linkflag, k)) ==> Groups(s, linkflag, m) == Groups(s, linkflag, n)
    decreases n
  {
    if m < n {
      GroupsMonotone(s, linkflag, m, n - 1);
    }
  }

  /** Between the start of a group and its entry `i` no other group starts. */
  lemma GroupsInside(s: Files, linkflag: bool, i: int)
    requires NoHead(s) && 0 <= i < |s| && Shown(s, linkflag, i) && !Starts(s, linkflag, i)
    ensures StartOf(s, linkflag, i) < i
    ensures Groups(s, linkflag, StartOf(s, linkflag, i) + 1) == Groups(s, linkflag, i)
  {
    ShownIsStarted(s, linkflag, i);
    var k := StartOf(s, linkflag, i);
    StartOfGroup(s, linkflag, i);
    forall l | k < l < i
      ensures !Starts(s, linkflag, l)
    {
      HeadOfRun(s, k, l);
      HeadOfRun(s, l, i);
      HeadOfRun(s, k, i);
    }
    GroupsMonotone(s, linkflag, k + 1, i);
  }

  // ----- every line shows an entry, and every visible entry is shown -----

  /** A line of a group shows entry `i`: an entry to be shown, or the head of the group. */
  ghost predicate Shows(s: Files, linkflag: bool, line: Line, g: int, i: int) {
    && 0 <= i < |s| && line.name == s[i].name && Visible(s, linkflag, i)
    && g == Groups(s, linkflag, StartOf(s, linkflag, i) + 1)
  }

  ghost predicate LineShows(s: Files, linkflag: bool, lines: seq<Line>, p: int)
    requires 0 <= p < |lines|
  {
    exists i :: Shows(s, linkflag, lines[p], GroupNo(lines, p), i)
  }

  lemma {:induction false} GroupNoPrefix(a: seq<Line>, b: seq<Line>, p: int)
    requires 0 <= p < |a|
    ensures GroupNo(a + b, p) == GroupNo(a, p)
    decreases p
  {
    if p > 0 {
      GroupNoPrefix(a, b, p - 1);
    }
  }

  function LastGroup(lines: seq<Line>): int {
    if lines == [] then 0 else GroupNo(lines, |lines| - 1)
  }

  lemma {:induction false} LinesOfEntry(s: Files, linkflag: bool, i: int)
    requires NoHead(s) && 0 <= i < |s|
    ensures EntryLines(s, linkflag, i)
         == if !Shown(s, linkflag, i) then []
            else if Starts(s, linkflag, i) then [File(s[HeadOf(s, i)].name), Dup(s[i].name)]
            else [Dup(s[i].name)]
  {
    if Shown(s, linkflag, i) {
      ShownIsStarted(s, linkflag, i);
    }
  }

  lemma {:induction false} AppendedLine(lines: seq<Line>, l: Line)
    ensures GroupNo(lines + [l], |lines|) == LastGroup(lines) + (if IsHead(l) then 1 else 0)
    ensures LastGroup(lines + [l]) == GroupNo(lines + [l], |lines|)
  {
    assert (lines + [l])[|lines|] == l && lines + [l] != [];
    if lines != [] {
      GroupNoPrefix(lines, [l], |lines| - 1);
    }
  }

  ghost predicate Sound(s: Files, linkflag: bool, lines: seq<Line>) {
    forall p {:trigger LineShows(s, linkflag, lines, p)} | 0 <= p < |lines| :: LineShows(s, linkflag, lines, p)
  }

  lemma SoundAppend(s: Files, linkflag: bool, lines: seq<Line>, l: Line, i: int)
    requires Sound(s, linkflag, lines) && Shows(s, linkflag, l, LastGroup(lines) + (if IsHead(l) then 1 else 0), i)
    ensures Sound(s, linkflag, lines + [l])
    ensures LastGroup(lines + [l]) == LastGroup(lines) + (if IsHead(l) then 1 else 0)
  {
    hide Shows;
    AppendedLine(lines, l);
    forall p {:trigger LineShows(s, linkflag, lines + [l], p)} | 0 <= p < |lines + [l]|
      ensures LineShows(s, linkflag, lines + [l], p)
    {
      if p < |lines| {
        assert LineShows(s, linkflag, lines, p);
        GroupNoPrefix(lines, [l], p);
      } else {
        assert Shows(s, linkflag, (lines + [l])[p], GroupNo(lines + [l], p), i);
      }
    }
  }

  /** The lines of entry `i` continue a sound report. */
  lemma EntrySound(s: Files, linkflag: bool, lines: seq<Line>, i: int)
    requires NoHead(s) && 0 <= i < |s| && Sound(s, linkflag, lines) && LastGroup(lines) == Groups(s, linkflag, i)
    ensures var more := lines + EntryLines(s, linkflag, i);
      Sound(s, linkflag, more) && LastGroup(more) == Groups(s, linkflag, i + 1)
  {
    hide Sound, EntryLines;
    LinesOfEntry(s, linkflag, i);
    if !Shown(s, linkflag, i) {
      assert lines + [] == lines;
    } else {
      var dup := Dup(s[i].name);
      ShownIsStarted(s, linkflag, i);
      if Starts(s, linkflag, i) {
        var h := HeadOf(s, i);
        var file := File(s[h].name);
        HeadOfRun(s, h, i);
        HeadOfRun(s, h, h);
        SoundAppend(s, linkflag, lines, file, h);
        SoundAppend(s, linkflag, lines + [file], dup, i);
        assert lines + [file, dup] == lines + [file] + [dup];
      } else {
        GroupsInside(s, linkflag, i);
        SoundAppend(s, linkflag, lines, dup, i);
      }
    }
  }

  lemma {:induction false} ReportSound(s: Files, linkflag: bool, n: int)
    requires NoHead(s) && 0 <= n <= |s|
    ensures Sound(s, linkflag, Report(s, linkflag, n))
    ensures LastGroup(Report(s, linkflag, n)) == Groups(s, linkflag, n)
    decreases n
  {
    hide Sound, EntryLines, Starts;
    if n > 0 {
      ReportSound(s, linkflag, n - 1);
      EntrySound(s, linkflag, Report(s, linkflag, n - 1), n - 1);
    } else {
      NoLines(s, linkflag);
    }
  }

  lemma NoLines(s: Files, linkflag: bool)
    ensures Sound(s, linkflag, [])
  {
  }

  /** The entry whose lines show entry `i`: its own, or those of the first entry shown of the group it heads. */
  function ShownBy(s: Files, linkflag: bool, i: int): (k: int)
    requires 0 <= i < |s|
    ensures 0 <= k <= |s|
  {
    if Shown(s, linkflag, i) then i else StartOf(s, linkflag, i)
  }

  lemma ReportComplete(s: Files, linkflag: bool, n: int, i: int) returns (p: int)
    requires NoHead(s) && 0 <= n <= |s| && 0 <= i < |s| && Visible(s, linkflag, i) && ShownBy(s, linkflag, i) < n
    ensures At(Report(s, linkflag, n), p, s[i].name)
    ensures GroupNo(Report(s, linkflag, n), p) == Groups(s, linkflag, StartOf(s, linkflag, i) + 1)
    decreases n
  {
    hide EntryLines, Starts, Visible, StartOf, Shown;
    var k, lines := n - 1, Report(s, linkflag, n - 1);
    if ShownBy(s, linkflag, i) < k {
      p := ReportComplete(s, linkflag, k, i);
      GroupNoPrefix(lines, EntryLines(s, linkflag, k), p);
    } else {
      ReportSound(s, linkflag, k);
      p := EntryComplete(s, linkflag, lines, i);
    }
  }

  /** Among the lines of the entry that shows entry `i` there is one with its name, in its group. */
  lemma EntryComplete(s: Files, linkflag: bool, lines: seq<Line>, i: int) returns (p: int)
    requires NoHead(s) && 0 <= i < |s| && Visible(s, linkflag, i)
    requires ShownBy(s, linkflag, i) < |s| && LastGroup(lines) == Groups(s, linkflag, ShownBy(s, linkflag, i))
    ensures var more := lines + EntryLines(s, linkflag, ShownBy(s, linkflag, i));
      At(more, p, s[i].name) && GroupNo(more, p) == Groups(s, linkflag, StartOf(s, linkflag, i) + 1)
  {
    hide EntryLines;
    var k := ShownBy(s, linkflag, i);
    LinesOfEntry(s, linkflag, k);
    StartOfGroup(s, linkflag, i);
    var file, dup := File(s[HeadOf(s, k)].name), Dup(s[k].name);
    if !Starts(s, linkflag, k) {
      GroupsInside(s, linkflag, k);
      p := |lines|;
      AppendedLine(lines, dup);
    } else {
      AppendedLine(lines, file);
      AppendedLine(lines + [file], dup);
      assert lines + [file, dup] == lines + [file] + [dup];
      if k == i {
        p := |lines| + 1;
      } else {
        p := |lines|;
        GroupNoPrefix(lines + [file], [dup], p);
      }
    }
  }

  // ----- what a report shows together -----

  /** A line with the name of entry `i` shows entry `i`. */
  lemma {:induction false} LineOfEntry(s: Files, linkflag: bool, p: int, i: int)
    requires UniqueNames(s) && NoHead(s) && 0 <= i < |s| && At(Report(s, linkflag, |s|), p, s[i].name)
    ensures Visible(s, linkflag, i)
    ensures GroupNo(Report(s, linkflag, |s|), p) == Groups(s, linkflag, StartOf(s, linkflag, i) + 1)
  {
    hide Visible, StartOf;
    var lines := Report(s, linkflag, |s|);
    ReportSound(s, linkflag, |s|);
    assert LineShows(s, linkflag, lines, p);
    var k :| Shows(s, linkflag, lines[p], GroupNo(lines, p), k);
    assert k < i ==> NamesDiffer(s, k, i);
    assert i < k ==> NamesDiffer(s, i, k);
  }

  /** Groups with one number have one start, and so one head. */
  lemma {:induction false} OneGroup(s: Files, linkflag: bool, i: int, j: int)
    requires NoHead(s) && 0 <= i < |s| && 0 <= j < |s| && Visible(s, linkflag, i) && Visible(s, linkflag, j)
    ensures StartOf(s, linkflag, i) < |s| && StartOf(s, linkflag, j) < |s|
    ensures Groups(s, linkflag, StartOf(s, linkflag, i) + 1) == Groups(s, linkflag, StartOf(s, linkflag, j) + 1)
       <==> HeadOf(s, i) == HeadOf(s, j)
  {
    StartOfGroup(s, linkflag, i);
    StartOfGroup(s, linkflag, j);
    hide Shown, FirstShown, HeadOf, Starts;
    var k, l := StartOf(s, linkflag, i), StartOf(s, linkflag, j);
    if k < l {
      GroupsMonotone(s, linkflag, k + 1, l);
    } else if l < k {
      GroupsMonotone(s, linkflag, l + 1, k);
    }
  }

  /** A report shows two entries together exactly if they have one head and both are visible. */
  lemma {:induction false} TogetherIffOneHead(s: Files, linkflag: bool, i: int, j: int)
    requires NoHead(s) && UniqueNames(s) && 0 <= i < |s| && 0 <= j < |s|
    ensures Together(Report(s, linkflag, |s|), s[i].name, s[j].name)
       <==> HeadOf(s, i) == HeadOf(s, j) && Visible(s, linkflag, i) && Visible(s, linkflag, j)
  {
    hide Report, HeadOf, Visible, StartOf, UniqueNames, NoHead, Groups;
    var lines := Report(s, linkflag, |s|);
    if Visible(s, linkflag, i) && Visible(s, linkflag, j) {
      OneGroup(s, linkflag, i, j);
      if HeadOf(s, i) == HeadOf(s, j) {
        VisibleIsShown(s, linkflag, i);
        VisibleIsShown(s, linkflag, j);
        var p := ReportComplete(s, linkflag, |s|, i);
        var q := ReportComplete(s, linkflag, |s|, j);
        assert At(lines, p, s[i].name) && At(lines, q, s[j].name);
      }
    }
    if Together(lines, s[i].name, s[j].name) {
      var p, q :| At(lines, p, s[i].name) && At(lines, q, s[j].name) && GroupNo(lines, p) == GroupNo(lines, q);
      LineOfEntry(s, linkflag, p, i);
      LineOfEntry(s, linkflag, q, j);
      OneGroup(s, linkflag, i, j);
    }
  }

  lemma VisibleIsShown(s: Files, linkflag: bool, i: int)
    requires 0 <= i < |s| && Visible(s, linkflag, i)
    ensures ShownBy(s, linkflag, i) < |s|
  {
  }

  // ----- which lines are printed, and in which order -----

  /** Entry `k` repeats entry `h` by the flags: all from behind `h` to `k` are flagged, and `h` is not. */
  ghost predicate Repeats(s: Files, h: int, k: int) {
    0 <= h < k < |s| && !s[h].dup && forall l {:trigger s[l]} | h < l <= k :: s[l].dup
  }

  /** Flagged, and not a hidden link. */
  ghost predicate Printed(s: Files, linkflag: bool, k: int) {
    0 <= k < |s| && s[k].dup && (linkflag || !s[k].lnk)
  }

  /** The files the lines name stand in list order, none of them twice. */
  ghost predicate InListOrder(s: Files, lines: seq<Line>) {
    forall p, q, i, j {:trigger At(lines, p, s[i].name), At(lines, q, s[j].name)}
      | p < q && 0 <= i < |s| && 0 <= j < |s| && At(lines, p, s[i].name) && At(lines, q, s[j].name) :: i < j
  }

  ghost predicate NamesBelow(s: Files, lines: seq<Line>, n: int) {
    forall p, i {:trigger At(lines, p, s[i].name)} | 0 <= i < |s| && At(lines, p, s[i].name) :: i < n
  }

  /** Entry `i` has a DUP line exactly if it is printed, and a FILE line exactly if something printed repeats it. */
  ghost predicate EntryPrinted(s: Files, linkflag: bool, lines: seq<Line>, i: int)
    requires 0 <= i < |s|
  {
    && (Dup(s[i].name) in lines <==> s[i].dup && (linkflag || !s[i].lnk))
    && (File(s[i].name) in lines <==> exists k :: Repeats(s, i, k) && Printed(s, linkflag, k))
  }

  ghost predicate NamesEntry(s: Files, l: Line) {
    !l.Link? && !l.LinkFile? && exists i :: 0 <= i < |s| && s[i].name == l.name
  }

  /** All that is printed of a list: these lines and no others, in list order. */
  ghost predicate Prints(s: Files, linkflag: bool, lines: seq<Line>) {
    && (forall i {:trigger EntryPrinted(s, linkflag, lines, i)} | 0 <= i < |s| :: EntryPrinted(s, linkflag, lines, i))
    && (forall p {:trigger lines[p]} | 0 <= p < |lines| :: NamesEntry(s, lines[p]))
    && InListOrder(s, lines)
  }

  lemma OrderAppend(s: Files, lines: seq<Line>, l: Line, h: int)
    requires UniqueNames(s) && InListOrder(s, lines) && NamesBelow(s, lines, h) && 0 <= h < |s| && l.name == s[h].name
    ensures InListOrder(s, lines + [l]) && NamesBelow(s, lines + [l], h + 1)
  {
    var more := lines + [l];
    forall p, i | 0 <= i < |s| && At(more, p, s[i].name)
      ensures if p < |lines| then At(lines, p, s[i].name) && i < h else i == h
    {
      if p == |lines| {
        SameName(s, i, h);
      } else {
        assert At(lines, p, s[i].name);
      }
    }
  }

  /** Before the first printed entry of a group nothing of the group is printed. */
  lemma {:induction false} ReportWaits(s: Files, linkflag: bool, h: int, n: int)
    requires NoHead(s) && 0 <= h <= n <= |s| && forall l | h <= l < n :: !Shown(s, linkflag, l)
    ensures Report(s, linkflag, n) == Report(s, linkflag, h)
    decreases n
  {
    if h < n {
      ReportWaits(s, linkflag, h, n - 1);
    }
  }

  lemma {:induction false} ReportInOrder(s: Files, linkflag: bool, n: int)
    requires NoHead(s) && UniqueNames(s) && 0 <= n <= |s|
    ensures InListOrder(s, Report(s, linkflag, n)) && NamesBelow(s, Report(s, linkflag, n), n)
    decreases n
  {
    hide EntryLines, StartOf, UniqueNames, NoHead, HeadOf;
    if n > 0 {
      var k, lines := n - 1, Report(s, linkflag, n - 1);
      ReportInOrder(s, linkflag, k);
      LinesOfEntry(s, linkflag, k);
      if !Shown(s, linkflag, k) {
        assert lines + [] == lines;
      } else if Starts(s, linkflag, k) {
        var h := HeadOf(s, k);
        StartWaits(s, linkflag, k);
        ReportInOrder(s, linkflag, h);
        OrderAppend(s, lines, File(s[h].name), h);
        OrderAppend(s, lines + [File(s[h].name)], Dup(s[k].name), k);
        assert lines + [File(s[h].name), Dup(s[k].name)] == lines + [File(s[h].name)] + [Dup(s[k].name)];
      } else {
        OrderAppend(s, lines, Dup(s[k].name), k);
      }
    }
  }

  lemma {:induction false} StartWaits(s: Files, linkflag: bool, k: int)
    requires NoHead(s) && 0 <= k < |s| && Starts(s, linkflag, k)
    ensures HeadOf(s, k) < k && Report(s, linkflag, k) == Report(s, linkflag, HeadOf(s, k))
  {
    var h := HeadOf(s, k);
    ShownIsStarted(s, linkflag, k);
    HeadOfRun(s, h, k);
    StartIsFirst(s, linkflag, h + 1, k);
    ReportWaits(s, linkflag, h, k);
  }

  /** Which lines the first `n` entries print. */
  lemma {:induction false} ReportHas(s: Files, linkflag: bool, n: int, i: int)
    requires NoHead(s) && UniqueNames(s) && 0 <= n <= |s| && 0 <= i < |s|
    ensures Dup(s[i].name) in Report(s, linkflag, n) <==> i < n && Shown(s, linkflag, i)
    ensures File(s[i].name) in Report(s, linkflag, n)
       <==> exists k {:trigger Starts(s, linkflag, k)} :: 0 <= k < n && Starts(s, linkflag, k) && HeadOf(s, k) == i
    ensures forall p {:trigger Report(s, linkflag, n)[p]} | 0 <= p < |Report(s, linkflag, n)| ::
              NamesEntry(s, Report(s, linkflag, n)[p])
    decreases n
  {
    hide EntryLines, Shown, StartOf, UniqueNames, NoHead;
    if n > 0 {
      var k, lines := n - 1, Report(s, linkflag, n - 1);
      ReportHas(s, linkflag, k, i);
      LinesOfEntry(s, linkflag, k);
      SameName(s, i, k);
      SameName(s, i, HeadOf(s, k));
    }
  }

  lemma SameName(s: Files, i: int, j: int)
    requires UniqueNames(s) && 0 <= i < |s| && 0 <= j < |s|
    ensures s[i].name == s[j].name <==> i == j
  {
    assert i < j ==> NamesDiffer(s, i, j);
    assert j < i ==> NamesDiffer(s, j, i);
  }

  /** The report is what is to be printed. */
  lemma {:induction false} ReportPrints(s: Files, linkflag: bool)
    requires NoHead(s) && UniqueNames(s)
    ensures Prints(s, linkflag, Report(s, linkflag, |s|))
  {
    hide UniqueNames, NoHead, InListOrder;
    ReportInOrder(s, linkflag, |s|);
    if s != [] {
      ReportHas(s, linkflag, |s|, 0);
    }
    forall i | 0 <= i < |s|
      ensures EntryPrinted(s, linkflag, Report(s, linkflag, |s|), i)
    {
      ReportHas(s, linkflag, |s|, i);
      FileIsRepeated(s, linkflag, i);
    }
  }

  /** A group is started exactly if something printed repeats its head. */
  lemma {:induction false} FileIsRepeated(s: Files, linkflag: bool, i: int)
    requires NoHead(s) && 0 <= i < |s|
    ensures (exists k {:trigger Starts(s, linkflag, k)} :: 0 <= k < |s| && Starts(s, linkflag, k) && HeadOf(s, k) == i)
       <==> exists k :: Repeats(s, i, k) && Printed(s, linkflag, k)
  {
    if k :| 0 <= k < |s| && Starts(s, linkflag, k) && HeadOf(s, k) == i {
      ShownIsStarted(s, linkflag, k);
      HeadOfRun(s, i, k);
      assert Repeats(s, i, k) && Printed(s, linkflag, k);
    }
    if k :| Repeats(s, i, k) && Printed(s, linkflag, k) {
      HeadOfRun(s, i, k);
      ShownIsStarted(s, linkflag, k);
      StartOfGroup(s, linkflag, k);
    }
  }

  // ----- the duplicate report -----

  lemma SameIffFlagged(disk: Disk, s: Files, i: int, j: int)
    requires Settled(disk, s, |s|) && 0 <= i < j < |s|
    ensures SameContent(disk, s, i, j) <==> forall k | i < k <= j :: s[k].dup
    decreases j
  {
    assert DupRight(disk, s, j) && JoinsPrev(disk, s, i, j);
    if i < j - 1 {
      SameIffFlagged(disk, s, i, j - 1);
    }
  }

  /** An entry is flagged exactly if it repeats an earlier one. */
  lemma FlaggedIfRepeats(disk: Disk, s: Files, i: int)
    requires Settled(disk, s, |s|) && 0 <= i < |s|
    ensures s[i].dup <==> exists j {:trigger SameContent(disk, s, j, i)} :: 0 <= j < i && SameContent(disk, s, j, i)
  {
    hide Settled;
    assert DupRight(disk, s, i) by {
      FlagRight(disk, s, i);
    }
    if j :| 0 <= j < i && SameContent(disk, s, j, i) {
      SameIffFlagged(disk, s, j, i);
    }
  }

  lemma FlagRight(disk: Disk, s: Files, i: int)
    requires Settled(disk, s, |s|) && 0 <= i < |s|
    ensures DupRight(disk, s, i)
  {
  }

  /** Of two files with equal contents both are visible, unless one of them is a link and links are hidden. */
  lemma {:induction false} DuplicatesVisible(s: Files, linkflag: bool, i: int, j: int)
    requires NoHead(s) && 0 <= i < j < |s| && HeadOf(s, i) == HeadOf(s, j)
    requires linkflag || (!s[i].lnk && !s[j].lnk)
    ensures Visible(s, linkflag, i) && Visible(s, linkflag, j)
  {
    HeadOfRun(s, i, j);
    ShownIsStarted(s, linkflag, j);
    if s[i].dup {
      ShownIsStarted(s, linkflag, i);
    }
  }

  /**
   * The report shows two files in one group exactly if their contents are equal and both are visible. With links
   * shown, and for files that are no links, equal contents are enough.
   */
  lemma {:induction false} ReportIsExact(disk: Disk, s: Files, linkflag: bool, i: int, j: int)
    requires Settled(disk, s, |s|) && UniqueNames(s) && 0 <= i < j < |s|
    ensures Together(Report(s, linkflag, |s|), s[i].name, s[j].name)
       <==> SameContent(disk, s, i, j) && Visible(s, linkflag, i) && Visible(s, linkflag, j)
    ensures linkflag || (!s[i].lnk && !s[j].lnk) ==>
      (Together(Report(s, linkflag, |s|), s[i].name, s[j].name) <==> SameContent(disk, s, i, j))
  {
    hide Report, Visible, UniqueNames, HeadOf, Together;
    assert DupRight(disk, s, 0);
    SameIffFlagged(disk, s, i, j);
    HeadOfRun(s, i, j);
    TogetherIffOneHead(s, linkflag, i, j);
    if SameContent(disk, s, i, j) && (linkflag || (!s[i].lnk && !s[j].lnk)) {
      DuplicatesVisible(s, linkflag, i, j);
    }
  }

  lemma TogetherSymmetric(lines: seq<Line>, a: int, b: int)
    ensures Together(lines, a, b) <==> Together(lines, b, a)
  {
  }

  // ----- the hard link summary is a report of links -----

  /** The list with its links flagged as duplicates. */
  function LinksAsDups(s: Files): Files {
    seq(|s|, i requires 0 <= i < |s| => s[i].(dup := IsLink(s, i)))
  }

  function AsLink(l: Line): Line {
    match l
    case File(name) => LinkFile(name)
    case Dup(name) => Link(name)
    case _ => l
  }

  function AsLinks(lines: seq<Line>): seq<Line> {
    seq(|lines|, p requires 0 <= p < |lines| => AsLink(lines[p]))
  }

  /** One entry of the summary, as one entry of the report. */
  lemma LinkLines(s: Files, i: int)
    requires 0 <= i < |s|
    ensures AsLinks(EntryLines(LinksAsDups(s), true, i))
         == if !IsLink(s, i) then []
            else if IsLink(s, i - 1) then [Link(s[i].name)]
            else [LinkFile(s[i - 1].name), Link(s[i].name)]
  {
    hide EntryLines, HeadOf, Starts;
    LinesOfEntry(LinksAsDups(s), true, i);
    if IsLink(s, i) {
      LinkStarts(s, i);
    }
  }

  lemma AsLinksSum(a: seq<Line>, b: seq<Line>)
    ensures AsLinks(a + b) == AsLinks(a) + AsLinks(b)
  {
  }

  lemma {:induction false} LinkReportIsReport(s: Files, n: int)
    requires 0 <= n <= |s|
    ensures LinkReport(s, n) == AsLinks(Report(LinksAsDups(s), true, n))
    decreases n
  {
    hide EntryLines, LinksAsDups;
    if n > 0 {
      LinkReportIsReport(s, n - 1);
      LinkLines(s, n - 1);
      LinksSize(s);
      AsLinksSum(Report(LinksAsDups(s), true, n - 1), EntryLines(LinksAsDups(s), true, n - 1));
    } else {
      LinksSize(s);
    }
  }

  lemma LinksSize(s: Files)
    ensures |LinksAsDups(s)| == |s|
  {
  }

  lemma LinkStarts(s: Files, i: int)
    requires 0 <= i < |s| && IsLink(s, i)
    ensures var t := LinksAsDups(s);
      && (Starts(t, true, i) <==> !IsLink(s, i - 1))
      && (Starts(t, true, i) ==> HeadOf(t, i) == i - 1)
  {
    var t := LinksAsDups(s);
    ShownIsStarted(t, true, i);
    HeadOfRun(t, i - 1, i);
    if IsLink(s, i - 1) {
      assert Shown(t, true, i - 1);
      assert AnyShown(t, true, HeadOf(t, i) + 1, i);
    }
  }

  lemma {:induction false} AsLinksGroup(lines: seq<Line>, p: int)
    requires 0 <= p < |lines|
    ensures GroupNo(AsLinks(lines), p) == GroupNo(lines, p)
    decreases p
  {
    if p > 0 {
      AsLinksGroup(lines, p - 1);
    }
  }

  lemma AsLinksTogether(lines: seq<Line>, a: int, b: int)
    ensures Together(AsLinks(lines), a, b) <==> Together(lines, a, b)
  {
    forall p, q
      ensures At(AsLinks(lines), p, a) && At(AsLinks(lines), q, b)
              && GroupNo(AsLinks(lines), p) == GroupNo(AsLinks(lines), q)
         <==> At(lines, p, a) && At(lines, q, b) && GroupNo(lines, p) == GroupNo(lines, q)
    {
      if 0 <= p < |lines| && 0 <= q < |lines| {
        AsLinksGroup(lines, p);
        AsLinksGroup(lines, q);
      }
    }
  }

  /** In a sorted list the entries from `i` to `j` are links exactly if `i` and `j` have one inode. */
  lemma LinkRun(disk: Disk, s: Files, i: int, j: int)
    requires Sorted(s) && Keyed(disk, s) && 0 <= i < j < |s|
    ensures SameInode(s[i], s[j]) <==> forall k | i < k <= j :: IsLink(s, k)
    decreases j
  {
    if SameInode(s[i], s[j]) {
      forall k | i < k <= j
        ensures IsLink(s, k)
      {
        LinksAreClasses(disk, s, j);
        Between(disk, s, i, k, j);
        assert SameInode(s[i], s[k]);
        LinksAreClasses(disk, s, k);
      }
    } else {
      if i < j - 1 {
        LinkRun(disk, s, i, j - 1);
      }
      assert IsLink(s, j) <==> SameInode(s[j - 1], s[j]);
    }
  }

  lemma Between(disk: Disk, s: Files, i: int, k: int, j: int)
    requires Sorted(s) && Keyed(disk, s) && 0 <= i < k <= j < |s| && SameInode(s[i], s[j])
    ensures SameInode(s[i], s[k])
  {
    assert SameContent(disk, s, i, j) && KeyRight(disk, s, i, j);
    assert InOrder(s, i, k);
    assert k < j ==> InOrder(s, k, j);
  }

  /** The hard link summary shows two files in one group exactly if they have one device and inode. */
  lemma {:induction false} LinkReportIsExact(disk: Disk, s: Files, i: int, j: int)
    requires Sorted(s) && Keyed(disk, s) && UniqueNames(s) && 0 <= i < j < |s|
    ensures Together(LinkReport(s, |s|), s[i].name, s[j].name) <==> SameInode(s[i], s[j])
  {
    hide Together, Report, LinkReport, HeadOf, Sorted, Keyed, Visible;
    var t := LinksAsDups(s);
    LinkReportIsReport(s, |s|);
    AsLinksTogether(Report(t, true, |s|), s[i].name, s[j].name);
    LinkRun(disk, s, i, j);
    HeadOfRun(t, i, j);
    assert forall k {:trigger t[k]} {:trigger IsLink(s, k)} :: i < k <= j ==> t[k].dup == IsLink(s, k);
    forall k, l | 0 <= k < l < |t|
      ensures NamesDiffer(t, k, l)
    {
      assert NamesDiffer(s, k, l);
    }
    TogetherIffOneHead(t, true, i, j);
    if SameInode(s[i], s[j]) {
      DuplicatesVisible(t, true, i, j);
    }
  }

  /** Entry `i` has a LINK line if it has the inode of the one before, a FILE line if it is the first of several. */
  ghost predicate LinkPrinted(s: Files, lines: seq<Line>, i: int)
    requires 0 <= i < |s|
  {
    && (Link(s[i].name) in lines <==> 0 < i && SameInode(s[i - 1], s[i]))
    && (LinkFile(s[i].name) in lines
        <==> !(0 < i && SameInode(s[i - 1], s[i])) && i + 1 < |s| && SameInode(s[i], s[i + 1]))
  }

  ghost predicate NamesLink(s: Files, l: Line) {
    (l.Link? || l.LinkFile?) && exists i :: 0 <= i < |s| && s[i].name == l.name
  }

  /** All that the hard link summary prints. */
  ghost predicate PrintsLinks(s: Files, lines: seq<Line>) {
    && (forall i {:trigger LinkPrinted(s, lines, i)} | 0 <= i < |s| :: LinkPrinted(s, lines, i))
    && (forall p {:trigger lines[p]} | 0 <= p < |lines| :: NamesLink(s, lines[p]))
    && InListOrder(s, lines)
  }

  lemma AsLinksIn(lines: seq<Line>, name: int)
    requires forall p {:trigger lines[p]} | 0 <= p < |lines| :: lines[p].File? || lines[p].Dup?
    ensures Link(name) in AsLinks(lines) <==> Dup(name) in lines
    ensures LinkFile(name) in AsLinks(lines) <==> File(name) in lines
  {
    if Dup(name) in lines {
      var p :| 0 <= p < |lines| && lines[p] == Dup(name);
      assert AsLinks(lines)[p] == Link(name);
    }
    if File(name) in lines {
      var p :| 0 <= p < |lines| && lines[p] == File(name);
      assert AsLinks(lines)[p] == LinkFile(name);
    }
  }

  lemma AsLinksOrder(s: Files, t: Files, lines: seq<Line>)
    requires |t| == |s| && (forall i | 0 <= i < |s| :: t[i].name == s[i].name) && InListOrder(t, lines)
    ensures InListOrder(s, AsLinks(lines))
  {
    forall p, q, i, j | p < q && 0 <= i < |s| && 0 <= j < |s|
      && At(AsLinks(lines), p, s[i].name) && At(AsLinks(lines), q, s[j].name)
      ensures i < j
    {
      assert At(lines, p, t[i].name) && At(lines, q, t[j].name);
    }
  }

  lemma {:induction false} LinkReportPrints(s: Files)
    requires UniqueNames(s)
    ensures PrintsLinks(s, LinkReport(s, |s|))
  {
    hide InListOrder, UniqueNames, LinkReport, Report;
    var t, lines := LinksAsDups(s), Report(LinksAsDups(s), true, |s|);
    LinkReportIsReport(s, |s|);
    assert UniqueNames(t) by {
      NamesStayUnique(s, t);
    }
    ReportPrints(t, true);
    AsLinksOrder(s, t, lines);
    forall i | 0 <= i < |s|
      ensures LinkPrinted(s, LinkReport(s, |s|), i)
    {
      assert EntryPrinted(t, true, lines, i);
      AsLinksIn(lines, s[i].name);
      FirstOfLinks(s, t, i);
    }
    forall p | 0 <= p < |AsLinks(lines)|
      ensures NamesLink(s, AsLinks(lines)[p])
    {
      assert NamesEntry(t, lines[p]);
      var i :| 0 <= i < |t| && t[i].name == lines[p].name;
      assert s[i].name == lines[p].name;
    }
  }

  lemma NamesStayUnique(s: Files, t: Files)
    requires UniqueNames(s) && |t| == |s| && forall i | 0 <= i < |s| :: t[i].name == s[i].name
    ensures UniqueNames(t)
  {
    forall i, j | 0 <= i < j < |t|
      ensures NamesDiffer(t, i, j)
    {
      assert NamesDiffer(s, i, j);
    }
  }

  lemma FirstOfLinks(s: Files, t: Files, i: int)
    requires t == LinksAsDups(s) && 0 <= i < |s|
    ensures (exists k :: Repeats(t, i, k) && Printed(t, true, k)) <==> !IsLink(s, i) && i + 1 < |s| && IsLink(s, i + 1)
  {
    if k :| Repeats(t, i, k) && Printed(t, true, k) {
      assert t[i + 1].dup;
    }
    if !IsLink(s, i) && i + 1 < |s| && IsLink(s, i + 1) {
      assert Repeats(t, i, i + 1) && Printed(t, true, i + 1);
    }
  }
}
