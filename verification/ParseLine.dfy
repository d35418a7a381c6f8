/** `parseline` of hw4/src/cli.c: the buffer is cut into C strings in place, and the arguments are places in it. */
module ParseLine {
  import opened LineSyntax

  // ----- C strings in a buffer -----

  /** The end of the C string at `p`. */
  function End(b: seq<char>, p: nat): (e: nat)
    requires p <= |b|
    ensures p <= e <= |b| && (e < |b| ==> b[e] == NUL)
    ensures forall i :: p <= i < e ==> b[i] != NUL
    decreases |b| - p
  {
    if p == |b| || b[p] == NUL then p else End(b, p + 1)
  }

  function CString(b: seq<char>, p: nat): string
    requires p <= |b|
  {
    b[p..End(b, p)]
  }

  ghost predicate EndsBefore(b: seq<char>, p: nat, w: nat) {
    p <= |b| && End(b, p) < w
  }

  /** Every argument so far ends before `w`. */
  ghost predicate Settled(b: seq<char>, argv: seq<nat>, w: nat) {
    forall k {:trigger argv[k]} :: 0 <= k < |argv| ==> EndsBefore(b, argv[k], w)
  }

  function Strings(b: seq<char>, argv: seq<nat>): seq<string>
    decreases |argv|
  {
    if argv == [] then []
    else
      var p := argv[|argv| - 1];
      Strings(b, argv[..|argv| - 1]) + [if p <= |b| then CString(b, p) else ""]
  }

  lemma {:induction false} EndIs(b: seq<char>, p: nat, e: nat)
    requires p <= e < |b| && b[e] == NUL && forall i :: p <= i < e ==> b[i] != NUL
    ensures End(b, p) == e
    decreases e - p
  {
    if p < e {
      EndIs(b, p + 1, e);
    }
  }

  /** Writing behind the end of a string leaves it alone. */
  lemma StringStays(b: seq<char>, p: nat, w: nat, i: nat, c: char)
    requires EndsBefore(b, p, w) && w <= i < |b|
    ensures EndsBefore(b[i := c], p, w) && CString(b[i := c], p) == CString(b, p)
  {
    EndIs(b[i := c], p, End(b, p));
  }

  lemma StringsStay(b: seq<char>, argv: seq<nat>, w: nat, i: nat, c: char)
    requires Settled(b, argv, w) && w <= i < |b|
    ensures Settled(b[i := c], argv, w) && Strings(b[i := c], argv) == Strings(b, argv)
    decreases |argv|
  {
    forall k | 0 <= k < |argv|
      ensures EndsBefore(b[i := c], argv[k], w)
    {
      StringStays(b, argv[k], w, i, c);
    }
    if argv != [] {
      var init := argv[..|argv| - 1];
      assert forall k :: 0 <= k < |init| ==> init[k] == argv[k];
      StringsStay(b, init, w, i, c);
      StringStays(b, argv[|argv| - 1], w, i, c);
    }
  }

  /** Cutting the buffer at `d` makes the characters from `w` on the next argument. */
  lemma Cut(b: seq<char>, argv: seq<nat>, w: nat, d: nat)
    requires Settled(b, argv, w) && w <= d < |b|
    requires forall i :: w <= i < d ==> b[i] != NUL
    ensures Settled(b[d := NUL], argv + [w], d + 1)
    ensures Strings(b[d := NUL], argv + [w]) == Strings(b, argv) + [b[w..d]]
  {
    var u := b[d := NUL];
    StringsStay(b, argv, w, d, NUL);
    EndIs(u, w, d);
    assert u[w..d] == b[w..d];
    forall k | 0 <= k < |argv + [w]|
      ensures EndsBefore(u, (argv + [w])[k], d + 1)
    {
      if k < |argv| {
        assert EndsBefore(u, argv[k], w);
      }
    }
    assert (argv + [w])[..|argv|] == argv;
  }

  // ----- the line being parsed -----

  ghost predicate TextChar(c: char) {
    c != NUL && c != NEWLINE
  }

  /** A line of text, its newline and the terminating NUL. */
  ghost predicate IsLine(o: seq<char>) {
    && |o| >= 2 && o[|o| - 2] == NEWLINE && o[|o| - 1] == NUL
    && forall i {:trigger o[i]} :: 0 <= i < |o| - 2 ==> TextChar(o[i])
  }

  function Text(o: seq<char>): string
    requires |o| >= 2
  {
    o[..|o| - 2]
  }

  /** Behind `d` the buffer still holds the line. */
  ghost predicate Untouched(o: seq<char>, b: seq<char>, d: nat) {
    |b| == |o| && forall i {:trigger b[i]} {:trigger o[i]} :: d <= i < |o| ==> b[i] == o[i]
  }

  predicate Parts(c: char) {
    c == BLANK || c == NUL
  }

  function Before(b: seq<char>, d: nat, before: char): char
    requires d <= |b|
  {
    if d == 0 then before else b[d - 1]
  }

  /** Between two turns of the loop: what is cut so far and what is left of the line make up all arguments. */
  ghost predicate Between(o: seq<char>, b: seq<char>, argv: seq<nat>, w: nat, d: nat, before: char, all: seq<string>) {
    && IsLine(o) && w <= d <= |o| - 2
    && Untouched(o, b, w)
    && Settled(b, argv, w)
    && (Parts(Before(b, d, before)) ==> w == d)
    && Strings(b, argv) + Tokens(Text(o)[w..d], Text(o)[d..], Parts(Before(b, d, before))) == all
  }

  lemma TextAt(o: seq<char>, d: nat)
    requires IsLine(o) && d < |o| - 2
    ensures Text(o)[d..] != "" && Text(o)[d..][0] == o[d] && Text(o)[d..][1..] == Text(o)[d + 1..] && TextChar(o[d])
  {
  }

  lemma TextEnds(o: seq<char>)
    requires IsLine(o)
    ensures Text(o)[|o| - 2..] == ""
  {
  }

  lemma NoNulWithin(o: seq<char>, b: seq<char>, w: nat, d: nat)
    requires IsLine(o) && Untouched(o, b, w) && w <= d <= |o| - 2
    ensures forall i :: w <= i < d ==> b[i] != NUL
    ensures b[w..d] == Text(o)[w..d]
  {
    forall i | w <= i < d
      ensures b[i] != NUL
    {
      assert b[i] == o[i] && TextChar(o[i]);
    }
  }

  // ----- one turn of the loop, as a fact about sequences -----

  lemma TurnOnChar(o: seq<char>, b: seq<char>, argv: seq<nat>, w: nat, d: nat, before: char,
          all: seq<string>)
    requires Between(o, b, argv, w, d, before, all) && d < |o| - 2 && o[d] != BLANK && o[d] != QUOTE
    ensures Between(o, b, argv, w, d + 1, before, all)
  {
    hide Strings, Settled;
    TextAt(o, d);
    assert b[d] == o[d];
    assert Text(o)[w..d] + [o[d]] == Text(o)[w..d + 1];
  }

  /** A space ends the word; the scan goes on at the next character that is none. */
  lemma TurnOnBlank(o: seq<char>, b: seq<char>, argv: seq<nat>, w: nat, d: nat, before: char,
                                       all: seq<string>, e: nat, u: seq<char>)
    requires Between(o, b, argv, w, d, before, all) && d < |o| - 2 && o[d] == BLANK
    requires d < e <= |o| - 2 && Text(o)[e..] == DropSpaces(Text(o)[d + 1..]) && u == b[d := NUL]
    requires e > d + 1 ==> o[e - 1] == BLANK
    ensures Between(o, u, argv + [w], e, e, before, all)
  {
    hide Strings, DropSpaces;
    TextAt(o, d);
    NoNulWithin(o, b, w, d);
    Cut(b, argv, w, d);
    SettledLater(u, argv + [w], d + 1, e);
    assert Untouched(o, u, e);
    assert Parts(Before(u, e, before)) by {
      if e > d + 1 {
        assert u[e - 1] == b[e - 1] == o[e - 1];
      }
    }
    assert Text(o)[e..e] == "";
    var cur, later := Text(o)[w..d], Tokens("", Text(o)[e..], true);
    assert Strings(b, argv) + ([cur] + later) == (Strings(b, argv) + [cur]) + later;
  }

  lemma SettledLater(b: seq<char>, argv: seq<nat>, w: nat, e: nat)
    requires Settled(b, argv, w) && w <= e
    ensures Settled(b, argv, e)
  {
    forall k | 0 <= k < |argv|
      ensures EndsBefore(b, argv[k], e)
    {
      assert EndsBefore(b, argv[k], w);
    }
  }

  /** The word a quote touches ends there; the string begins behind the quote and any spaces. */
  ghost predicate Opened(o: seq<char>, b: seq<char>, argv: seq<nat>, w: nat, all: seq<string>) {
    && IsLine(o) && w <= |o| - 2 && Untouched(o, b, w) && Settled(b, argv, w)
    && var body := Text(o)[w..];
       var k := QuoteAt(body);
       Strings(b, argv)
       + (if k < |body| then [body[..k]] + Tokens("", DropSpaces(body[k + 1..]), true) else [body]) == all
  }

  lemma QuoteOpens(o: seq<char>, b: seq<char>, argv: seq<nat>, w: nat, d: nat, before: char,
          all: seq<string>)
    requires Between(o, b, argv, w, d, before, all) && d < |o| - 2 && o[d] == QUOTE && Parts(Before(b, d, before))
    ensures Opened(o, b, argv, d + 1, all)
  {
    hide Strings, DropSpaces;
    TextAt(o, d);
    SettledLater(b, argv, w, d + 1);
    var body := Text(o)[d + 1..];
    assert Tokens(Text(o)[w..d], Text(o)[d..], true)
        == [] + (if QuoteAt(body) < |body|
                 then [body[..QuoteAt(body)]] + Tokens("", DropSpaces(body[QuoteAt(body) + 1..]), true)
                 else [body]);
  }

  lemma QuoteTouches(o: seq<char>, b: seq<char>, argv: seq<nat>, w: nat, d: nat, before: char,
                                        all: seq<string>, e: nat, u: seq<char>)
    requires Between(o, b, argv, w, d, before, all) && d < |o| - 2 && o[d] == QUOTE && !Parts(Before(b, d, before))
    requires d < e <= |o| - 2 && Text(o)[e..] == DropSpaces(Text(o)[d + 1..]) && u == b[d := NUL]
    ensures Opened(o, u, argv + [w], e, all)
  {
    hide Strings, DropSpaces;
    TextAt(o, d);
    NoNulWithin(o, b, w, d);
    Cut(b, argv, w, d);
    SettledLater(u, argv + [w], d + 1, e);
    assert Untouched(o, u, e);
    var body, cur := Text(o)[e..], Text(o)[w..d];
    var more := if QuoteAt(body) < |body|
                then [body[..QuoteAt(body)]] + Tokens("", DropSpaces(body[QuoteAt(body) + 1..]), true)
                else [body];
    assert Strings(b, argv) + ([cur] + more) == (Strings(b, argv) + [cur]) + more;
  }

  /** The closing quote at `q` ends the string. */
  lemma QuoteCloses(o: seq<char>, b: seq<char>, argv: seq<nat>, w: nat, all: seq<string>,
                                       q: nat, e: nat, before: char, u: seq<char>)
    requires Opened(o, b, argv, w, all) && w <= q < |o| - 2 && q - w == QuoteAt(Text(o)[w..])
    requires q < e <= |o| - 2 && Text(o)[e..] == DropSpaces(Text(o)[q + 1..]) && u == b[q := NUL]
    requires e > q + 1 ==> o[e - 1] == BLANK
    ensures Between(o, u, argv + [w], e, e, before, all)
  {
    hide Strings, DropSpaces, QuoteAt;
    NoNulWithin(o, b, w, q);
    Cut(b, argv, w, q);
    SettledLater(u, argv + [w], q + 1, e);
    assert Untouched(o, u, e);
    assert Parts(Before(u, e, before)) by {
      if e > q + 1 {
        assert u[e - 1] == b[e - 1] == o[e - 1];
      }
    }
    var body := Text(o)[w..];
    assert body[..q - w] == Text(o)[w..q] && body[q - w + 1..] == Text(o)[q + 1..];
    assert Text(o)[e..e] == "";
    var str, later := Text(o)[w..q], Tokens("", Text(o)[e..], true);
    assert Strings(b, argv) + ([str] + later) == (Strings(b, argv) + [str]) + later;
  }

  /** Without a closing quote the rest of the line, less its newline, is the last argument. */
  lemma {:induction false} QuoteNeverCloses(o: seq<char>, b: seq<char>, argv: seq<nat>, w: nat, all: seq<string>)
    requires Opened(o, b, argv, w, all) && QuoteAt(Text(o)[w..]) == |Text(o)[w..]|
    ensures Strings(b[|o| - 2 := NUL], argv + [w]) == all
  {
    hide Strings, DropSpaces, QuoteAt;
    NoNulWithin(o, b, w, |o| - 2);
    Cut(b, argv, w, |o| - 2);
    assert Text(o)[w..|o| - 2] == Text(o)[w..];
  }

  // ----- the code -----

  /** The loops that pass over spaces. */
  method SkipSpaces(buf: array<char>, from: nat, ghost o: seq<char>) returns (e: nat)
    requires IsLine(o) && from <= |o| - 2 && Untouched(o, buf[..], from)
    ensures from <= e <= |o| - 2 && Text(o)[e..] == DropSpaces(Text(o)[from..])
    ensures e > from ==> o[e - 1] == BLANK
  {
    e := from;
    while buf[e] != NUL && buf[e] == BLANK
      invariant from <= e <= |o| - 2
      invariant DropSpaces(Text(o)[e..]) == DropSpaces(Text(o)[from..])
      invariant e > from ==> o[e - 1] == BLANK
      invariant buf[..][e] == o[e]
      decreases |o| - e
    {
      TextAt(o, e);
      e := e + 1;
      assert buf[..][e] == o[e];
    }
    if e < |o| - 2 {
      TextAt(o, e);
    } else {
      TextEnds(o);
    }
  }

  /** `strchr` for a quote: its place, or none before the end of the C string. */
  method FindQuote(buf: array<char>, from: nat, ghost o: seq<char>) returns (found: bool, q: nat)
    requires IsLine(o) && from <= |o| - 2 && Untouched(o, buf[..], from)
    ensures found == (QuoteAt(Text(o)[from..]) < |Text(o)[from..]|)
    ensures found ==> from <= q < |o| - 2 && q - from == QuoteAt(Text(o)[from..])
  {
    q := from;
    assert buf[..][q] == o[q];
    while buf[q] != NUL
      invariant from <= q <= |o| - 1 && buf[..][q] == o[q]
      invariant q <= |o| - 2 ==> QuoteAt(Text(o)[from..]) == QuoteAt(Text(o)[q..]) + (q - from)
      invariant q == |o| - 1 ==> QuoteAt(Text(o)[from..]) == |o| - 2 - from
      decreases |o| - q
    {
      if q < |o| - 2 {
        TextAt(o, q);
      } else {
        TextEnds(o);
      }
      if buf[q] == QUOTE {
        return true, q;
      }
      q := q + 1;
      assert buf[..][q] == o[q];
    }
    NoNulAt(o, q);
    return false, q;
  }

  lemma NoNulAt(o: seq<char>, q: nat)
    requires IsLine(o) && q < |o| && o[q] == NUL
    ensures q == |o| - 1
  {
    if q < |o| - 2 {
      TextAt(o, q);
    }
  }

  /** The argument strings of a line: those of its text, whatever stood before the buffer. */
  function Arguments(o: seq<char>, before: char): seq<string>
    requires |o| >= 2
  {
    LineTokens(Text(o), Parts(before))
  }

  /** A space: the word ends and the spaces are passed over. */
  method OnBlank(buf: array<char>, argv: seq<nat>, w: nat, d: nat, before: char, ghost o: seq<char>,
          ghost all: seq<string>)
    returns (more: seq<nat>, e: nat)
    requires Between(o, buf[..], argv, w, d, before, all) && d < |o| - 2 && o[d] == BLANK
    modifies buf
    ensures Between(o, buf[..], more, e, e, before, all) && e > d
  {
    hide Strings, Settled, Tokens, DropSpaces;
    ghost var b := buf[..];
    more := argv + [w];
    buf[d] := NUL;
    assert buf[..] == b[d := NUL];
    e := SkipSpaces(buf, d + 1, o);
    TurnOnBlank(o, b, argv, w, d, before, all, e, buf[..]);
  }

  /** The newline: a word begun is the last argument. */
  method OnNewline(buf: array<char>, argv: seq<nat>, w: nat, d: nat, before: char, ghost o: seq<char>,
    ghost all: seq<string>)
    returns (more: seq<nat>)
    requires Between(o, buf[..], argv, w, d, before, all) && d == |o| - 2
    modifies buf
    ensures Strings(buf[..], more) == all
  {
    hide Strings;
    ghost var b := buf[..];
    TextEnds(o);
    NoNulWithin(o, b, w, d);
    Cut(b, argv, w, d);
    more := argv;
    var previous := if d == 0 then before else buf[d - 1];
    if previous != BLANK && previous != NUL {
      more := argv + [w];
      buf[d] := NUL;
      assert buf[..] == b[d := NUL];
    }
  }

  /**
   * A quote: the word it touches ends, and the string up to the closing quote or the end of the line is an argument.
   */
  method OnQuote(buf: array<char>, argv: seq<nat>, w: nat, d: nat, before: char, ghost o: seq<char>,
          ghost all: seq<string>)
    returns (more: seq<nat>, e: nat, done: bool)
    requires Between(o, buf[..], argv, w, d, before, all) && d < |o| - 2 && o[d] == QUOTE
    modifies buf
    ensures !done ==> Between(o, buf[..], more, e, e, before, all) && e > d
    ensures done ==> Strings(buf[..], more) == all
  {
    hide Strings, Settled, Tokens, DropSpaces;
    ghost var b := buf[..];
    more := argv;
    var start: nat;
    var previous := if d == 0 then before else buf[d - 1];
    if previous != BLANK && previous != NUL {
      more := argv + [w];
      buf[d] := NUL;
      assert buf[..] == b[d := NUL];
      start := SkipSpaces(buf, d + 1, o);
      QuoteTouches(o, b, argv, w, d, before, all, start, buf[..]);
    } else {
      start := w + 1;
      QuoteOpens(o, b, argv, w, d, before, all);
    }
    more, e, done := TakeString(buf, more, start, before, o, all);
  }

  method TakeString(buf: array<char>, argv: seq<nat>, start: nat, before: char, ghost o: seq<char>,
          ghost all: seq<string>)
    returns (more: seq<nat>, e: nat, done: bool)
    requires Opened(o, buf[..], argv, start, all)
    modifies buf
    ensures !done ==> Between(o, buf[..], more, e, e, before, all) && e > start
    ensures done ==> Strings(buf[..], more) == all
  {
    hide Strings, Settled, Tokens, DropSpaces;
    ghost var b := buf[..];
    more := argv + [start];
    var found, q := FindQuote(buf, start, o);
    if found {
      buf[q] := NUL;
      assert buf[..] == b[q := NUL];
      e := SkipSpaces(buf, q + 1, o);
      QuoteCloses(o, b, argv, start, all, q, e, before, buf[..]);
      return more, e, false;
    }
    var length := Strlen(buf, start, o);
    buf[start + length - 1] := NUL;
    assert buf[..] == b[|o| - 2 := NUL];
    QuoteNeverCloses(o, b, argv, start, all);
    return more, start, true;
  }

  method Strlen(buf: array<char>, from: nat, ghost o: seq<char>) returns (n: nat)
    requires IsLine(o) && from <= |o| - 2 && Untouched(o, buf[..], from)
    ensures from + n == |o| - 1
  {
    n := 0;
    assert buf[..][from] == o[from];
    while buf[from + n] != NUL
      invariant from + n <= |o| - 1 && buf[..][from + n] == o[from + n]
      decreases |o| - n
    {
      n := n + 1;
      assert buf[..][from + n] == o[from + n];
    }
    NoNulAt(o, from + n);
  }

  /**
   * `parseline`: on return the places in `argv` are the C strings the line is made of. `before` is the character
   * in front of the buffer, which the code looks at when a quote or the newline comes first.
   */
  method Parseline(buf: array<char>, before: char) returns (argv: seq<nat>)
    requires IsLine(buf[..])
    modifies buf
    ensures Strings(buf[..], argv) == Arguments(old(buf[..]), before)
    ensures |argv| == |Arguments(old(buf[..]), before)|
  {
    hide Strings, Settled, Tokens, DropSpaces, QuoteAt;
    ghost var o, all := buf[..], Arguments(buf[..], before);
    var w := SkipSpaces(buf, 0, o);
    var delim := w;
    argv := [];
    StartsBetween(o, w, before);
    while true
      invariant buf.Length == |o|
      invariant Between(o, buf[..], argv, w, delim, before, all)
      decreases |o| - delim
    {
      ghost var b := buf[..];
      assert b[delim] == o[delim];
      CharAtHand(o, delim);
      if buf[delim] == BLANK {
        argv, w := OnBlank(buf, argv, w, delim, before, o, all);
        delim := w;
      } else if buf[delim] == NEWLINE {
        argv := OnNewline(buf, argv, w, delim, before, o, all);
        break;
      } else if buf[delim] == QUOTE {
        var done;
        argv, w, done := OnQuote(buf, argv, w, delim, before, o, all);
        if done {
          break;
        }
        delim := w;
      } else {
        TurnOnChar(o, b, argv, w, delim, before, all);
        delim := delim + 1;
      }
    }
    StringsSize(buf[..], argv);
  }

  lemma {:induction false} StringsSize(b: seq<char>, argv: seq<nat>)
    ensures |Strings(b, argv)| == |argv|
    decreases |argv|
  {
    if argv != [] {
      StringsSize(b, argv[..|argv| - 1]);
    }
  }

  /** The newline of the line is the only one. */
  lemma CharAtHand(o: seq<char>, d: nat)
    requires IsLine(o) && d <= |o| - 2
    ensures o[d] == NEWLINE <==> d == |o| - 2
  {
    assert d < |o| - 2 ==> TextChar(o[d]);
  }

  lemma StartsBetween(o: seq<char>, w: nat, before: char)
    requires IsLine(o) && w <= |o| - 2 && Text(o)[w..] == DropSpaces(Text(o)) && (w > 0 ==> o[w - 1] == BLANK)
    ensures Between(o, o, [], w, w, before, Arguments(o, before))
  {
    hide Tokens, DropSpaces;
    assert Text(o)[w..w] == "";
    assert w == 0 ==> Text(o)[w..] == Text(o);
    assert w > 0 ==> |Text(o)[w..]| < |Text(o)|;
    assert Strings(o, []) == [];
  }

  ghost predicate IsText(s: string) {
    forall i {:trigger s[i]} :: 0 <= i < |s| ==> TextChar(s[i])
  }

  lemma {:induction false} SpacesAreText(n: nat)
    ensures IsText(Spaces(n))
    decreases n
  {
    if n > 0 {
      SpacesAreText(n - 1);
    }
  }

  lemma ShownIsText(s: Spaced)
    requires Printable(s)
    ensures IsText(Show(s.arg))
  {
    var shown := Show(s.arg);
    forall i | 0 <= i < |shown|
      ensures TextChar(shown[i])
    {
      assert s.arg.Bare? ==> PlainChar(s.arg.text[i]);
      assert s.arg.Quoted? && 0 < i < |shown| - 1 ==> s.arg.text[i - 1] != NUL && s.arg.text[i - 1] != NEWLINE;
    }
  }

  lemma {:induction false} ShowAllIsText(args: seq<Spaced>, trailing: nat)
    requires AllPrintable(args)
    ensures IsText(ShowAll(args, trailing))
    decreases |args|
  {
    hide Show, Printable;
    if args == [] {
      SpacesAreText(trailing);
    } else {
      RestPrintable(args);
      SpacesAreText(args[0].gap);
      ShownIsText(args[0]);
      ShowAllIsText(args[1..], trailing);
    }
  }

  /** What is printed, with a newline, is a line for the parser. */
  lemma PrintedIsLine(leading: nat, cmd: string, args: seq<Spaced>, trailing: nat)
    requires Plain(cmd) && AllPrintable(args)
    ensures IsLine(Printed(leading, cmd, args, trailing) + [NEWLINE, NUL])
  {
    hide AllPrintable;
    SpacesAreText(leading);
    ShowAllIsText(args, trailing);
    assert forall i {:trigger cmd[i]} :: 0 <= i < |cmd| ==> PlainChar(cmd[i]);
  }

  /** A printed command line comes back from the buffer as its command and arguments, whatever stood before it. */
  lemma {:induction false} PrintedLine(leading: nat, cmd: string, args: seq<Spaced>, trailing: nat,
          before: char, o: seq<char>)
    requires Plain(cmd) && AllPrintable(args)
    requires o == Printed(leading, cmd, args, trailing) + [NEWLINE, NUL]
    ensures Arguments(o, before) == [cmd] + Texts(args)
  {
    hide LineTokens, Printed;
    assert Text(o) == Printed(leading, cmd, args, trailing);
    PrintedReadsBack(leading, cmd, args, trailing, Parts(before));
  }
}
