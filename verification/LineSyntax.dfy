/** The syntax of a command line: words and single-quoted strings, and what is printed so that it reads back. */
module LineSyntax {

  const NUL := '\0'
  const NEWLINE := '\n'
  const BLANK := ' '
  const QUOTE := '\''

  function DropSpaces(s: string): (r: string)
    ensures |r| <= |s| && (r != "" ==> r[0] != BLANK)
    decreases |s|
  {
    if s != "" && s[0] == BLANK then DropSpaces(s[1..]) else s
  }

  function QuoteAt(s: string): (k: nat)
    ensures k <= |s| && (k < |s| ==> s[k] == QUOTE)
    decreases |s|
  {
    if s == "" || s[0] == QUOTE then 0 else QuoteAt(s[1..]) + 1
  }

  /**
   * The arguments of the rest `r` of a line. `cur` is the word begun so far; `apart` says that the last character
   * was a space or ended an argument. A quote that touches a word ends the word, and the string it opens loses its
   * leading spaces; a quote that is never closed takes the whole rest.
   */
  function Tokens(cur: string, r: string, apart: bool): seq<string>
    decreases |r|
  {
    if r == "" then (if apart then [] else [cur])
    else if r[0] == BLANK then [cur] + Tokens("", DropSpaces(r[1..]), true)
    else if r[0] == QUOTE then
      var body := if apart then r[1..] else DropSpaces(r[1..]);
      var k := QuoteAt(body);
      (if apart then [] else [cur]) +
      (if k < |body| then [body[..k]] + Tokens("", DropSpaces(body[k + 1..]), true) else [body])
    else Tokens(cur + [r[0]], r[1..], false)
  }

  /** The arguments of a line without its newline; `apart` tells of the character before the line. */
  function LineTokens(line: string, apart: bool): seq<string> {
    Tokens("", DropSpaces(line), apart || DropSpaces(line) != line)
  }

  // ----- printing -----

  datatype Arg = Bare(text: string) | Quoted(text: string)

  /** An argument and the number of spaces before it. */
  datatype Spaced = Spaced(gap: nat, arg: Arg)

  predicate PlainChar(c: char) {
    c != BLANK && c != QUOTE && c != NEWLINE && c != NUL
  }

  ghost predicate Plain(w: string) {
    w != "" && forall i {:trigger w[i]} :: 0 <= i < |w| ==> PlainChar(w[i])
  }

  ghost predicate Quotable(q: string) {
    forall i {:trigger q[i]} :: 0 <= i < |q| ==> q[i] != QUOTE && q[i] != NEWLINE && q[i] != NUL
  }

  ghost predicate Printable(s: Spaced) {
    s.gap > 0 && match s.arg
    case Bare(w) => Plain(w)
    case Quoted(q) => Quotable(q)
  }

  ghost predicate AllPrintable(args: seq<Spaced>) {
    forall i {:trigger Printable(args[i])} :: 0 <= i < |args| ==> Printable(args[i])
  }

  function Spaces(n: nat): (s: string)
    ensures |s| == n
    decreases n
  {
    if n == 0 then "" else [BLANK] + Spaces(n - 1)
  }

  function Show(a: Arg): string {
    match a
    case Bare(w) => w
    case Quoted(q) => [QUOTE] + (q + [QUOTE])
  }

  function ShowAll(args: seq<Spaced>, trailing: nat): string
    decreases |args|
  {
    if args == [] then Spaces(trailing)
    else Spaces(args[0].gap) + (Show(args[0].arg) + ShowAll(args[1..], trailing))
  }

  function Texts(args: seq<Spaced>): seq<string>
    decreases |args|
  {
    if args == [] then [] else [args[0].arg.text] + Texts(args[1..])
  }

  function Printed(leading: nat, cmd: string, args: seq<Spaced>, trailing: nat): string {
    Spaces(leading) + (cmd + ShowAll(args, trailing))
  }

  // ----- reading back -----

  lemma {:induction false} SpacesDropped(n: nat, r: string)
    ensures DropSpaces(Spaces(n) + r) == DropSpaces(r)
    decreases n
  {
    if n == 0 {
      assert Spaces(0) + r == r;
    } else {
      assert (Spaces(n) + r)[1..] == Spaces(n - 1) + r;
      SpacesDropped(n - 1, r);
    }
  }

  lemma {:induction false} WordTaken(cur: string, w: string, r: string, apart: bool)
    requires forall i {:trigger w[i]} :: 0 <= i < |w| ==> PlainChar(w[i])
    ensures Tokens(cur, w + r, apart) == if w == "" then Tokens(cur, r, apart) else Tokens(cur + w, r, false)
    decreases |w|
  {
    if w == "" {
      assert w + r == r;
    } else {
      assert (w + r)[0] == w[0] && (w + r)[1..] == w[1..] + r;
      forall i | 0 <= i < |w[1..]|
        ensures PlainChar(w[1..][i])
      {
        assert w[1..][i] == w[i + 1];
      }
      assert PlainChar(w[0]);
      WordTaken(cur + [w[0]], w[1..], r, false);
      assert cur + [w[0]] + w[1..] == cur + w;
      if w[1..] == "" {
        assert cur + [w[0]] == cur + w;
      }
    }
  }

  lemma {:induction false} QuoteFound(q: string, r: string)
    requires Quotable(q)
    ensures QuoteAt(q + ([QUOTE] + r)) == |q|
    decreases |q|
  {
    if q == "" {
      assert q + ([QUOTE] + r) == [QUOTE] + r;
    } else {
      assert (q + ([QUOTE] + r))[1..] == q[1..] + ([QUOTE] + r);
      assert q[0] != QUOTE;
      forall i | 0 <= i < |q[1..]|
        ensures q[1..][i] != QUOTE && q[1..][i] != NEWLINE && q[1..][i] != NUL
      {
        assert q[1..][i] == q[i + 1];
      }
      QuoteFound(q[1..], r);
    }
  }

  lemma {:induction false} QuotedTaken(q: string, r: string)
    requires Quotable(q)
    ensures Tokens("", Show(Quoted(q)) + r, true) == [q] + Tokens("", DropSpaces(r), true)
  {
    hide DropSpaces;
    var s := Show(Quoted(q)) + r;
    QuoteFound(q, r);
    assert s[1..] == q + ([QUOTE] + r);
    assert s[1..][..|q|] == q && s[1..][|q| + 1..] == r;
  }

  lemma RestPrintable(args: seq<Spaced>)
    requires AllPrintable(args) && args != []
    ensures Printable(args[0]) && AllPrintable(args[1..])
  {
    forall i | 0 <= i < |args[1..]|
      ensures Printable(args[1..][i])
    {
      assert args[1..][i] == args[i + 1];
    }
  }

  lemma {:induction false} ShownIsNotBlank(a: Arg, r: string)
    requires a.Bare? ==> Plain(a.text)
    ensures DropSpaces(Show(a) + r) == Show(a) + r
  {
    assert a.Bare? ==> PlainChar(a.text[0]);
  }

  /** Reading on after an argument has ended. */
  lemma {:induction false} ReadsApart(args: seq<Spaced>, trailing: nat)
    requires AllPrintable(args)
    ensures Tokens("", DropSpaces(ShowAll(args, trailing)), true) == Texts(args)
    decreases |args|, 0
  {
    hide DropSpaces, Plain, Quotable;
    if args == [] {
      SpacesDropped(trailing, "");
      assert Spaces(trailing) + "" == Spaces(trailing);
      NoSpaces();
    } else {
      RestPrintable(args);
      var a, rest := args[0].arg, ShowAll(args[1..], trailing);
      SpacesDropped(args[0].gap, Show(a) + rest);
      ShownIsNotBlank(a, rest);
      match a
      case Bare(w) =>
        BareTaken(w, rest);
        ReadsWord(w, args[1..], trailing);
      case Quoted(q) =>
        QuotedTaken(q, rest);
        ReadsApart(args[1..], trailing);
    }
  }

  lemma NoSpaces()
    ensures DropSpaces("") == "" && Tokens("", "", true) == []
  {
  }

  lemma {:induction false} BareTaken(w: string, r: string)
    requires Plain(w)
    ensures Tokens("", w + r, true) == Tokens(w, r, false)
  {
    WordTaken("", w, r, true);
    assert "" + w == w;
  }

  /** Reading on within a word that ends here. */
  lemma {:induction false} ReadsWord(w: string, args: seq<Spaced>, trailing: nat)
    requires AllPrintable(args)
    ensures Tokens(w, ShowAll(args, trailing), false) == [w] + Texts(args)
    decreases |args|, 1
  {
    hide Plain, Quotable;
    var r := ShowAll(args, trailing);
    if args != [] {
      RestPrintable(args);
      FirstOfSpaces(args[0].gap, Show(args[0].arg) + ShowAll(args[1..], trailing));
      ReadsApart(args, trailing);
    } else if trailing > 0 {
      ReadsApart(args, trailing);
    }
  }

  lemma {:induction false} FirstOfSpaces(n: nat, r: string)
    requires n > 0
    ensures Spaces(n) + r != "" && (Spaces(n) + r)[0] == BLANK
  {
  }

  lemma {:induction false} CommandFirst(cmd: string, r: string, apart: bool)
    requires Plain(cmd)
    ensures DropSpaces(cmd + r) == cmd + r
    ensures Tokens("", cmd + r, apart) == Tokens(cmd, r, false)
  {
    assert PlainChar(cmd[0]);
    WordTaken("", cmd, r, apart);
    assert "" + cmd == cmd;
  }

  /**
   * Parsing undoes printing: a command word and words or quoted strings, spaces between them, read back as they were.
   */
  lemma {:induction false} PrintedReadsBack(leading: nat, cmd: string, args: seq<Spaced>, trailing: nat, apart: bool)
    requires Plain(cmd) && AllPrintable(args)
    ensures LineTokens(Printed(leading, cmd, args, trailing), apart) == [cmd] + Texts(args)
  {
    hide DropSpaces, Plain;
    var rest := ShowAll(args, trailing);
    SpacesDropped(leading, cmd + rest);
    CommandFirst(cmd, rest, apart || DropSpaces(Printed(leading, cmd, args, trailing)) != Printed(leading, cmd, args,
    trailing));
    ReadsWord(cmd, args, trailing);
  }

  /** A quoted string that touches the word before it reads back exactly when it has no leading space. */
  lemma {:induction false} TouchingQuote(w: string, q: string, r: string)
    requires Plain(w) && Quotable(q)
    ensures Tokens("", w + (Show(Quoted(q)) + r), true) == [w, DropSpaces(q)] + Tokens("", DropSpaces(r), true)
    ensures DropSpaces(q) == q <==> q == "" || q[0] != BLANK
  {
    hide DropSpaces, Plain, Tokens, QuoteAt;
    BareTaken(w, Show(Quoted(q)) + r);
    DropBeforeQuote(q, r);
    var p := DropSpaces(q);
    QuoteFound(p, r);
    var s, body := Show(Quoted(q)) + r, p + ([QUOTE] + r);
    assert s[1..] == q + ([QUOTE] + r);
    QuoteEndsWord(w, s, body);
    assert body[..|p|] == p && body[|p| + 1..] == r;
    assert [w] + ([p] + Tokens("", DropSpaces(r), true)) == [w, p] + Tokens("", DropSpaces(r), true);
    LeadingSpace(q);
  }

  lemma {:induction false} QuoteEndsWord(w: string, s: string, body: string)
    requires s != "" && s[0] == QUOTE && body == DropSpaces(s[1..]) && QuoteAt(body) < |body|
    ensures Tokens(w, s, false)
         == [w] + ([body[..QuoteAt(body)]] + Tokens("", DropSpaces(body[QuoteAt(body) + 1..]), true))
  {
    hide DropSpaces, QuoteAt;
  }

  lemma {:induction false} LeadingSpace(q: string)
    ensures DropSpaces(q) == q <==> q == "" || q[0] != BLANK
  {
  }

  lemma {:induction false} DropBeforeQuote(q: string, r: string)
    requires Quotable(q)
    ensures DropSpaces(q + ([QUOTE] + r)) == DropSpaces(q) + ([QUOTE] + r)
    ensures Quotable(DropSpaces(q))
    decreases |q|
  {
    if q == "" {
      assert q + ([QUOTE] + r) == [QUOTE] + r;
    } else if q[0] == BLANK {
      assert (q + ([QUOTE] + r))[1..] == q[1..] + ([QUOTE] + r);
      forall i | 0 <= i < |q[1..]|
        ensures q[1..][i] != QUOTE && q[1..][i] != NEWLINE && q[1..][i] != NUL
      {
        assert q[1..][i] == q[i + 1];
      }
      DropBeforeQuote(q[1..], r);
    }
  }

  lemma ShowFirst(s: Spaced, rest: seq<Spaced>, trailing: nat)
    requires s.gap == 1
    ensures ShowAll([s] + rest, trailing) == " " + (Show(s.arg) + ShowAll(rest, trailing))
    ensures Texts([s] + rest) == [s.arg.text] + Texts(rest)
  {
    assert ([s] + rest)[0] == s && ([s] + rest)[1..] == rest;
    assert Spaces(1) == " ";
  }

  lemma ShowNone()
    ensures ShowAll([], 0) == "" && Texts([]) == [] && Spaces(0) == ""
  {
  }

  lemma PlainWords()
    ensures Plain("go") && Printable(Spaced(1, Quoted("a b"))) && Printable(Spaced(1, Bare("c")))
    ensures Show(Quoted("a b")) == "'a b'" && Show(Bare("c")) == "c"
    ensures NUL == '\0' && NEWLINE == '\n'
  {
  }

  /** Words stand between spaces, strings between single quotes. */
  lemma LineReads(apart: bool)
    ensures LineTokens("go 'a b' c", apart) == ["go", "a b", "c"]
    ensures NUL == '\0' && NEWLINE == '\n'
  {
    hide LineTokens, Printable, Plain, ShowAll, Texts, Show, Spaces;
    var a, b := Spaced(1, Quoted("a b")), Spaced(1, Bare("c"));
    PlainWords();
    ShowFirst(a, [b], 0);
    ShowFirst(b, [], 0);
    ShowNone();
    assert [b] + [] == [b] && [a] + [b] == [a, b];
    PrintedReadsBack(0, "go", [a, b], 0, apart);
    assert Printed(0, "go", [a, b], 0) == "go 'a b' c";
  }

  /** A quote that is never closed takes the rest of the line. */
  lemma {:induction false} UnclosedQuote(q: string)
    requires Quotable(q)
    ensures Tokens("", [QUOTE] + q, true) == [q]
  {
    NoQuoteFound(q);
    assert ([QUOTE] + q)[1..] == q;
  }

  lemma {:induction false} NoQuoteFound(q: string)
    requires Quotable(q)
    ensures QuoteAt(q) == |q|
    decreases |q|
  {
    if q != "" {
      assert q[0] != QUOTE;
      forall i | 0 <= i < |q[1..]|
        ensures q[1..][i] != QUOTE && q[1..][i] != NEWLINE && q[1..][i] != NUL
      {
        assert q[1..][i] == q[i + 1];
      }
      NoQuoteFound(q[1..]);
    }
  }
}
