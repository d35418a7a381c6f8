/** The loop of `parseline` in hw4/src/cli.c on any C string, also on a last line that has no newline. */
module LiteralLine {
  import opened LineSyntax

  /** The loop stops with these arguments, or it passes the terminating NUL and leaves the buffer. */
  datatype Scan = Stops(args: seq<string>) | Leaves

  function Following(args: seq<string>, scan: Scan): Scan {
    match scan
    case Stops(more) => Stops(args + more)
    case Leaves => Leaves
  }

  /** An open quote costs the string behind it its last character, which the code takes for the newline. */
  function Shortened(s: string): string {
    if s == "" then "" else s[..|s| - 1]
  }

  /** The string a quote opens at the rest `r` of the line. */
  function Opened(r: string, apart: bool): (body: string)
    requires r != ""
    ensures |body| < |r|
  {
    if apart then r[1..] else DropSpaces(r[1..])
  }

  function Begun(cur: string, apart: bool): seq<string> {
    if apart then [] else [cur]
  }

  /** The loop at the rest `r` of the C string, the word `cur` being begun. */
  function LiteralScan(cur: string, r: string, apart: bool): Scan
    decreases |r|
  {
    if r == "" then Leaves
    else if r[0] == NEWLINE then Stops(Begun(cur, apart))
    else if r[0] == BLANK then Following([cur], LiteralScan("", DropSpaces(r[1..]), true))
    else if r[0] == QUOTE then
      var body, word := Opened(r, apart), Begun(cur, apart);
      var k := QuoteAt(body);
      if k < |body| then Following(word + [body[..k]], LiteralScan("", DropSpaces(body[k + 1..]), true))
      else Stops(word + [Shortened(body)])
    else LiteralScan(cur + [r[0]], r[1..], false)
  }

  ghost predicate NoNewline(s: string) {
    forall i {:trigger s[i]} :: 0 <= i < |s| ==> s[i] != NEWLINE
  }

  lemma {:induction false} DroppedTail(s: string)
    ensures |DropSpaces(s)| <= |s| && DropSpaces(s) == s[|s| - |DropSpaces(s)|..]
    decreases |s|
  {
    if s != "" && s[0] == BLANK {
      DroppedTail(s[1..]);
    }
  }

  lemma TailHasNone(s: string, k: nat)
    requires NoNewline(s) && k <= |s|
    ensures NoNewline(s[k..])
  {
    forall i | 0 <= i < |s[k..]|
      ensures s[k..][i] != NEWLINE
    {
      assert s[k..][i] == s[k + i];
    }
  }

  lemma {:induction false} DroppedHasNone(s: string)
    requires NoNewline(s)
    ensures NoNewline(DropSpaces(s))
  {
    DroppedTail(s);
    TailHasNone(s, |s| - |DropSpaces(s)|);
  }

  lemma {:induction false} DroppedBefore(s: string)
    ensures DropSpaces(s + [NEWLINE]) == DropSpaces(s) + [NEWLINE]
    decreases |s|
  {
    if s != "" && s[0] == BLANK {
      assert (s + [NEWLINE])[1..] == s[1..] + [NEWLINE];
      DroppedBefore(s[1..]);
    } else if s != "" {
      assert (s + [NEWLINE])[0] == s[0];
    }
  }

  lemma {:induction false} QuoteBefore(s: string)
    ensures QuoteAt(s + [NEWLINE]) == if QuoteAt(s) < |s| then QuoteAt(s) else |s| + 1
    decreases |s|
  {
    if s != "" && s[0] != QUOTE {
      assert (s + [NEWLINE])[1..] == s[1..] + [NEWLINE];
      QuoteBefore(s[1..]);
    } else if s == "" {
      assert (s + [NEWLINE])[1..] == "";
    }
  }

  lemma ScanAtQuote(cur: string, r: string, apart: bool)
    requires r != "" && r[0] == QUOTE
    ensures var body, word := Opened(r, apart), Begun(cur, apart);
      var k := QuoteAt(body);
      LiteralScan(cur, r, apart)
      == if k < |body| then Following(word + [body[..k]], LiteralScan("", DropSpaces(body[k + 1..]), true))
         else Stops(word + [Shortened(body)])
  {
  }

  lemma TokensAtQuote(cur: string, r: string, apart: bool)
    requires r != "" && r[0] == QUOTE
    ensures var body, word := Opened(r, apart), Begun(cur, apart);
      var k := QuoteAt(body);
      Tokens(cur, r, apart)
      == if k < |body| then word + [body[..k]] + Tokens("", DropSpaces(body[k + 1..]), true) else word + [body]
  {
    hide DropSpaces, QuoteAt;
    var body, word := Opened(r, apart), Begun(cur, apart);
    var k := QuoteAt(body);
    if k < |body| {
      var rest := Tokens("", DropSpaces(body[k + 1..]), true);
      assert word + ([body[..k]] + rest) == word + [body[..k]] + rest;
    }
  }

  /** On a line with its newline the loop stops, with the arguments of the text. */
  lemma {:induction false} TerminatedStops(cur: string, t: string, apart: bool)
    requires NoNewline(t)
    ensures LiteralScan(cur, t + [NEWLINE], apart) == Stops(Tokens(cur, t, apart))
    decreases |t|
  {
    var r := t + [NEWLINE];
    if t != "" {
      assert r[0] == t[0] != NEWLINE && r[1..] == t[1..] + [NEWLINE];
      TailHasNone(t, 1);
      DroppedBefore(t[1..]);
      DroppedHasNone(t[1..]);
      if t[0] == BLANK {
        TerminatedStops("", DropSpaces(t[1..]), true);
      } else if t[0] == QUOTE {
        TerminatedString(cur, t, apart);
      } else {
        TerminatedStops(cur + [t[0]], t[1..], false);
      }
    }
  }

  lemma {:induction false} TerminatedString(cur: string, t: string, apart: bool)
    requires NoNewline(t) && t != "" && t[0] == QUOTE
    ensures LiteralScan(cur, t + [NEWLINE], apart) == Stops(Tokens(cur, t, apart))
    decreases |t|, 0
  {
    hide LiteralScan, Tokens, QuoteAt, DropSpaces;
    var r := t + [NEWLINE];
    var body := Opened(t, apart);
    assert r[0] == t[0] && r[1..] == t[1..] + [NEWLINE];
    TailHasNone(t, 1);
    DroppedBefore(t[1..]);
    DroppedHasNone(t[1..]);
    QuoteBefore(body);
    ScanAtQuote(cur, r, apart);
    TokensAtQuote(cur, t, apart);
    assert Opened(r, apart) == body + [NEWLINE];
    var k := QuoteAt(body);
    if k < |body| {
      assert (body + [NEWLINE])[..k] == body[..k];
      assert (body + [NEWLINE])[k + 1..] == body[k + 1..] + [NEWLINE];
      DroppedBefore(body[k + 1..]);
      TailHasNone(body, k + 1);
      DroppedHasNone(body[k + 1..]);
      TerminatedStops("", DropSpaces(body[k + 1..]), true);
    } else {
      assert Shortened(body + [NEWLINE]) == body;
    }
  }

  // ----- a last line without a newline -----

  function Quotes(s: string): nat
    decreases |s|
  {
    if s == "" then 0 else (if s[0] == QUOTE then 1 else 0) + Quotes(s[1..])
  }

  lemma {:induction false} QuotesDropped(s: string)
    ensures Quotes(DropSpaces(s)) == Quotes(s)
    decreases |s|
  {
    if s != "" && s[0] == BLANK {
      QuotesDropped(s[1..]);
    }
  }

  lemma {:induction false} QuotesAfter(s: string)
    ensures Quotes(s) == if QuoteAt(s) < |s| then 1 + Quotes(s[QuoteAt(s) + 1..]) else 0
    decreases |s|
  {
    if s != "" && s[0] != QUOTE {
      QuotesAfter(s[1..]);
      assert QuoteAt(s) < |s| ==> s[1..][QuoteAt(s[1..]) + 1..] == s[QuoteAt(s) + 1..];
    }
  }

  function LastShortened(args: seq<string>): seq<string>
    requires args != []
  {
    args[..|args| - 1] + [Shortened(args[|args| - 1])]
  }

  lemma LastOfMore(args: seq<string>, more: seq<string>)
    requires more != []
    ensures LastShortened(args + more) == args + LastShortened(more)
  {
  }

  /**
   * On a line without its newline the loop stays in the buffer exactly when the number of quotes is odd. It then stops
   * with the arguments of the text, the last of which has lost its last character.
   */
  lemma {:induction false} UnterminatedScan(cur: string, t: string, apart: bool)
    requires NoNewline(t)
    ensures LiteralScan(cur, t, apart).Leaves? <==> Quotes(t) % 2 == 0
    ensures LiteralScan(cur, t, apart).Stops? ==> Tokens(cur, t, apart) != []
    ensures LiteralScan(cur, t, apart).Stops? ==>
      LiteralScan(cur, t, apart) == Stops(LastShortened(Tokens(cur, t, apart)))
    decreases |t|
  {
    if t != "" {
      TailHasNone(t, 1);
      DroppedHasNone(t[1..]);
      QuotesDropped(t[1..]);
      if t[0] == BLANK {
        UnterminatedScan("", DropSpaces(t[1..]), true);
        if LiteralScan(cur, t, apart).Stops? {
          LastOfMore([cur], Tokens("", DropSpaces(t[1..]), true));
        }
      } else if t[0] == QUOTE {
        UnterminatedString(cur, t, apart);
      } else {
        UnterminatedScan(cur + [t[0]], t[1..], false);
      }
    }
  }

  lemma {:induction false} UnterminatedString(cur: string, t: string, apart: bool)
    requires NoNewline(t) && t != "" && t[0] == QUOTE
    ensures LiteralScan(cur, t, apart).Leaves? <==> Quotes(t) % 2 == 0
    ensures LiteralScan(cur, t, apart).Stops? ==> Tokens(cur, t, apart) != []
    ensures LiteralScan(cur, t, apart).Stops? ==>
      LiteralScan(cur, t, apart) == Stops(LastShortened(Tokens(cur, t, apart)))
    decreases |t|, 0
  {
    hide LiteralScan, Tokens, QuoteAt, DropSpaces;
    var body, word := Opened(t, apart), Begun(cur, apart);
    TailHasNone(t, 1);
    DroppedHasNone(t[1..]);
    QuotesDropped(t[1..]);
    QuotesAfter(body);
    ScanAtQuote(cur, t, apart);
    TokensAtQuote(cur, t, apart);
    var k := QuoteAt(body);
    if k < |body| {
      var rest := DropSpaces(body[k + 1..]);
      TailHasNone(body, k + 1);
      DroppedHasNone(body[k + 1..]);
      QuotesDropped(body[k + 1..]);
      UnterminatedScan("", rest, true);
      if LiteralScan("", rest, true).Stops? {
        LastOfMore(word + [body[..k]], Tokens("", rest, true));
      }
    } else {
      LastOfMore(word, [body]);
    }
  }

  /** The whole of `parseline`, which first passes over spaces. */
  function LiteralLineScan(s: string, apart: bool): Scan {
    LiteralScan("", DropSpaces(s), apart || DropSpaces(s) != s)
  }

  /**
   * On any line of text the loop stops in the buffer with the arguments of the text if the newline is there. Without
   * it, it leaves the buffer exactly when the quotes are even in number.
   */
  lemma {:induction false} LiteralLineStops(t: string, apart: bool)
    requires NoNewline(t)
    ensures LiteralLineScan(t + [NEWLINE], apart) == Stops(LineTokens(t, apart))
    ensures LiteralLineScan(t, apart).Leaves? <==> Quotes(t) % 2 == 0
    ensures LiteralLineScan(t, apart).Stops? ==>
      LineTokens(t, apart) != [] && LiteralLineScan(t, apart) == Stops(LastShortened(LineTokens(t, apart)))
  {
    DroppedBefore(t);
    DroppedHasNone(t);
    QuotesDropped(t);
    var s := DropSpaces(t);
    assert s + [NEWLINE] == t + [NEWLINE] <==> s == t by {
      if s + [NEWLINE] == t + [NEWLINE] {
        assert s == (s + [NEWLINE])[..|s|] && t == (t + [NEWLINE])[..|t|];
      }
    }
    TerminatedStops("", s, apart || s != t);
    UnterminatedScan("", s, apart || s != t);
  }

  /** A word at the end of the input with no newline behind it: the loop leaves the buffer. */
  lemma LiteralLineLeaves(apart: bool)
    ensures LiteralLineScan("quit", apart) == Leaves
  {
    var t := "quit";
    assert Quotes(t) == 0 by {
      assert t[1..] == "uit" && t[1..][1..] == "it" && t[1..][1..][1..] == "t" && t[1..][1..][1..][1..] == "";
    }
    LiteralLineStops(t, apart);
  }
}
