/** Options written on a command line in any of the usual ways are read back, with the operands behind them. */
module OptionReading {
  import opened OptionGrammar

  /** A flag, or an option with its argument, attached or apart. */
  datatype Given = GivenFlag(c: char) | GivenArg(c: char, arg: string, apart: bool)

  /** The option string first has `c` at `k`. */
  ghost predicate FirstAt(opts: string, c: char, k: int) {
    0 <= k < |opts| && opts[k] == c && forall j | 0 <= j < k :: opts[j] != c
  }

  ghost predicate ColonAfter(opts: string, k: int) {
    0 <= k && k + 1 < |opts| && opts[k + 1] == ':'
  }

  /** The letter may be written: it is in the option string, with a colon behind it if it has an argument. */
  ghost predicate Writable(opts: string, g: Given) {
    && g.c != ':' && g.c != '-'
    && (exists k :: FirstAt(opts, g.c, k) && (ColonAfter(opts, k) <==> g.GivenArg?))
    && (g.GivenArg? && !g.apart ==> g.arg != "")
  }

  ghost predicate AllWritable(opts: string, gs: seq<Given>) {
    forall i {:trigger gs[i]} | 0 <= i < |gs| :: Writable(opts, gs[i])
  }

  function WordsOf(g: Given): seq<string> {
    match g
    case GivenFlag(c) => [['-', c]]
    case GivenArg(c, arg, apart) => if apart then [['-', c], arg] else [['-', c] + arg]
  }

  function Written(gs: seq<Given>): seq<string>
    decreases |gs|
  {
    if gs == [] then [] else WordsOf(gs[0]) + Written(gs[1..])
  }

  function ItemOf(g: Given): Item {
    match g
    case GivenFlag(c) => Flag(c)
    case GivenArg(c, arg, _) => WithArg(c, arg)
  }

  function ItemsOf(gs: seq<Given>): (items: seq<Item>)
    ensures |items| == |gs|
  {
    seq(|gs|, i requires 0 <= i < |gs| => ItemOf(gs[i]))
  }

  /** The first place of a letter is found whenever there is one. */
  lemma {:induction false} PositionIsFirst(opts: string, c: char, i: nat)
    requires i <= |opts|
    ensures forall j | i <= j < Position(opts, c, i) :: opts[j] != c
    decreases |opts| - i
  {
    if i < |opts| && opts[i] != c {
      PositionIsFirst(opts, c, i + 1);
    }
  }

  lemma WritableIsKnown(opts: string, g: Given)
    requires Writable(opts, g)
    ensures Known(opts, g.c) && (TakesArg(opts, g.c) <==> g.GivenArg?)
  {
    PositionIsFirst(opts, g.c, 0);
    var p := Position(opts, g.c, 0);
    var k :| FirstAt(opts, g.c, k) && (ColonAfter(opts, k) <==> g.GivenArg?);
    assert p == k;
  }

  lemma {:induction false} ReadOne(opts: string, g: Given, rest: seq<string>)
    requires Writable(opts, g)
    ensures Words(opts, WordsOf(g) + rest) == Prefixed(ItemOf(g), Words(opts, rest))
  {
    hide Known, TakesArg, Writable, Words, Letters;
    WritableIsKnown(opts, g);
    NotMinus(opts, g);
    if g.GivenFlag? {
      OneWord(opts, [g.c], rest);
      assert "-" + [g.c] == ['-', g.c] && [g.c] + "" == [g.c];
      FlagLetter(opts, g.c, "", rest);
      NoLetters(opts, rest);
    } else if g.apart {
      assert "-" + [g.c] == ['-', g.c];
      assert WordsOf(g) + rest == ["-" + [g.c]] + ([g.arg] + rest);
      OneWord(opts, [g.c], [g.arg] + rest);
      ArgApart(opts, g.c, g.arg, rest);
    } else {
      assert ['-', g.c] + g.arg == "-" + ([g.c] + g.arg);
      OneWord(opts, [g.c] + g.arg, rest);
      ArgAttached(opts, g.c, g.arg, rest);
    }
  }

  lemma NotMinus(opts: string, g: Given)
    requires Writable(opts, g)
    ensures g.c != '-' && (g.GivenArg? && !g.apart ==> g.arg != "")
    ensures [g.c] != "-" && (g.GivenArg? ==> [g.c] + g.arg != "-")
  {
    assert [g.c][0] == g.c;
    assert g.GivenArg? ==> ([g.c] + g.arg)[0] == g.c;
  }

  lemma {:induction false} ArgApart(opts: string, c: char, arg: string, rest: seq<string>)
    requires Known(opts, c) && TakesArg(opts, c)
    ensures Letters(opts, [c], [arg] + rest) == Prefixed(WithArg(c, arg), Words(opts, rest))
  {
    hide Known, TakesArg;
    assert [c][1..] == "" && ([arg] + rest)[1..] == rest;
  }

  lemma {:induction false} ArgAttached(opts: string, c: char, arg: string, rest: seq<string>)
    requires Known(opts, c) && TakesArg(opts, c) && arg != ""
    ensures Letters(opts, [c] + arg, rest) == Prefixed(WithArg(c, arg), Words(opts, rest))
  {
    hide Known, TakesArg;
    assert ([c] + arg)[0] == c && ([c] + arg)[1..] == arg;
  }

  /** Whatever options are written, in this order they are read; what is behind them is read by itself. */
  lemma {:induction false} WrittenReadsBack(opts: string, gs: seq<Given>, tail: seq<string>)
    requires AllWritable(opts, gs)
    ensures Words(opts, Written(gs) + tail)
         == Parsed(ItemsOf(gs) + Words(opts, tail).items, Words(opts, tail).operands)
    decreases |gs|
  {
    hide Writable, Words;
    if gs == [] {
      assert Written(gs) + tail == tail;
      assert ItemsOf(gs) + Words(opts, tail).items == Words(opts, tail).items;
    } else {
      assert forall i :: 0 <= i < |gs[1..]| ==> gs[1..][i] == gs[i + 1];
      WrittenReadsBack(opts, gs[1..], tail);
      ReadOne(opts, gs[0], Written(gs[1..]) + tail);
      assert Written(gs) + tail == WordsOf(gs[0]) + (Written(gs[1..]) + tail);
      assert ItemsOf(gs) == [ItemOf(gs[0])] + ItemsOf(gs[1..]);
      assert [ItemOf(gs[0])] + (ItemsOf(gs[1..]) + Words(opts, tail).items)
          == ItemsOf(gs) + Words(opts, tail).items;
    }
  }

  /** Options end with a double minus sign, or before a word that does not begin with a minus sign and more. */
  lemma {:induction false} OptionsEnd(opts: string, operands: seq<string>)
    ensures Words(opts, ["--"] + operands) == Parsed([], operands)
    ensures operands == [] || |operands[0]| < 2 || operands[0][0] != '-' ==>
      Words(opts, operands) == Parsed([], operands)
  {
    assert (["--"] + operands)[0] == "--" && (["--"] + operands)[1..] == operands;
  }

  /** A letter that is a colon or not in the option string is reported as unknown, and reading goes on. */
  lemma {:induction false} UnknownIsTold(opts: string, c: char, rest: seq<string>)
    requires (c == ':' || c !in opts) && c != '-'
    ensures Words(opts, [['-', c]] + rest) == Prefixed(Unknown(c), Words(opts, rest))
  {
    assert ['-', c] == "-" + [c] && [c] != "-";
    OneWord(opts, [c], rest);
    assert [c][1..] == "";
  }

  /** An option whose argument is missing at the end of the words is reported as such. */
  lemma {:induction false} MissingIsTold(opts: string, c: char, k: int)
    requires FirstAt(opts, c, k) && ColonAfter(opts, k) && c != ':' && c != '-'
    ensures Words(opts, [['-', c]]) == Parsed([Missing(c)], [])
  {
    WritableIsKnown(opts, GivenArg(c, "x", false));
    assert ['-', c] == "-" + [c] && [c] != "-" && [['-', c]] + [] == [['-', c]];
    OneWord(opts, [c], []);
    assert [c][1..] == "";
  }
}
