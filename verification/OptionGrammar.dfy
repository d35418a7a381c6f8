/** Command-line options as a grammar over words: what a scanner of options has to report. */
module OptionGrammar {

  /** What is said of one option letter. */
  datatype Item = Flag(c: char) | WithArg(c: char, arg: string) | Unknown(c: char) | Missing(c: char)

  /** The options found, in order, and the words that are not options. */
  datatype Parsed = Parsed(items: seq<Item>, operands: seq<string>)

  /** Where `c` first occurs in `opts`, from position `i` on. */
  function Position(opts: string, c: char, i: nat): (k: nat)
    requires i <= |opts|
    ensures i <= k <= |opts| && (k < |opts| ==> opts[k] == c)
    decreases |opts| - i
  {
    if i == |opts| || opts[i] == c then i else Position(opts, c, i + 1)
  }

  predicate Known(opts: string, c: char) {
    c != ':' && Position(opts, c, 0) < |opts|
  }

  predicate TakesArg(opts: string, c: char) {
    var k := Position(opts, c, 0);
    k + 1 < |opts| && opts[k + 1] == ':'
  }

  /** A word that stands for options: a minus sign and more. */
  predicate OptionLike(word: string) {
    |word| >= 2 && word[0] == '-'
  }

  function Prefixed(item: Item, p: Parsed): Parsed {
    p.(items := [item] + p.items)
  }

  /** Options come before operands; a double minus sign ends them and is no operand. */
  function Words(opts: string, words: seq<string>): Parsed
    decreases |words|, 0
  {
    if words == [] || !OptionLike(words[0]) then Parsed([], words)
    else if words[0] == "--" then Parsed([], words[1..])
    else Letters(opts, words[0][1..], words[1..])
  }

  /** Letters of one word; an option's argument is the rest of its word, or else the whole next word. */
  function Letters(opts: string, letters: string, rest: seq<string>): Parsed
    decreases |rest|, |letters| + 1
  {
    if letters == "" then Words(opts, rest)
    else
      var c, more := letters[0], letters[1..];
      if !Known(opts, c) then Prefixed(Unknown(c), Letters(opts, more, rest))
      else if !TakesArg(opts, c) then Prefixed(Flag(c), Letters(opts, more, rest))
      else if more != "" then Prefixed(WithArg(c, more), Words(opts, rest))
      else if rest != [] then Prefixed(WithArg(c, rest[0]), Words(opts, rest[1..]))
      else Prefixed(Missing(c), Parsed([], []))
  }

  /** What is left to report for a scanner at letter `sp` of word `optind`; at 1 it has yet to look at the word. */
  function Pending(opts: string, argv: seq<string>, sp: nat, optind: nat): Parsed
    requires optind <= |argv| && (sp == 1 || (optind < |argv| && sp <= |argv[optind]|))
  {
    if sp == 1 then Words(opts, argv[optind..]) else Letters(opts, argv[optind][sp..], argv[optind + 1..])
  }

  // ----- properties of the grammar -----

  /** Operands are a tail of the words. */
  lemma {:induction false} OperandsAreTail(opts: string, words: seq<string>)
    ensures var p := Words(opts, words); |p.operands| <= |words| && p.operands == words[|words| - |p.operands|..]
    decreases |words|, 0
  {
    if words != [] && OptionLike(words[0]) && words[0] != "--" {
      LettersTail(opts, words[0][1..], words[1..]);
    }
  }

  lemma {:induction false} LettersTail(opts: string, letters: string, rest: seq<string>)
    ensures var p := Letters(opts, letters, rest); |p.operands| <= |rest| && p.operands == rest[|rest| - |p.operands|..]
    decreases |rest|, |letters| + 1
  {
    if letters == "" {
      OperandsAreTail(opts, rest);
    } else if !Known(opts, letters[0]) || !TakesArg(opts, letters[0]) {
      LettersTail(opts, letters[1..], rest);
    } else if letters[1..] != "" {
      OperandsAreTail(opts, rest);
    } else if rest != [] {
      OperandsAreTail(opts, rest[1..]);
    }
  }

  lemma {:induction false} FlagLetter(opts: string, c: char, more: string, rest: seq<string>)
    requires Known(opts, c) && !TakesArg(opts, c)
    ensures Letters(opts, [c] + more, rest) == Prefixed(Flag(c), Letters(opts, more, rest))
  {
    hide Known, TakesArg;
    assert ([c] + more)[1..] == more;
  }

  lemma {:induction false} NoLetters(opts: string, rest: seq<string>)
    ensures Letters(opts, "", rest) == Words(opts, rest)
  {
  }

  /** Flags may be written as one word or as several. */
  lemma {:induction false} FlagsMayBeGrouped(opts: string, c: char, more: string, rest: seq<string>)
    requires Known(opts, c) && !TakesArg(opts, c) && c != '-' && more != "" && more != "-"
    ensures Words(opts, ["-" + [c] + more] + rest) == Words(opts, ["-" + [c], "-" + more] + rest)
  {
    hide Words, Letters;
    OneWord(opts, [c] + more, rest);
    OneWord(opts, [c], ["-" + more] + rest);
    OneWord(opts, more, rest);
    FlagLetter(opts, c, more, rest);
    FlagLetter(opts, c, "", ["-" + more] + rest);
    NoLetters(opts, ["-" + more] + rest);
    assert [c] + "" == [c];
    assert "-" + [c] + more == "-" + ([c] + more);
    assert ["-" + [c], "-" + more] + rest == ["-" + [c]] + (["-" + more] + rest);
  }

  /** An option's argument may be attached or stand as the next word. */
  lemma {:induction false} ArgMayBeApart(opts: string, c: char, arg: string, rest: seq<string>)
    requires Known(opts, c) && TakesArg(opts, c) && c != '-' && arg != ""
    ensures Words(opts, ["-" + [c] + arg] + rest) == Words(opts, ["-" + [c], arg] + rest)
  {
    OneWord(opts, [c] + arg, rest);
    OneWord(opts, [c], [arg] + rest);
    assert ([c] + arg)[1..] == arg && ([c] + arg)[0] == c;
    assert [c][1..] == "";
    assert "-" + [c] + arg == "-" + ([c] + arg);
    assert ["-" + [c], arg] + rest == ["-" + [c]] + ([arg] + rest);
    assert ([arg] + rest)[0] == arg && ([arg] + rest)[1..] == rest;
  }

  lemma {:induction false} OneWord(opts: string, letters: string, rest: seq<string>)
    requires letters != "" && letters != "-"
    ensures Words(opts, ["-" + letters] + rest) == Letters(opts, letters, rest)
  {
    var words := ["-" + letters] + rest;
    assert words[0] == "-" + letters && words[1..] == rest;
    assert words[0][1..] == letters;
    assert words[0] != "--" by {
      assert "--"[1..] == "-";
    }
  }

  /** A lone option character, looked at from its letter on, is reported first. */
  lemma HeadOfLetters(opts: string, w: string, sp: nat, rest: seq<string>)
    requires sp < |w|
    ensures w[sp..][0] == w[sp] && w[sp..][1..] == w[sp + 1..] && w[sp..] != ""
  {
  }
}
