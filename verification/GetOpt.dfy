/** The resumable scanner `att_getopt` of hw2/src/getopt.c, whose state lives between calls. */
module GetOpt {
  import opened OptionGrammar
  import opened Wrappers

  /** The value of a call: the end of options, or a letter. */
  datatype Answer = Eof | Letter(c: char)

  /** The letter a call returns for an item. */
  function Code(item: Item): char {
    match item
    case Flag(c) => c
    case WithArg(c, _) => c
    case Unknown(_) => '?'
    case Missing(_) => '?'
  }

  lemma WordAtHand(argv: seq<string>, i: nat)
    requires i < |argv|
    ensures argv[i..] != [] && argv[i..][0] == argv[i] && argv[i..][1..] == argv[i + 1..]
  {
  }

  class Scanner {
    var sp: nat
    var optind: nat
    var optopt: char
    var optarg: Option<string>

    ghost predicate Valid(argv: seq<string>)
      reads this
    {
      && 1 <= optind <= |argv|
      && (sp == 1 || (optind < |argv| && 1 < sp < |argv[optind]|))
    }

    /** The static and global variables before the first call. */
    constructor ()
      ensures sp == 1 && optind == 1
    {
      sp := 1;
      optind := 1;
      optopt := '\0';
      optarg := None;
    }

    /** Whether a character with a following colon, or none, starts at position `k` of the option string. */
    method Strchr(opts: string, c: char) returns (k: nat)
      ensures k == Position(opts, c, 0)
      ensures c !in opts[..k] && k <= |opts| && (k < |opts| ==> opts[k] == c)
    {
      k := 0;
      while k < |opts| && opts[k] != c
        invariant 0 <= k <= |opts| && Position(opts, c, 0) == Position(opts, c, k) && c !in opts[..k]
      {
        k := k + 1;
      }
    }

    /** Moves on by one letter. */
    method NextLetter(opts: string, argv: seq<string>)
      requires 1 <= optind < |argv| && 1 <= sp < |argv[optind]|
      modifies `sp, `optind
      ensures Valid(argv)
      ensures Pending(opts, argv, sp, optind) == Letters(opts, argv[old(optind)][old(sp) + 1..],
        argv[old(optind) + 1..])
      ensures optind > old(optind) || (optind == old(optind) && sp > old(sp))
    {
      sp := sp + 1;
      if sp == |argv[optind]| {
        assert argv[optind][sp..] == "";
        optind := optind + 1;
        sp := 1;
      }
    }

    /** An option that takes an argument: the rest of its word, or the next word if there is one. */
    method TakeArg(argv: seq<string>, opts: string, c: char) returns (r: Answer, ghost item: Item)
      requires 1 <= optind < |argv| && 1 <= sp < |argv[optind]| && c == argv[optind][sp] == optopt
      requires Known(opts, c) && TakesArg(opts, c)
      modifies `sp, `optind, `optarg
      ensures Valid(argv) && optind > old(optind) && r == Letter(Code(item)) && item.c == c
      ensures Letters(opts, argv[old(optind)][old(sp)..], argv[old(optind) + 1..])
           == Prefixed(item, Pending(opts, argv, sp, optind))
      ensures item.WithArg? || item.Missing?
      ensures optarg == if item.WithArg? then Some(item.arg) else old(optarg)
    {
      hide Words, Letters, Known, TakesArg;
      ArgHere(opts, argv, sp, optind);
      item := Missing(c);
      if sp + 1 < |argv[optind]| {
        item := WithArg(c, argv[optind][sp + 1..]);
        optarg := Some(argv[optind][sp + 1..]);
        optind := optind + 1;
      } else {
        optind := optind + 1;
        if optind >= |argv| {
          sp := 1;
          NoOption(opts, argv, optind);
          return Letter('?'), item;
        }
        item := WithArg(c, argv[optind]);
        optarg := Some(argv[optind]);
        optind := optind + 1;
      }
      sp := 1;
      return Letter(c), item;
    }

    /**
     * One call: it reports the next of what is left to report and leaves the rest to the following calls,
     * always moving ahead in the words.
     */
    method AttGetopt(argv: seq<string>, opts: string) returns (r: Answer, ghost item: Item)
      requires Valid(argv)
      modifies this
      ensures Valid(argv)
      ensures var left := old(Pending(opts, argv, sp, optind));
        if r == Eof then left.items == [] && sp == 1 && argv[optind..] == left.operands
        else left == Prefixed(item, Pending(opts, argv, sp, optind)) && r == Letter(Code(item)) && optopt == item.c
      ensures r != Eof ==> optind > old(optind) || (optind == old(optind) && sp > old(sp))
      ensures r != Eof ==> r == Letter(if item.Unknown? || item.Missing? then '?' else item.c)
      ensures r != Eof && item.Flag? ==> optarg == None
      ensures r != Eof && item.WithArg? ==> optarg == Some(item.arg)
      ensures r == Eof || item.Unknown? || item.Missing? ==> optarg == old(optarg)
    {
      hide Words, Letters;
      item := Flag('\0');
      if sp == 1 {
        if optind >= |argv| || !OptionLike(argv[optind]) {
          NoOption(opts, argv, optind);
          return Eof, item;
        } else if argv[optind] == "--" {
          DoubleMinus(opts, argv, optind);
          optind := optind + 1;
          return Eof, item;
        }
      }
      ghost var left := Pending(opts, argv, sp, optind);
      AtLetter(opts, argv, sp, optind);
      var c := argv[optind][sp];
      optopt := c;
      var k := Strchr(opts, c);
      if c == ':' || k == |opts| {
        item := Unknown(c);
        UnknownHere(opts, argv[optind], sp, argv[optind + 1..]);
        NextLetter(opts, argv);
        return Letter('?'), item;
      }
      if k + 1 < |opts| && opts[k + 1] == ':' {
        r, item := TakeArg(argv, opts, c);
        return;
      } else {
        item := Flag(c);
        FlagHere(opts, argv[optind], sp, argv[optind + 1..]);
        NextLetter(opts, argv);
        optarg := None;
      }
      return Letter(c), item;
    }

    /** Calling until the end of options yields the items of a one-pass parse, and `optind` the first operand. */
    method ScanAll(argv: seq<string>, opts: string) returns (codes: seq<char>, ghost items: seq<Item>)
      requires Valid(argv) && sp == 1 && optind == 1
      modifies this
      ensures Valid(argv)
      ensures items == Words(opts, argv[1..]).items
      ensures argv[optind..] == Words(opts, argv[1..]).operands
      ensures |codes| == |items| && forall i {:trigger codes[i]} :: 0 <= i < |codes| ==> codes[i] == Code(items[i])
      ensures forall i {:trigger codes[i]} :: 0 <= i < |codes| ==>
        codes[i] == if items[i].Unknown? || items[i].Missing? then '?' else items[i].c
      ensures optind == |argv| - |Words(opts, argv[1..]).operands|
    {
      hide Words, Letters;
      codes, items := [], [];
      ghost var all := Words(opts, argv[1..]);
      while true
        invariant Valid(argv)
        invariant items + Pending(opts, argv, sp, optind).items == all.items
        invariant Pending(opts, argv, sp, optind).operands == all.operands
        invariant |codes| == |items| && forall i {:trigger codes[i]} :: 0 <= i < |codes| ==> codes[i] == Code(items[i])
        decreases |argv| - optind, if optind < |argv| then |argv[optind]| - sp else 0
      {
        ghost var left := Pending(opts, argv, sp, optind);
        ghost var index := optind;
        var r, item := AttGetopt(argv, opts);
        if r == Eof {
          return;
        }
        codes := codes + [r.c];
        assert items + [item] + Pending(opts, argv, sp, optind).items == items + left.items;
        items := items + [item];
      }
    }
  }

  // ----- the grammar at the scanner's place -----

  lemma {:induction false} NoOption(opts: string, argv: seq<string>, i: nat)
    requires i <= |argv| && (i < |argv| ==> !OptionLike(argv[i]))
    ensures Words(opts, argv[i..]) == Parsed([], argv[i..])
  {
  }

  lemma {:induction false} DoubleMinus(opts: string, argv: seq<string>, i: nat)
    requires i < |argv| && argv[i] == "--"
    ensures Words(opts, argv[i..]) == Parsed([], argv[i + 1..])
  {
    WordAtHand(argv, i);
  }

  lemma {:induction false} AtLetter(opts: string, argv: seq<string>, sp: nat, i: nat)
    requires i < |argv| && 1 <= sp < |argv[i]| && (sp == 1 ==> OptionLike(argv[i]) && argv[i] != "--")
    ensures Pending(opts, argv, sp, i) == Letters(opts, argv[i][sp..], argv[i + 1..])
  {
    WordAtHand(argv, i);
  }

  lemma {:induction false} UnknownHere(opts: string, w: string, sp: nat, rest: seq<string>)
    requires sp < |w| && !Known(opts, w[sp])
    ensures Letters(opts, w[sp..], rest) == Prefixed(Unknown(w[sp]), Letters(opts, w[sp + 1..], rest))
  {
    HeadOfLetters(opts, w, sp, rest);
  }

  lemma {:induction false} FlagHere(opts: string, w: string, sp: nat, rest: seq<string>)
    requires sp < |w| && Known(opts, w[sp]) && !TakesArg(opts, w[sp])
    ensures Letters(opts, w[sp..], rest) == Prefixed(Flag(w[sp]), Letters(opts, w[sp + 1..], rest))
  {
    HeadOfLetters(opts, w, sp, rest);
  }

  lemma {:induction false} ArgHere(opts: string, argv: seq<string>, sp: nat, i: nat)
    requires i < |argv| && sp < |argv[i]| && Known(opts, argv[i][sp]) && TakesArg(opts, argv[i][sp])
    ensures var w, c := argv[i], argv[i][sp];
      Letters(opts, w[sp..], argv[i + 1..])
      == if sp + 1 < |w| then Prefixed(WithArg(c, w[sp + 1..]), Words(opts, argv[i + 1..]))
         else if i + 1 < |argv| then Prefixed(WithArg(c, argv[i + 1]), Words(opts, argv[i + 2..]))
         else Prefixed(Missing(c), Parsed([], []))
  {
    HeadOfLetters(opts, argv[i], sp, argv[i + 1..]);
    if i + 1 < |argv| {
      WordAtHand(argv, i + 1);
    }
  }
}
