/** shell_escape and shell_join, and the proof that the shell reads back what they print. */
module ShellQuoting {
  import opened Basics
  import opened ShellGrammar

  predicate Plain(c: char) {
    'a' <= c <= 'z' || 'A' <= c <= 'Z' || '0' <= c <= '9'
    || c == '/' || c == '_' || c == '-' || c == '.' || c == ':' || c == '='
  }

  /** Every single quote becomes: close the quote, a double-quoted single quote, open it again. */
  function QuotesReplaced(part: string): string {
    if part == "" then ""
    else (if part[0] == '\'' then "'\"'\"'" else [part[0]]) + QuotesReplaced(part[1..])
  }

  function ShellEscape(part: string): string {
    if part == "" then "''"
    else if forall i :: 0 <= i < |part| ==> Plain(part[i]) then part
    else "'" + QuotesReplaced(part) + "'"
  }

  /** What is left unquoted: letters, digits and six other characters. The rest goes between single quotes. */
  lemma EscapeExactly(part: string)
    ensures ShellEscape(part) == part <==>
      part != "" && forall c <- part ::
        'A' <= c <= 'Z' || 'a' <= c <= 'z' || '0' <= c <= '9' || c in {'/', '_', '-', '.', ':', '='}
    ensures ShellEscape(part) == part || ShellEscape(part) == "'" + QuotesReplaced(part) + "'"
  {
    ReplacedIsLonger(part);
    if part != "" && forall i :: 0 <= i < |part| ==> Plain(part[i]) {
      assert forall c <- part :: Plain(c);
    }
    assert forall i :: 0 <= i < |part| ==> part[i] in part;
    hide QuotesReplaced;
  }

  lemma {:induction false} ReplacedIsLonger(part: string)
    ensures |QuotesReplaced(part)| >= |part|
  {
    if part != "" {
      ReplacedIsLonger(part[1..]);
    }
  }

  /** Quotes are replaced one by one, wherever they stand. */
  lemma {:induction false} QuotesOneByOne(a: string, c: char, b: string)
    ensures QuotesReplaced(a + [c] + b)
      == QuotesReplaced(a) + (if c == '\'' then "'\"'\"'" else [c]) + QuotesReplaced(b)
  {
    if a == "" {
      assert (a + [c] + b)[1..] == b;
    } else {
      assert (a + [c] + b)[1..] == a[1..] + [c] + b;
      QuotesOneByOne(a[1..], c, b);
    }
  }

  function ShellJoin(argv: Argv): string {
    if argv == [] then ""
    else if |argv| == 1 then ShellEscape(argv[0])
    else ShellEscape(argv[0]) + " " + ShellJoin(argv[1..])
  }

  function OperatorText(op: Operator): string {
    match op
    case And => " && "
    case Or => " || "
  }

  /** Commands printed one by one and joined with their operators. */
  function ChainText(argvs: seq<Argv>, ops: seq<Operator>): string
    requires |argvs| == |ops| + 1
  {
    if ops == [] then ShellJoin(argvs[0])
    else ShellJoin(argvs[0]) + OperatorText(ops[0]) + ChainText(argvs[1..], ops[1..])
  }

  // ----- how the shell reads one printed argument -----

  /** The pieces of QuotesReplaced inside single quotes. */
  function ReplacedPieces(part: string): Pieces {
    if part == "" then []
    else (if part[0] == '\'' then [Opened, Quoted('\''), Opened] else [Quoted(part[0])]) + ReplacedPieces(part[1..])
  }

  /** The word a printed argument is: bare as it stands, or quoted from end to end. */
  function PrintedWord(part: string): Pieces {
    if part == "" then [Opened]
    else if forall i :: 0 <= i < |part| ==> Plain(part[i]) then Bares(part)
    else [Opened] + ReplacedPieces(part)
  }

  function PrintedWords(argv: Argv): (words: Words)
    ensures |words| == |argv|
  {
    seq(|argv|, i requires 0 <= i < |argv| => PrintedWord(argv[i]))
  }

  function PrintedCommands(argvs: seq<Argv>): (commands: seq<Words>)
    ensures |commands| == |argvs|
  {
    seq(|argvs|, i requires 0 <= i < |argvs| => PrintedWords(argvs[i]))
  }

  lemma {:induction false} ReplacedText(part: string)
    ensures TextOf(ReplacedPieces(part)) == part
    ensures forall piece <- ReplacedPieces(part) :: !piece.Bare?
  {
    if part != "" {
      var first := if part[0] == '\'' then [Opened, Quoted('\''), Opened] else [Quoted(part[0])];
      ReplacedText(part[1..]);
      TextOfConcat(first, ReplacedPieces(part[1..]));
      assert first[1..] == if part[0] == '\'' then [Quoted('\''), Opened] else [];
      assert TextOf(first) == [part[0]] by {
        if part[0] == '\'' {
          assert [Quoted('\''), Opened][1..] == [Opened] && [Opened][1..] == [];
        }
      }
    }
  }

  /** Quote removal gives the argument back, and there is nothing in the word to expand. */
  lemma PrintedText(part: string)
    ensures TextOf(PrintedWord(part)) == part && !Expands(PrintedWord(part))
  {
    if part == "" {
      assert [Opened][1..] == [];
      BareFree(PrintedWord(part));
    } else if forall i :: 0 <= i < |part| ==> Plain(part[i]) {
      TextOfBares(part);
      PlainExpandsNot(part);
      hide Expands, TextOf;
    } else {
      ReplacedText(part);
      TextOfConcat([Opened], ReplacedPieces(part));
      assert [Opened][1..] == [] && TextOf([Opened]) == "";
      BareFree(PrintedWord(part));
      hide Expands, TextOf, ReplacedPieces;
    }
  }

  lemma BareFree(word: Pieces)
    requires forall piece <- word :: !piece.Bare?
    ensures !Expands(word)
  {
  }

  lemma PlainExpandsNot(part: string)
    requires forall i :: 0 <= i < |part| ==> Plain(part[i])
    ensures !Expands(Bares(part))
  {
    assert forall i :: 0 <= i < |part| ==> Bares(part)[i] == Bare(part[i]);
    hide Bares;
  }

  lemma PrintedTexts(argv: Argv)
    ensures TextsOf(PrintedWords(argv)) == argv && forall word <- PrintedWords(argv) :: !Expands(word)
  {
    forall i | 0 <= i < |argv|
      ensures TextOf(PrintedWords(argv)[i]) == argv[i] && !Expands(PrintedWords(argv)[i])
    {
      PrintedText(argv[i]);
    }
  }

  // ----- one argument -----

  /** Characters that go into an unquoted word as they stand. */
  predicate Ordinary(c: char) {
    !QuoteChar(c) && c != '\\' && !Blank(c) && !OperatorChar(c) && !Beyond(c) && c != '#'
  }

  /** The shell reads a run of ordinary characters into the current word. */
  lemma {:induction false} LexOrdinary(part: string, rest: string, w: Pieces)
    requires forall i :: 0 <= i < |part| ==> Ordinary(part[i])
    ensures Lex(part + rest, Some(w)) == Lex(rest, Some(w + Bares(part)))
  {
    if part == "" {
      assert part + rest == rest && w + Bares(part) == w;
    } else {
      assert (part + rest)[1..] == part[1..] + rest;
      assert Lex(part + rest, Some(w)) == Lex((part + rest)[1..], Grown(Some(w), [Bare(part[0])]));
      LexOrdinary(part[1..], rest, w + [Bare(part[0])]);
      assert w + [Bare(part[0])] + Bares(part[1..]) == w + Bares(part);
    }
  }

  /** ... and starts a word with it. */
  lemma LexUnquoted(part: string, rest: string)
    requires part != "" && forall i :: 0 <= i < |part| ==> Ordinary(part[i])
    ensures Lex(part + rest, None) == Lex(rest, Some(Bares(part)))
  {
    LexFirst(part, rest);
    hide Lex;
    LexOrdinary(part[1..], rest, [Bare(part[0])]);
    assert [Bare(part[0])] + Bares(part[1..]) == Bares(part);
  }

  lemma LexFirst(part: string, rest: string)
    requires part != "" && Ordinary(part[0])
    ensures Lex(part + rest, None) == Lex(part[1..] + rest, Some([Bare(part[0])]))
  {
    DropConcat(part, rest, 1);
    assert (part + rest)[0] == part[0] && [] + [Bare(part[0])] == [Bare(part[0])];
    assert Lex(part + rest, None) == Lex((part + rest)[1..], Grown(None, [Bare(part[0])]));
  }

  /** The text between the quotes gives back the argument, single quotes included. */
  lemma {:induction false} LexReplaced(part: string, rest: string, w: Pieces)
    ensures LexSingle(QuotesReplaced(part) + "'" + rest, Some(w)) == Lex(rest, Some(w + ReplacedPieces(part)))
  {
    var s := QuotesReplaced(part) + "'" + rest;
    if part == "" {
      assert s == "'" + rest && s[1..] == rest && w + ReplacedPieces(part) == w;
    } else {
      var tail := QuotesReplaced(part[1..]) + "'" + rest;
      if part[0] == '\'' {
        var first := [Opened, Quoted('\''), Opened];
        assert s == "'\"'\"'" + tail;
        LexQuoteEscape(tail, w);
        LexReplaced(part[1..], rest, w + first);
        assert w + first + ReplacedPieces(part[1..]) == w + ReplacedPieces(part);
      } else {
        var first := [Quoted(part[0])];
        assert s == [part[0]] + tail && s[1..] == tail;
        LexReplaced(part[1..], rest, w + first);
        assert w + first + ReplacedPieces(part[1..]) == w + ReplacedPieces(part);
      }
    }
  }

  lemma LexQuoteEscape(tail: string, w: Pieces)
    ensures LexSingle("'\"'\"'" + tail, Some(w)) == LexSingle(tail, Some(w + [Opened, Quoted('\''), Opened]))
  {
    var s := "'\"'\"'" + tail;
    var w1, w2 := w + [Opened], w + [Opened] + [Quoted('\'')];
    assert s[1..] == "\"'\"'" + tail;
    assert s[1..][1..] == "'\"'" + tail;
    assert s[1..][1..][1..] == "\"'" + tail;
    assert s[1..][1..][1..][1..] == "'" + tail;
    assert s[1..][1..][1..][1..][1..] == tail;
    assert Lex(s[1..], Some(w)) == LexDouble(s[1..][1..], Some(w1));
    assert LexDouble(s[1..][1..], Some(w1)) == LexDouble(s[1..][1..][1..], Some(w2));
    assert LexDouble(s[1..][1..][1..], Some(w2)) == Lex(s[1..][1..][1..][1..], Some(w2));
    assert Lex(s[1..][1..][1..][1..], Some(w2)) == LexSingle(tail, Some(w2 + [Opened]));
    assert w2 + [Opened] == w + [Opened, Quoted('\''), Opened];
  }

  lemma LexQuoted(part: string, rest: string)
    ensures Lex("'" + QuotesReplaced(part) + "'" + rest, None) == Lex(rest, Some([Opened] + ReplacedPieces(part)))
  {
    var s := "'" + QuotesReplaced(part) + "'" + rest;
    assert s[1..] == QuotesReplaced(part) + "'" + rest;
    assert Lex(s, None) == LexSingle(s[1..], Grown(None, [Opened]));
    hide Lex, LexSingle, QuotesReplaced;
    assert [] + [Opened] == [Opened];
    LexReplaced(part, rest, [Opened]);
  }

  /** A printed argument is one word. */
  lemma LexEscaped(part: string, rest: string)
    ensures Lex(ShellEscape(part) + rest, None) == Lex(rest, Some(PrintedWord(part)))
  {
    if part == "" {
      LexQuoted("", rest);
      assert "'" + QuotesReplaced("") + "'" == "''" && [Opened] + ReplacedPieces("") == [Opened];
    } else if forall i :: 0 <= i < |part| ==> Plain(part[i]) {
      LexUnquoted(part, rest);
    } else {
      LexQuoted(part, rest);
    }
  }

  // ----- one command -----

  /** Text that ends the word before it. */
  predicate EndsWord(rest: string) {
    rest == "" || Blank(rest[0])
  }

  lemma {:induction false} LexJoined(argv: Argv, rest: string)
    requires argv != [] && EndsWord(rest)
    ensures Lex(ShellJoin(argv) + rest, None) == Before(TokensOf(PrintedWords(argv)), Lex(rest, None))
    decreases |argv|
  {
    var first, word := ShellEscape(argv[0]), PrintedWord(argv[0]);
    hide Lex, ShellEscape, Before, PrintedWord;
    FirstWord(argv);
    hide TokensOf;
    if |argv| == 1 {
      LexEscaped(argv[0], rest);
      LexWordEnd(word, rest);
    } else {
      var more := ShellJoin(argv[1..]) + rest;
      ConcatAssoc(first + " ", ShellJoin(argv[1..]), rest);
      ConcatAssoc(first, " ", more);
      LexEscaped(argv[0], " " + more);
      LexWordEnd(word, " " + more);
      LexBlank(more);
      LexJoined(argv[1..], rest);
      BeforeTwice([Word(word)], TokensOf(PrintedWords(argv[1..])), Lex(rest, None));
    }
  }

  lemma FirstWord(argv: Argv)
    requires argv != []
    ensures TokensOf(PrintedWords(argv)) == [Word(PrintedWord(argv[0]))] + TokensOf(PrintedWords(argv[1..]))
    ensures |argv| == 1 ==> TokensOf(PrintedWords(argv)) == [Word(PrintedWord(argv[0]))]
  {
    hide PrintedWord;
  }

  lemma LexBlank(more: string)
    ensures Lex(" " + more, None) == Lex(more, None)
  {
    assert (" " + more)[1..] == more;
    assert Lex(" " + more, None) == Before(Ended(None), Lex(more, None));
    assert Lex(more, None).Some? ==> [] + Lex(more, None).value.tokens == Lex(more, None).value.tokens;
  }

  lemma BeforeTwice(a: seq<Token>, b: seq<Token>, rest: Option<Lexed>)
    ensures Before(a, Before(b, rest)) == Before(a + b, rest)
  {
    if rest.Some? {
      assert a + (b + rest.value.tokens) == a + b + rest.value.tokens;
    }
  }

  /** A blank or the end of the script closes the word and starts none. */
  lemma LexWordEnd(word: Pieces, rest: string)
    requires EndsWord(rest)
    ensures Lex(rest, Some(word)) == Before([Word(word)], Lex(rest, None))
  {
    if rest != "" {
      BeforeTwice([Word(word)], [], Lex(rest[1..], None));
      assert [Word(word)] + [] == [Word(word)];
    } else {
      assert [Word(word)] + [] == [Word(word)];
    }
  }

  /**
   Quoting round trip: tokenising what shell_join prints and removing the quotes gives back the
   argument vector, whatever characters its strings hold, and no word of it expands.
  */
  lemma JoinRoundTrip(argv: Argv)
    ensures Lex(ShellJoin(argv), None) == Some(Lexed(TokensOf(PrintedWords(argv)), false, false))
    ensures TextsOf(PrintedWords(argv)) == argv && forall word <- PrintedWords(argv) :: !Expands(word)
  {
    PrintedTexts(argv);
    if argv == [] {
      assert TokensOf(PrintedWords(argv)) == [];
    } else {
      LexJoined(argv, "");
      assert ShellJoin(argv) + "" == ShellJoin(argv);
      assert Lex("", None) == Some(Lexed([], false, false));
      assert TokensOf(PrintedWords(argv)) + [] == TokensOf(PrintedWords(argv));
    }
  }

  predicate NamesBefore(text: string, n: nat) {
    0 < n < |text| && text[n] == '=' && forall i :: 0 <= i < n ==> NameChar(text[i], i == 0)
  }

  /** Text that, unquoted at the head of a command, is not a command name. */
  predicate IsSyntax(text: string) {
    text in RESERVED || exists n: nat :: n < |text| && NamesBefore(text, n)
  }

  lemma BareSyntax(text: string)
    ensures IsSyntax(text) <==> IsReserved(Bares(text)) || IsAssignment(Bares(text))
  {
    var word := Bares(text);
    TextOfBares(text);
    forall n: nat | n < |text|
      ensures NamesBefore(text, n) <==> AssignsAt(word, n)
    {
      assert forall i :: 0 <= i < |text| ==> word[i] == Bare(text[i]);
      assert forall i :: 0 <= i < |text| ==> word[i].c == text[i];
      if AssignsAt(word, n) {
        assert forall i :: 0 <= i < n ==> NameChar(word[i].c, i == 0);
      }
    }
    hide NamesBefore, AssignsAt, TextOf;
  }

  /**
   A printed vector is a command exactly unless it begins with a reserved word or an assignment
   that shell_escape leaves unquoted, because all its characters are plain.
  */
  lemma PrintedIsCommand(argv: Argv)
    requires argv != []
    ensures IsCommand(PrintedWords(argv))
      <==> !(IsSyntax(argv[0]) && forall i :: 0 <= i < |argv[0]| ==> Plain(argv[0][i]))
  {
    var part, word := argv[0], PrintedWord(argv[0]);
    BareSyntax(part);
    if part == "" {
      assert "" !in RESERVED;
    } else if forall i :: 0 <= i < |part| ==> Plain(part[i]) {
      hide IsReserved, IsAssignment, IsSyntax;
    } else {
      assert word[0] == Opened;
    }
  }

  /** Two such vectors: the shell takes the first for the start of an if command, the second for an assignment. */
  lemma PrintedNeedNotBeCommand()
    ensures ShellJoin(["if"]) == "if" && !IsCommand(PrintedWords(["if"]))
    ensures ShellJoin(["A=1", "x"]) == "A=1 x" && !IsCommand(PrintedWords(["A=1", "x"]))
  {
    var keyword, assignment := ["if"], ["A=1", "x"];
    PrintedIsCommand(keyword);
    assert NamesBefore(assignment[0], 1) && IsSyntax(assignment[0]);
    PrintedIsCommand(assignment);
    assert assignment[1..] == ["x"];
    hide PrintedWords, IsCommand;
  }

  // ----- a chain -----

  /** ... and a printed chain is read back as its commands and operators. */
  lemma {:induction false} ChainRoundTrip(argvs: seq<Argv>, ops: seq<Operator>)
    requires |argvs| == |ops| + 1
    ensures Lex(ChainText(argvs, ops), None) == Some(Lexed(ListTokens(PrintedCommands(argvs), ops), false, false))
    decreases |ops|
  {
    if ops == [] {
      JoinRoundTrip(argvs[0]);
    } else {
      hide Lex;
      var more := ChainText(argvs[1..], ops[1..]);
      var rest := OperatorText(ops[0]) + more;
      ChainRoundTrip(argvs[1..], ops[1..]);
      LexListOperator(ops[0], more);
      ConcatAssoc(ShellJoin(argvs[0]), OperatorText(ops[0]), more);
      FirstCommand(argvs, ops);
      var words := PrintedWords(argvs[0]);
      if argvs[0] == [] {
        assert "" + rest == rest && words == [] && TokensOf([]) + [TokenOf(ops[0])] == [TokenOf(ops[0])];
      } else {
        hide TokensOf, ListTokens, PrintedCommands, PrintedWords;
        LexJoined(argvs[0], rest);
        BeforeTwice(TokensOf(words), [TokenOf(ops[0])], Lex(more, None));
      }
    }
  }

  lemma FirstCommand(argvs: seq<Argv>, ops: seq<Operator>)
    requires |argvs| == |ops| + 1 > 1
    ensures ListTokens(PrintedCommands(argvs), ops)
         == TokensOf(PrintedWords(argvs[0])) + [TokenOf(ops[0])] + ListTokens(PrintedCommands(argvs[1..]), ops[1..])
  {
    hide PrintedWords;
    assert PrintedCommands(argvs)[1..] == PrintedCommands(argvs[1..]);
    assert PrintedCommands(argvs)[0] == PrintedWords(argvs[0]);
  }

  lemma LexListOperator(op: Operator, more: string)
    ensures Lex(OperatorText(op) + more, None) == Before([TokenOf(op)], Lex(more, None))
  {
    var s := OperatorText(op) + more;
    assert s == " " + s[1..];
    LexBlank(s[1..]);
    LexBlank(more);
    var t := s[1..];
    assert t[1..][0] == t[0] && t[1..][1..] == " " + more && Spliced(t[1..]) == t[1..];
    assert Lex(t, None) == Before(Ended(None) + [TokenOf(op)], Marked(false, false, Lex(" " + more, None)));
    assert Ended(None) + [TokenOf(op)] == [TokenOf(op)];
  }
}
