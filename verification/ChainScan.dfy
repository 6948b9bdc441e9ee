/** The quote-aware operator scanner, against the shell grammar. */
module ChainScan {
  import opened Basics
  import opened ShellGrammar
  import opened ShellQuoting

  /** The operators the scanner finds in s, given the quote that is open. */
  function Scan(s: string, quote: Option<char>): Option<seq<Operator>>
    decreases |s|
  {
    if s == "" then Some([])
    else if quote.Some? then Scan(s[1..], if s[0] == quote.value then None else quote)
    else if s[0] == '\'' || s[0] == '"' then Scan(s[1..], Some(s[0]))
    else if s[0] == '&' || s[0] == '|' then
      if |s| == 1 || s[1] != s[0] then None
      else Found([if s[0] == '&' then And else Or], Scan(s[2..], None))
    else if s[0] == ';' then None
    else Scan(s[1..], None)
  }

  function Found(ops: seq<Operator>, rest: Option<seq<Operator>>): Option<seq<Operator>> {
    if rest.Some? then Some(ops + rest.value) else None
  }

  lemma FoundTwice(a: seq<Operator>, b: seq<Operator>, rest: Option<seq<Operator>>)
    ensures Found(a, Found(b, rest)) == Found(a + b, rest)
  {
    if rest.Some? {
      assert a + (b + rest.value) == a + b + rest.value;
    }
  }

  /** What shell_chain_operators answers for a script of so many commands. */
  function ChainOperators(script: string, commands: nat): Option<seq<Operator>> {
    var found := Scan(script, None);
    if found.Some? && |found.value| == (if commands == 0 then 0 else commands - 1) then found else None
  }

  /** The scanner itself: one pass with the open quote and the operators found so far. */
  method ShellChainOperators(script: string, commands: nat) returns (r: Option<seq<Operator>>)
    ensures r == ChainOperators(script, commands)
  {
    var operators: seq<Operator> := [];
    var quote: Option<char> := None;
    var i := 0;
    assert script[0..] == script;
    assert Scan(script, None).Some? ==> [] + Scan(script, None).value == Scan(script, None).value;
    while i < |script|
      invariant 0 <= i <= |script|
      invariant Scan(script, None) == Found(operators, Scan(script[i..], quote))
    {
      var c := script[i];
      assert script[i..][1..] == script[i + 1..];
      if quote.Some? {
        if c == quote.value {
          quote := None;
        }
        i := i + 1;
        continue;
      }
      if c == '\'' || c == '"' {
        quote := Some(c);
      } else if c == '&' || c == '|' {
        if i + 1 == |script| || script[i + 1] != c {
          return None;
        }
        assert script[i..][2..] == script[i + 2..];
        var op := if c == '&' then And else Or;
        FoundTwice(operators, [op], Scan(script[i + 2..], None));
        operators := operators + [op];
        i := i + 1;
      } else if c == ';' {
        return None;
      }
      i := i + 1;
    }
    if |operators| == (if commands == 0 then 0 else commands - 1) {
      assert operators + [] == operators;
      return Some(operators);
    }
    assert operators + [] == operators;
    return None;
  }

  // ----- agreement with the grammar -----

  /** What the scanner should make of a script that the grammar reads, as far as escapes allow. */
  ghost predicate Agrees(found: Option<seq<Operator>>, lexed: Lexed) {
    && (!lexed.operatorEscaped ==> found == ListOperators(lexed.tokens))
    && (lexed.operatorEscaped && ListOperators(lexed.tokens).Some? ==> found.None?)
  }

  /**
   As long as no quote is escaped: without an escaped (or split) operator the scanner finds exactly
   the operators of the grammar and refuses exactly the scripts with others; with one it refuses
   every script the grammar reads with && and || only.
  */
  lemma {:induction false} ScanFollowsGrammar(s: string, w: Draft)
    requires Lex(s, w).Some? && !Lex(s, w).value.quoteEscaped
    ensures Agrees(Scan(s, None), Lex(s, w).value)
    decreases |s|
  {
    if s == "" {
      EndedHasNoOperators(w);
    } else {
      var c := s[0];
      if c == '\'' {
        SingleQuotesFollow(s[1..], Grown(w, [Opened]));
      } else if c == '"' {
        DoubleQuotesFollow(s[1..], Grown(w, [Opened]));
      } else if c == '\\' {
        EscapeFollows(s, w);
      } else if Blank(c) {
        ScanFollowsGrammar(s[1..], None);
        EndedHasNoOperators(w);
        BeforeOperators(Ended(w), Lex(s[1..], None).value.tokens);
      } else if OperatorChar(c) {
        OperatorFollows(s, w);
      } else {
        ScanFollowsGrammar(s[1..], Grown(w, [Bare(c)]));
      }
    }
  }

  lemma {:induction false} EscapeFollows(s: string, w: Draft)
    requires s != "" && s[0] == '\\' && LexEscape(s, w).Some? && !LexEscape(s, w).value.quoteEscaped
    ensures Agrees(Scan(s, None), LexEscape(s, w).value)
    decreases |s|, 0
  {
    assert s[1..][1..] == s[2..] && Scan(s, None) == Scan(s[1..], None);
    if s[1] == '\n' {
      ScanFollowsGrammar(s[2..], w);
    } else {
      var w' := Grown(w, [Quoted(s[1])]);
      ScanFollowsGrammar(s[2..], w');
      if OperatorChar(s[1]) && s[1] != ';' && ListOperators(Lex(s[2..], w').value.tokens).Some? {
        assert s[1..] == [s[1]] + s[2..];
        OddOperator(s[1], s[2..], w');
      }
    }
  }

  lemma {:induction false} OperatorFollows(s: string, w: Draft)
    requires s != "" && OperatorChar(s[0]) && LexOperator(s, w).Some? && !LexOperator(s, w).value.quoteEscaped
    ensures Agrees(Scan(s, None), LexOperator(s, w).value)
    decreases |s|, 0
  {
    var c, t := s[0], Spliced(s[1..]);
    if c != ';' && t != "" && t[0] == c {
      OperatorToken(w, OperatorOf(c, true), Lex(t[1..], None).value.tokens);
      if t == s[1..] {
        assert t[1..] == s[2..];
        ScanFollowsGrammar(t[1..], None);
      } else {
        assert s[1] == '\\';
      }
    } else {
      OperatorToken(w, OperatorOf(c, false), Lex(s[1..], None).value.tokens);
    }
  }

  lemma {:induction false} SingleQuotesFollow(s: string, w: Draft)
    requires LexSingle(s, w).Some? && !LexSingle(s, w).value.quoteEscaped
    ensures Agrees(Scan(s, Some('\'')), LexSingle(s, w).value)
    decreases |s|
  {
    if s[0] == '\'' {
      ScanFollowsGrammar(s[1..], w);
    } else {
      SingleQuotesFollow(s[1..], Grown(w, [Quoted(s[0])]));
    }
  }

  lemma {:induction false} DoubleQuotesFollow(s: string, w: Draft)
    requires LexDouble(s, w).Some? && !LexDouble(s, w).value.quoteEscaped
    ensures Agrees(Scan(s, Some('"')), LexDouble(s, w).value)
    decreases |s|
  {
    if s[0] == '"' {
      ScanFollowsGrammar(s[1..], w);
    } else if s[0] == '\\' {
      assert s[1..][1..] == s[2..];
      if s[1] == '\n' {
        DoubleQuotesFollow(s[2..], w);
      } else if s[1] == '$' || s[1] == '`' || s[1] == '\\' {
        DoubleQuotesFollow(s[2..], Grown(w, [Quoted(s[1])]));
      } else {
        DoubleQuotesFollow(s[1..], Grown(w, [Quoted('\\')]));
      }
    } else {
      DoubleQuotesFollow(s[1..], Grown(w, [Quoted(s[0])]));
    }
  }

  /** One & or | too many in front of a list that the grammar reads: the scanner pairs them wrongly to the end. */
  lemma {:induction false} OddOperator(c: char, rest: string, w: Draft)
    requires c == '&' || c == '|'
    requires Lex(rest, w).Some? && ListOperators(Lex(rest, w).value.tokens).Some?
    ensures Scan([c] + rest, None).None?
    decreases |rest|
  {
    var s := [c] + rest;
    assert s[1..] == rest;
    if rest != "" && rest[0] == c {
      var t := Spliced(rest[1..]);
      if t == "" || t[0] != c {
        OperatorToken(w, OperatorOf(c, false), Lex(rest[1..], None).value.tokens);
      } else {
        OperatorToken(w, OperatorOf(c, true), Lex(t[1..], None).value.tokens);
        assert s[2..] == rest[1..] && t == [c] + t[1..];
        OddOperator(c, t[1..], None);
        ScanSkipsContinuations(rest[1..]);
      }
    }
  }

  lemma {:induction false} ScanSkipsContinuations(s: string)
    ensures Scan(s, None) == Scan(Spliced(s), None)
    decreases |s|
  {
    if Spliced(s) != s {
      assert s[1..][1..] == s[2..];
      ScanSkipsContinuations(s[2..]);
    }
  }

  lemma EndedHasNoOperators(w: Draft)
    ensures ListOperators(Ended(w)) == Some([])
  {
    assert w.Some? ==> Ended(w)[1..] == [];
  }

  lemma BeforeOperators(ts: seq<Token>, rest: seq<Token>)
    requires ListOperators(ts) == Some([])
    ensures ListOperators(ts + rest) == ListOperators(rest)
  {
    ListOperatorsConcat(ts, rest);
    assert ListOperators(rest).Some? ==> [] + ListOperators(rest).value == ListOperators(rest).value;
  }

  lemma OperatorToken(w: Draft, t: Token, rest: seq<Token>)
    requires !t.Word?
    ensures ListOperators(Ended(w) + [t] + rest) ==
      match t
      case AndIf => Found([And], ListOperators(rest))
      case OrIf => Found([Or], ListOperators(rest))
      case _ => None
  {
    EndedHasNoOperators(w);
    BeforeOperators(Ended(w), [t] + rest);
    assert Ended(w) + [t] + rest == Ended(w) + ([t] + rest);
    assert ([t] + rest)[1..] == rest;
  }

  // ----- what the scanner takes a script for -----

  /** Backslashes, and what starts something other than a word, are letters to the scanner. */
  function Letter(c: char): char {
    if c == '\\' || c == '#' || Beyond(c) then 'x' else c
  }

  /** A script as the scanner sees it, given the quote that is open: one still open at the end is closed. */
  function Seen(s: string, quote: Option<char>): string {
    if s == "" then (if quote.Some? then [quote.value] else "")
    else
      var quote' := if quote.Some? then (if s[0] == quote.value then None else quote)
                    else if QuoteChar(s[0]) then Some(s[0]) else None;
      [Letter(s[0])] + Seen(s[1..], quote')
  }

  /** The list operators that the grammar finds in what the scanner sees. */
  function SeenOperators(script: string): Option<seq<Operator>> {
    var lexed := Lex(Seen(script, None), None);
    if lexed.Some? then ListOperators(lexed.value.tokens) else None
  }

  function LexFrom(s: string, quote: Option<char>, w: Draft): Option<Lexed> {
    if quote.None? then Lex(s, w) else if quote.value == '\'' then LexSingle(s, w) else LexDouble(s, w)
  }

  ghost predicate SeenAlike(s: string, quote: Option<char>, w: Draft) {
    var lexed := LexFrom(Seen(s, quote), quote, w);
    lexed.Some? && Scan(s, quote) == ListOperators(lexed.value.tokens)
  }

  lemma {:induction false} SeenFollows(s: string, quote: Option<char>, w: Draft)
    requires quote.Some? ==> QuoteChar(quote.value)
    ensures SeenAlike(s, quote, w)
    decreases |s|, 1
  {
    if quote.Some? {
      SeenInQuotes(s, quote.value, w);
    } else if s == "" {
      EndedHasNoOperators(w);
    } else {
      var c, t, rest := s[0], Seen(s, None), Seen(s[1..], None);
      if QuoteChar(c) {
        SeenFollows(s[1..], Some(c), Grown(w, [Opened]));
        assert t[1..] == Seen(s[1..], Some(c));
      } else if OperatorChar(c) {
        SeenOperator(s, w);
      } else {
        assert t[0] == Letter(c) && t[1..] == rest;
        SeenFollows(s[1..], None, if Blank(c) then None else Grown(w, [Bare(t[0])]));
        if Blank(c) {
          EndedHasNoOperators(w);
          BeforeOperators(Ended(w), Lex(rest, None).value.tokens);
        }
      }
    }
  }

  lemma {:induction false} SeenInQuotes(s: string, q: char, w: Draft)
    requires QuoteChar(q)
    ensures SeenAlike(s, Some(q), w)
    decreases |s|, 0
  {
    var t := Seen(s, Some(q));
    if s == "" {
      EndedHasNoOperators(w);
      assert t[1..] == "" && Lex("", w) == Some(Lexed(Ended(w), false, false));
    } else if s[0] == q {
      SeenFollows(s[1..], None, w);
      assert t[0] == q && t[1..] == Seen(s[1..], None);
      hide Lex, ListOperators;
    } else {
      SeenFollows(s[1..], Some(q), Grown(w, [Quoted(Letter(s[0]))]));
      assert t[0] == Letter(s[0]) && t[1..] == Seen(s[1..], Some(q));
      hide Lex, ListOperators;
    }
  }

  lemma {:induction false} SeenOperator(s: string, w: Draft)
    requires s != "" && OperatorChar(s[0])
    ensures SeenAlike(s, None, w)
    decreases |s|, 0
  {
    var c, t, rest := s[0], Seen(s, None), Seen(s[1..], None);
    assert t[0] == c && t[1..] == rest && Spliced(rest) == rest;
    assert Lex(t, w) == LexOperator(t, w);
    if c != ';' && |s| > 1 && s[1] == c {
      SeenFollows(s[2..], None, None);
      assert rest[0] == c && rest[1..] == Seen(s[2..], None) by { assert s[1..][1..] == s[2..]; }
      hide Lex, Seen, Scan, ListOperators;
      OperatorToken(w, OperatorOf(c, true), Lex(rest[1..], None).value.tokens);
    } else {
      SeenFollows(s[1..], None, None);
      assert rest == "" || rest[0] != c || c == ';';
      hide Lex, Seen, Scan, ListOperators;
      OperatorToken(w, OperatorOf(c, false), Lex(rest, None).value.tokens);
    }
  }

  /**
   The scanner on every script, one that the grammar reads or not: it finds the operators of the list that
   the grammar reads when all it does not know is made letters, and refuses exactly when that is no list of
   && and || only.
  */
  lemma ScannerReadsWhatItSees(script: string)
    ensures Lex(Seen(script, None), None).Some?
    ensures Scan(script, None) == SeenOperators(script)
  {
    SeenFollows(script, None, None);
    hide Lex, Scan, ListOperators;
  }

  /**
   The scanner against the grammar, for every script the grammar reads. It agrees exactly if what it sees
   has the same operators. As long as no quote is escaped, this is so on every script without an escaped
   operator, and on a script with && and || only exactly if no operator is escaped or split over lines; else
   the scanner refuses it.
  */
  lemma ScannerAgreesWithGrammar(script: string)
    requires Lex(script, None).Some?
    ensures var lexed, found := Lex(script, None).value, Scan(script, None);
      var operators := ListOperators(lexed.tokens);
      && (found == operators <==> SeenOperators(script) == operators)
      && (!lexed.quoteEscaped && !lexed.operatorEscaped ==> found == operators)
      && (!lexed.quoteEscaped && operators.Some? ==> (found == operators <==> !lexed.operatorEscaped))
      && (!lexed.quoteEscaped && operators.Some? && lexed.operatorEscaped ==> found.None?)
  {
    ScannerReadsWhatItSees(script);
    if !Lex(script, None).value.quoteEscaped {
      ScanFollowsGrammar(script, None);
    }
    hide Lex, Scan, ListOperators, SeenOperators;
  }

  /**
   The scanner inverts the printer: commands printed with shell_join and joined with && and ||
   come back as exactly those operators, whatever the arguments hold.
  */
  lemma PrinterRoundTrip(argvs: seq<Argv>, ops: seq<Operator>)
    requires |argvs| == |ops| + 1
    ensures ChainOperators(ChainText(argvs, ops), |argvs|) == Some(ops)
  {
    ChainRoundTrip(argvs, ops);
    ScannerAgreesWithGrammar(ChainText(argvs, ops));
    ListTokensOperators(PrintedCommands(argvs), ops);
    hide Lex, Scan, ListOperators, ListTokens;
  }

  // ----- what escapes do to the scanner -----

  /** An escaped operator can also make a list where there is none: in  a\&&b  the grammar has a single &. */
  lemma EscapedOperatorMakesList()
    ensures var script := "a\\&&b";
      && Lex(script, None) == Some(Lexed([Word([Bare('a'), Quoted('&')]), Amp, Word([Bare('b')])], false, true))
      && ChainOperators(script, 2) == Some([And])
    ensures ListOperators([Word([Bare('a'), Quoted('&')]), Amp, Word([Bare('b')])]).None?
  {
    var script, word := "a\\&&b", [Bare('a'), Quoted('&')];
    LexOneB();
    ScanOneB();
    var tail := script[1..];
    assert [] + [Bare('a')] == [Bare('a')] && [Bare('a')] + [Quoted('&')] == word;
    assert tail == "\\&&b" && tail[1] == '&' && tail[2..] == "&b" && "&b"[1..] == "b" && Spliced("b") == "b";
    assert Lex("&b", Some(word)) == Before(Ended(Some(word)) + [Amp], Lex("b", None));
    assert Ended(Some(word)) + [Amp] + [Word([Bare('b')])] == [Word(word), Amp, Word([Bare('b')])];
    assert Lex(tail, Some([Bare('a')])) == Marked(false, true, Lex("&b", Some(word)));
    assert Lex(script, None) == Lex(tail, Some([Bare('a')]));
    assert tail[1..] == "&&b" && "&&b"[2..] == "b";
    assert Scan("&&b", None) == Found([And], Scan("b", None));
    assert Scan(script, None) == Scan(tail, None) == Scan(tail[1..], None);
    assert [And] + [] == [And];
    assert [Word(word), Amp, Word([Bare('b')])][1..] == [Amp, Word([Bare('b')])];
  }

  lemma LexOneB()
    ensures Lex("b", None) == Some(Lexed([Word([Bare('b')])], false, false))
  {
    assert "b"[1..] == "" && [] + [Bare('b')] == [Bare('b')];
  }

  lemma ScanOneB()
    ensures Scan("b", None) == Some([])
  {
    assert "b"[1..] == "";
  }

  /**
   An escaped quote makes the scanner mistake quoted text for text and the other way round, to the end
   of the script. It can find as many operators as there are, but others: the grammar reads
   \"||b"&&"  as the commands  "  and  b&&  with  ||  between them, the scanner finds  && .
  */
  lemma EscapedQuoteSwapsOperators()
    ensures var script := "\\\"||b\"&&\"";
      && Lex(script, None) == Some(Lexed(
           [Word([Quoted('"')]), OrIf, Word([Bare('b'), Opened, Quoted('&'), Quoted('&')])], true, false))
      && ChainOperators(script, 2) == Some([And])
  {
    var script := "\\\"||b\"&&\"";
    SwappedGrammar();
    SwappedScan();
    hide Lex, Scan;
  }

  lemma SwappedGrammar()
    ensures Lex("\\\"||b\"&&\"", None) == Some(Lexed(
      [Word([Quoted('"')]), OrIf, Word([Bare('b'), Opened, Quoted('&'), Quoted('&')])], true, false))
  {
    var list, w0 := "||b\"&&\"", [Quoted('"')];
    var w3 := [Bare('b'), Opened, Quoted('&'), Quoted('&')];
    SwappedSecond();
    var second := "b\"&&\"";
    assert list[1..] == "|b\"&&\"" && Spliced(list[1..]) == list[1..] && list[1..][1..] == second;
    assert Lex(list, Some(w0)) == Before(Ended(Some(w0)) + [OrIf], Marked(false, false, Lex(second, None)));
    var script := "\\\"||b\"&&\"";
    assert script[2..] == list && script[1] == '"' && [] + w0 == w0;
    assert Lex(script, None) == Marked(true, false, Lex(list, Some(w0)));
    hide Lex, Spliced;
    assert Ended(Some(w0)) + [OrIf] + [Word(w3)] == [Word(w0), OrIf, Word(w3)];
  }

  lemma SwappedSecond()
    ensures Lex("b\"&&\"", None)
      == Some(Lexed([Word([Bare('b'), Opened, Quoted('&'), Quoted('&')])], false, false))
  {
    var w1 := [Bare('b'), Opened];
    var w2, w3 := w1 + [Quoted('&')], w1 + [Quoted('&')] + [Quoted('&')];
    assert "\""[1..] == "" && "&\""[1..] == "\"" && "&&\""[1..] == "&\"";
    assert LexDouble("\"", Some(w3)) == Lex("", Some(w3)) == Some(Lexed([Word(w3)], false, false));
    assert LexDouble("&\"", Some(w2)) == LexDouble("\"", Some(w3));
    assert LexDouble("&&\"", Some(w1)) == LexDouble("&\"", Some(w2));
    var quoted, second := "\"&&\"", "b\"&&\"";
    assert quoted[1..] == "&&\"" && [Bare('b')] + [Opened] == w1;
    assert Lex(quoted, Some([Bare('b')])) == LexDouble("&&\"", Some(w1));
    assert second[1..] == quoted && [] + [Bare('b')] == [Bare('b')];
    assert Lex(second, None) == Lex(quoted, Some([Bare('b')]));
    assert w3 == [Bare('b'), Opened, Quoted('&'), Quoted('&')];
  }

  lemma SwappedScan()
    ensures Scan("\\\"||b\"&&\"", None) == Some([And])
  {
    var script, open := "\\\"||b\"&&\"", "||b\"&&\"";
    SwappedOpen();
    assert script[1..] == "\"||b\"&&\"" && script[1..][1..] == open;
    assert Scan(script[1..], None) == Scan(open, Some('"'));
  }

  lemma SwappedOpen()
    ensures Scan("||b\"&&\"", Some('"')) == Some([And])
  {
    var q := Some('"');
    assert "\""[1..] == "" && Scan("", q) == Some([]);
    assert Scan("\"", None) == Scan("", q);
    assert "&&\""[2..] == "\"" && [And] + [] == [And];
    assert Scan("&&\"", None) == Some([And]);
    var open := "||b\"&&\"";
    assert open[1..] == "|b\"&&\"" && open[1..][1..] == "b\"&&\"" && open[1..][1..][1..] == "\"&&\"";
    assert open[1..][1..][1..][1..] == "&&\"";
    assert Scan("\"&&\"", q) == Scan("&&\"", None);
    assert Scan(open, q) == Scan(open[1..], q) == Scan(open[1..][1..], q) == Scan("\"&&\"", q);
  }
}
