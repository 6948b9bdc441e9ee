/**
 Token recognition of the POSIX Shell Command Language: section 2.3 with the quoting of sections
 2.2.1 (backslash), 2.2.2 (single quotes) and 2.2.3 (double quotes), reserved words (2.4),
 assignment words (2.10.2), and the AND-OR lists of section 2.9.3. A word keeps what was quoted in
 it, because expansion (2.6) and reserved words depend on that. Scripts that use parameters,
 substitutions, redirections, subshells, comments or several lines have no token list here.
*/
module ShellGrammar {
  import opened Basics

  /** A character of a word as it stands, a quoted one, or the place where a quote was opened. */
  datatype Piece = Bare(c: char) | Quoted(c: char) | Opened

  type Pieces = seq<Piece>

  datatype Token = Word(pieces: Pieces) | AndIf | OrIf | Amp | Pipe | Semi

  /**
   The tokens of a script; whether a quote character was escaped; and whether an operator character
   was escaped, or two that make one operator were split over lines.
  */
  datatype Lexed = Lexed(tokens: seq<Token>, quoteEscaped: bool, operatorEscaped: bool)

  predicate Blank(c: char) {
    c == ' ' || c == '\t'
  }

  /** Characters that start something other than a word, a quote or a list operator. */
  predicate Beyond(c: char) {
    c == '$' || c == '`' || c == '(' || c == ')' || c == '<' || c == '>' || c == '\n'
  }

  predicate QuoteChar(c: char) {
    c == '\'' || c == '"'
  }

  predicate OperatorChar(c: char) {
    c == '&' || c == '|' || c == ';'
  }

  /** A word under construction: None before its first character. */
  type Draft = Option<Pieces>

  function Grown(w: Draft, more: Pieces): Draft {
    Some((if w.Some? then w.value else []) + more)
  }

  function Ended(w: Draft): seq<Token> {
    if w.Some? then [Word(w.value)] else []
  }

  function Before(ts: seq<Token>, rest: Option<Lexed>): Option<Lexed> {
    if rest.Some? then Some(rest.value.(tokens := ts + rest.value.tokens)) else None
  }

  function Marked(quote: bool, operator: bool, rest: Option<Lexed>): Option<Lexed> {
    if rest.Some? then
      Some(Lexed(rest.value.tokens, quote || rest.value.quoteEscaped, operator || rest.value.operatorEscaped))
    else None
  }

  /** The script after any line continuations at its start (section 2.2.1). */
  function Spliced(s: string): (t: string)
    ensures |t| <= |s|
  {
    if |s| >= 2 && s[0] == '\\' && s[1] == '\n' then Spliced(s[2..]) else s
  }

  function OperatorOf(c: char, twice: bool): Token {
    if c == '&' then (if twice then AndIf else Amp)
    else if c == '|' then (if twice then OrIf else Pipe)
    else Semi
  }

  /** Outside quotes, with the draft w of the current word. */
  function Lex(s: string, w: Draft): Option<Lexed>
    decreases |s|
  {
    if s == "" then Some(Lexed(Ended(w), false, false))
    else
      var c := s[0];
      if c == '\'' then LexSingle(s[1..], Grown(w, [Opened]))
      else if c == '"' then LexDouble(s[1..], Grown(w, [Opened]))
      else if c == '\\' then LexEscape(s, w)
      else if Blank(c) then Before(Ended(w), Lex(s[1..], None))
      else if OperatorChar(c) then LexOperator(s, w)
      else if Beyond(c) || (c == '#' && w.None?) then None
      else Lex(s[1..], Grown(w, [Bare(c)]))
  }

  /** A backslash quotes the next character; with a newline it is nothing at all. */
  function LexEscape(s: string, w: Draft): Option<Lexed>
    requires s != ""
    decreases |s|, 0
  {
    if |s| == 1 then None
    else if s[1] == '\n' then Lex(s[2..], w)
    else Marked(QuoteChar(s[1]), OperatorChar(s[1]), Lex(s[2..], Grown(w, [Quoted(s[1])])))
  }

  /** Two & or | in a row are one operator, even with line continuations between them. */
  function LexOperator(s: string, w: Draft): Option<Lexed>
    requires s != ""
    decreases |s|, 0
  {
    var t := Spliced(s[1..]);
    if s[0] != ';' && t != "" && t[0] == s[0] then
      Before(Ended(w) + [OperatorOf(s[0], true)], Marked(false, t != s[1..], Lex(t[1..], None)))
    else
      Before(Ended(w) + [OperatorOf(s[0], false)], Lex(s[1..], None))
  }

  /** Inside single quotes every character stands for itself. */
  function LexSingle(s: string, w: Draft): Option<Lexed>
    decreases |s|
  {
    if s == "" then None
    else if s[0] == '\'' then Lex(s[1..], w)
    else LexSingle(s[1..], Grown(w, [Quoted(s[0])]))
  }

  /** Inside double quotes a backslash is special only before $, `, ", \ and newline. */
  function LexDouble(s: string, w: Draft): Option<Lexed>
    decreases |s|
  {
    if s == "" then None
    else if s[0] == '"' then Lex(s[1..], w)
    else if s[0] == '$' || s[0] == '`' then None
    else if s[0] == '\\' then
      if |s| == 1 then None
      else if s[1] == '\n' then LexDouble(s[2..], w)
      else if s[1] == '$' || s[1] == '`' || s[1] == '"' || s[1] == '\\' then
        Marked(s[1] == '"', false, LexDouble(s[2..], Grown(w, [Quoted(s[1])])))
      else LexDouble(s[1..], Grown(w, [Quoted('\\')]))
    else LexDouble(s[1..], Grown(w, [Quoted(s[0])]))
  }

  // ----- words -----

  /** Quote removal (section 2.6.7). */
  function TextOf(word: Pieces): string {
    if word == [] then ""
    else (if word[0].Opened? then "" else [word[0].c]) + TextOf(word[1..])
  }

  lemma {:induction false} TextOfConcat(a: Pieces, b: Pieces)
    ensures TextOf(a + b) == TextOf(a) + TextOf(b)
  {
    if a == [] {
      assert a + b == b;
    } else {
      assert (a + b)[1..] == a[1..] + b;
      TextOfConcat(a[1..], b);
    }
  }

  function Bares(text: string): (word: Pieces)
    ensures |word| == |text|
  {
    seq(|text|, i requires 0 <= i < |text| => Bare(text[i]))
  }

  lemma {:induction false} TextOfBares(text: string)
    ensures TextOf(Bares(text)) == text
  {
    if text != "" {
      assert Bares(text)[1..] == Bares(text[1..]);
      TextOfBares(text[1..]);
    }
  }

  /** A bare [ that a bare ] closes, within one path component, around at least one character (section 2.13.1). */
  predicate Brackets(word: Pieces, i: nat, j: nat) {
    && i < j < |word| && word[i] == Bare('[') && word[j] == Bare(']')
    && j > (if word[i + 1] == Bare('!') then i + 2 else i + 1)
    && forall m :: i < m < j ==> word[m] != Bare('/') && word[m] != Quoted('/')
  }

  /** A word that pathname expansion looks at (sections 2.6.6 and 2.13). */
  predicate IsPattern(word: Pieces) {
    || Bare('*') in word || Bare('?') in word
    || exists i: nat, j: nat :: i < |word| && j < |word| && Brackets(word, i, j)
  }

  /** A word that tilde expansion looks at (section 2.6.1): nothing before the first slash is quoted. */
  predicate IsTilde(word: Pieces) {
    && word != [] && word[0] == Bare('~')
    && forall i :: 0 <= i < |word| && !word[i].Bare? ==> exists j :: 0 <= j < i && word[j] == Bare('/')
  }

  predicate Expands(word: Pieces) {
    IsPattern(word) || IsTilde(word)
  }

  /** The reserved words of section 2.4. */
  const RESERVED: set<string> := {
    "!", "{", "}", "case", "do", "done", "elif", "else", "esac", "fi", "for", "if", "in", "then", "until", "while"
  }

  predicate NameChar(c: char, first: bool) {
    'a' <= c <= 'z' || 'A' <= c <= 'Z' || c == '_' || (!first && '0' <= c <= '9')
  }

  predicate IsReserved(word: Pieces) {
    (forall i :: 0 <= i < |word| ==> word[i].Bare?) && TextOf(word) in RESERVED
  }

  /** The bare equals sign at n follows a bare name. */
  predicate AssignsAt(word: Pieces, n: nat) {
    0 < n < |word| && word[n] == Bare('=') && forall i :: 0 <= i < n ==> word[i].Bare? && NameChar(word[i].c, i == 0)
  }

  /** NAME=... */
  predicate IsAssignment(word: Pieces) {
    exists n: nat :: n < |word| && AssignsAt(word, n)
  }

  // ----- AND-OR lists -----

  type Argv = seq<string>

  type Words = seq<Pieces>

  datatype Operator = And | Or

  /** and_or of the grammar over commands: operators of equal precedence, grouping to the left. */
  datatype AndOr<C> = Simple(command: C) | AndThen(left: AndOr<C>, right: C) | OrElse(left: AndOr<C>, right: C)

  /** Words that the grammar takes for a simple command without assignments. */
  predicate IsCommand(words: Words) {
    words != [] && !IsReserved(words[0]) && !IsAssignment(words[0])
  }

  function TextsOf(words: Words): (argv: Argv)
    ensures |argv| == |words|
  {
    seq(|words|, i requires 0 <= i < |words| => TextOf(words[i]))
  }

  function TokensOf(words: Words): seq<Token> {
    seq(|words|, i requires 0 <= i < |words| => Word(words[i]))
  }

  function TokenOf(op: Operator): Token {
    match op
    case And => AndIf
    case Or => OrIf
  }

  /** The token list of a list of commands with operators between them. */
  function ListTokens(commands: seq<Words>, ops: seq<Operator>): seq<Token>
    requires |commands| == |ops| + 1
  {
    if ops == [] then TokensOf(commands[0])
    else TokensOf(commands[0]) + [TokenOf(ops[0])] + ListTokens(commands[1..], ops[1..])
  }

  /** The script is this AND-OR list of simple commands. */
  predicate ReadsAs(script: string, commands: seq<Words>, ops: seq<Operator>) {
    && |commands| == |ops| + 1 && Lex(script, None).Some?
    && Lex(script, None).value.tokens == ListTokens(commands, ops)
    && forall words <- commands :: IsCommand(words)
  }

  function Joined<C>(left: AndOr<C>, op: Operator, command: C): AndOr<C> {
    match op
    case And => AndThen(left, command)
    case Or => OrElse(left, command)
  }

  function Derived<C>(commands: seq<C>, ops: seq<Operator>): AndOr<C>
    requires |commands| == |ops| + 1
  {
    if ops == [] then Simple(commands[0])
    else Joined(Derived(commands[..|ops|], ops[..|ops| - 1]), ops[|ops| - 1], commands[|ops|])
  }

  /** The list operators among the tokens; None when there is any other operator. */
  function ListOperators(ts: seq<Token>): Option<seq<Operator>> {
    if ts == [] then Some([])
    else
      var rest := ListOperators(ts[1..]);
      match ts[0]
      case Word(_) => rest
      case AndIf => if rest.Some? then Some([And] + rest.value) else None
      case OrIf => if rest.Some? then Some([Or] + rest.value) else None
      case _ => None
  }

  lemma {:induction false} ListOperatorsConcat(a: seq<Token>, b: seq<Token>)
    ensures var front, back := ListOperators(a), ListOperators(b);
      ListOperators(a + b) == if front.Some? && back.Some? then Some(front.value + back.value) else None
  {
    if a == [] {
      assert a + b == b;
      assert ListOperators(b).Some? ==> [] + ListOperators(b).value == ListOperators(b).value;
    } else {
      assert (a + b)[1..] == a[1..] + b;
      ListOperatorsConcat(a[1..], b);
      var front, back := ListOperators(a[1..]), ListOperators(b);
      if front.Some? && back.Some? {
        assert [And] + (front.value + back.value) == [And] + front.value + back.value;
        assert [Or] + (front.value + back.value) == [Or] + front.value + back.value;
      }
    }
  }

  lemma {:induction false} WordsHaveNoOperators(words: Words)
    ensures ListOperators(TokensOf(words)) == Some([])
  {
    if words != [] {
      assert TokensOf(words)[1..] == TokensOf(words[1..]);
      WordsHaveNoOperators(words[1..]);
    }
  }

  /** A list holds exactly its operators. */
  lemma {:induction false} ListTokensOperators(commands: seq<Words>, ops: seq<Operator>)
    requires |commands| == |ops| + 1
    ensures ListOperators(ListTokens(commands, ops)) == Some(ops)
  {
    WordsHaveNoOperators(commands[0]);
    if ops != [] {
      ListTokensOperators(commands[1..], ops[1..]);
      ListOperatorsConcat(TokensOf(commands[0]), [TokenOf(ops[0])]);
      assert [TokenOf(ops[0])][1..] == [];
      assert ListOperators([]) == Some([]) && [ops[0]] + [] == [ops[0]] && [] + [ops[0]] == [ops[0]];
      assert ListOperators([TokenOf(ops[0])]) == Some([ops[0]]);
      ListOperatorsConcat(TokensOf(commands[0]) + [TokenOf(ops[0])], ListTokens(commands[1..], ops[1..]));
      assert [ops[0]] + ops[1..] == ops;
    }
  }
}
