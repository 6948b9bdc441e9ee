/** What the shell makes of an AND-OR list, expansion included, and when a chain of literal words is that. */
module ShellMeaning {
  import opened Basics
  import opened ShellGrammar
  import opened CappedOutput
  import opened ChainExec

  /** What a word with a pattern or a tilde becomes in a world; nothing when there is no match. */
  type Expander<!W> = (W, Pieces) -> seq<string>

  /** Expansion leaves a word without a match as it is (section 2.6.6). */
  function Expanded<W>(expand: Expander<W>, w: W, word: Pieces): seq<string> {
    if Expands(word) && expand(w, word) != [] then expand(w, word) else [TextOf(word)]
  }

  function FieldsOf<W>(expand: Expander<W>, w: W, words: Words): Argv {
    if words == [] then [] else Expanded(expand, w, words[0]) + FieldsOf(expand, w, words[1..])
  }

  /** The argument vector of a command, as the shell finds it when the command's turn comes. */
  function Fields<W>(expand: Expander<W>): (W, Words) -> Argv {
    (w, words) => FieldsOf(expand, w, words)
  }

  /**
   Commands that the shell carries out itself and that read or change its own environment: the special
   built-in utilities (section 2.14) and those of the other built-in ones (section 2.9.1) that do so.
  */
  const BUILTINS: set<string> := {
    ".", ":", "break", "continue", "eval", "exec", "exit", "export", "readonly", "return", "set", "shift",
    "times", "trap", "unset", "alias", "bg", "cd", "command", "fc", "fg", "getopts", "hash", "jobs", "newgrp",
    "read", "type", "ulimit", "umask", "unalias", "wait"
  }

  predicate IsBuiltin(argv: Argv) {
    argv != [] && argv[0] in BUILTINS
  }

  /** How the shell runs an argument vector: its own way for a built-in command, else like anyone. */
  function InShell<W>(own: Runner<W>, run: Runner<W>): Runner<W> {
    (w, argv) => if IsBuiltin(argv) then own(w, argv) else run(w, argv)
  }

  /** No word of any command has a bare pattern or tilde, and no command is built into the shell. */
  predicate AsWritten(commands: seq<Words>) {
    forall words <- commands :: IsAsWritten(words)
  }

  predicate IsAsWritten(words: Words) {
    (forall word <- words :: !Expands(word)) && !IsBuiltin(TextsOf(words))
  }

  function AllTexts(commands: seq<Words>): (argvs: seq<Argv>)
    ensures |argvs| == |commands|
  {
    seq(|commands|, i requires 0 <= i < |commands| => TextsOf(commands[i]))
  }

  /** The chain of the unexpanded words under operators chain, and the shell's run of the list, tell the same story. */
  ghost predicate SameRun<W>(commands: seq<Words>, chain: seq<Operator>, ops: seq<Operator>,
                             expand: Expander<W>, own: Runner<W>, run: Runner<W>, world: W)
    requires |commands| == |ops| + 1
  {
    Agree(RunSteps(StepsOf(AllTexts(commands), chain), run, world),
          Eval(Derived(commands, ops), Fields(expand), InShell(own, run), world))
  }

  lemma {:induction false} LiteralFields<W>(expand: Expander<W>, w: W, words: Words)
    requires forall word <- words :: !Expands(word)
    ensures FieldsOf(expand, w, words) == TextsOf(words)
  {
    if words != [] {
      assert words[0] in words && forall word <- words[1..] :: word in words;
      LiteralFields(expand, w, words[1..]);
      assert TextsOf(words) == [TextOf(words[0])] + TextsOf(words[1..]);
    }
  }

  lemma AsWrittenMeansList<W>(commands: seq<Words>, ops: seq<Operator>,
                              expand: Expander<W>, own: Runner<W>, run: Runner<W>, world: W)
    requires |commands| == |ops| + 1 && AsWritten(commands)
    ensures SameRun(commands, ops, ops, expand, own, run, world)
  {
    forall w: W, i | 0 <= i < |commands|
      ensures Fields(expand)(w, commands[i]) == AllTexts(commands)[i]
      ensures InShell(own, run)(w, AllTexts(commands)[i]) == run(w, AllTexts(commands)[i])
    {
      assert commands[i] in commands;
      LiteralFields(expand, w, commands[i]);
    }
    ChainIsAndOrList(commands, ops, AllTexts(commands), Fields(expand), InShell(own, run), run, world);
  }

  // ----- worlds in which the difference shows -----

  /** Every pattern matches one name, longer than itself. */
  function Longer(): Expander<nat> {
    (w, word) => [TextOf(word) + "x"]
  }

  /** With this status of command number w the next operator lets its command run. */
  function Code(ops: seq<Operator>, w: nat): int {
    if w < |ops| && ops[w].Or? then 1 else 0
  }

  function Steering(ops: seq<Operator>, mark: bool): Runner<nat> {
    (w: nat, argv: Argv) => Ran(w + 1, Output(Some(Code(ops, w)), mark, [], [], false, false))
  }

  /** A shell that marks what it carries out itself. */
  function MarkingShell(ops: seq<Operator>): Runner<nat> {
    InShell(Steering(ops, true), Steering(ops, false))
  }

  ghost predicate Steers(run: Runner<nat>, ops: seq<Operator>) {
    forall w: nat, argv :: run(w, argv).Ran? && run(w, argv).world == w + 1
                           && run(w, argv).output.exitCode == Some(Code(ops, w))
  }

  function Itself(): (nat, Argv) -> Argv {
    (w, argv) => argv
  }

  lemma {:induction false} LongerFields(w: nat, words: Words)
    ensures var fields := FieldsOf(Longer(), w, words);
      && |fields| == |words|
      && forall i :: 0 <= i < |words| ==> fields[i] == TextOf(words[i]) + (if Expands(words[i]) then "x" else "")
  {
    if words != [] {
      LongerFields(w, words[1..]);
      assert TextOf(words[0]) + "" == TextOf(words[0]);
      var fields, rest := FieldsOf(Longer(), w, words), FieldsOf(Longer(), w, words[1..]);
      forall i | 0 <= i < |words|
        ensures fields[i] == TextOf(words[i]) + (if Expands(words[i]) then "x" else "")
      {
        assert i > 0 ==> words[i] == words[1..][i - 1] && fields[i] == rest[i - 1];
      }
    }
  }

  /** Every command ran, each in the world numbered like it. */
  ghost predicate RanAll<C>(e: Evaluated<nat>, commands: seq<C>, fields: (nat, C) -> Argv, run: Runner<nat>) {
    && e.unstarted.None? && e.world == |commands| == |e.ran| == |e.outputs|
    && forall i: nat :: i < |commands| ==>
         e.ran[i] == fields(i, commands[i]) && run(i, e.ran[i]) == Ran(i + 1, e.outputs[i])
  }

  lemma RanOneMore<C>(e: Evaluated<nat>, commands: seq<C>, command: C, fields: (nat, C) -> Argv, run: Runner<nat>,
                      ops: seq<Operator>)
    requires RanAll(e, commands, fields, run) && Steers(run, ops)
    ensures var e' := EvalCommand(e, command, fields, run);
      RanAll(e', commands + [command], fields, run) && e'.status == Some(Code(ops, |commands|))
  {
    var argv := fields(|commands|, command);
    assert run(|commands|, argv).Ran? && run(|commands|, argv).world == |commands| + 1;
    hide Code;
  }

  /** Steered, every command of a list runs. */
  lemma {:induction false} AllRun<C>(commands: seq<C>, ops: seq<Operator>, all: seq<Operator>, fields: (nat, C) -> Argv,
                                     run: Runner<nat>)
    requires |commands| == |ops| + 1 && ops <= all && Steers(run, all)
    ensures var e := Eval(Derived(commands, ops), fields, run, 0);
      RanAll(e, commands, fields, run) && e.status == Some(Code(all, |ops|))
    decreases |ops|
  {
    hide Steers, RanAll, EvalCommand;
    var n := |ops|;
    if n == 0 {
      NoneRan(fields, run);
      RanOneMore(Evaluated(0, Some(0), [], [], None), [], commands[0], fields, run, all);
      assert [] + [commands[0]] == commands;
    } else {
      AllRun(commands[..n], ops[..n - 1], all, fields, run);
      var e := Eval(Derived(commands[..n], ops[..n - 1]), fields, run, 0);
      RanOneMore(e, commands[..n], commands[n], fields, run, all);
      assert commands[..n] + [commands[n]] == commands;
    }
  }

  lemma NoneRan<C>(fields: (nat, C) -> Argv, run: Runner<nat>)
    ensures RanAll(Evaluated(0, Some(0), [], [], None), [], fields, run)
  {
  }

  lemma BothSteer(ops: seq<Operator>)
    ensures Steers(Steering(ops, false), ops) && Steers(MarkingShell(ops), ops)
  {
  }

  /** What the two runs start and get in the marking shell. */
  lemma BothRun(commands: seq<Words>, ops: seq<Operator>, expand: Expander<nat>)
    requires |commands| == |ops| + 1
    ensures var p := RunSteps(StepsOf(AllTexts(commands), ops), Steering(ops, false), 0);
      var e := Eval(Derived(commands, ops), Fields(expand), MarkingShell(ops), 0);
      && !p.failed && RanAll(e, commands, Fields(expand), MarkingShell(ops))
      && RanAll(Evaluated(p.world, p.previous, p.ran, p.outputs, None), AllTexts(commands), Itself(),
                Steering(ops, false))
  {
    var argvs, run := AllTexts(commands), Steering(ops, false);
    ChainIsAndOrList(argvs, ops, argvs, Itself(), run, run, 0);
    BothSteer(ops);
    AllRun(argvs, ops, ops, Itself(), run);
    AllRun(commands, ops, ops, Fields(expand), MarkingShell(ops));
    hide Eval, RunSteps, Derived, Fields, AllTexts, Steers, Steering, MarkingShell;
  }

  lemma FieldsDiffer(words: Words, w: nat)
    requires exists word :: word in words && Expands(word)
    ensures Fields(Longer())(w, words) != TextsOf(words)
  {
    var word :| word in words && Expands(word);
    var j :| 0 <= j < |words| && words[j] == word;
    LongerFields(w, words);
    hide Expands;
    assert FieldsOf(Longer(), w, words)[j] != TextsOf(words)[j];
  }

  /** Command i starts with other arguments, or the shell carries it out itself. */
  lemma ApartAt(commands: seq<Words>, ops: seq<Operator>, i: nat, p: Progress<nat>, e: Evaluated<nat>)
    requires i < |commands| && !IsAsWritten(commands[i])
    requires !p.failed && RanAll(e, commands, Fields(Longer()), MarkingShell(ops))
    requires RanAll(Evaluated(p.world, p.previous, p.ran, p.outputs, None), AllTexts(commands), Itself(),
                    Steering(ops, false))
    ensures !Agree(p, e)
  {
    var words := commands[i];
    hide Expands;
    assert p.ran[i] == AllTexts(commands)[i] == TextsOf(words);
    assert e.ran[i] == Fields(Longer())(i, words);
    if exists word :: word in words && Expands(word) {
      FieldsDiffer(words, i);
    } else {
      LiteralFields(Longer(), i, words);
      assert MarkingShell(ops)(i, e.ran[i]) == Ran(i + 1, e.outputs[i]);
      assert Steering(ops, false)(i, p.ran[i]) == Ran(i + 1, p.outputs[i]);
      assert e.outputs[i].timedOut && !p.outputs[i].timedOut;
    }
  }

  lemma DifferenceShows(commands: seq<Words>, ops: seq<Operator>)
    requires |commands| == |ops| + 1 && !AsWritten(commands)
    ensures !SameRun(commands, ops, ops, Longer(), Steering(ops, true), Steering(ops, false), 0)
  {
    var words :| words in commands && !IsAsWritten(words);
    var i :| 0 <= i < |commands| && commands[i] == words;
    hide IsAsWritten, Fields, Eval, RunSteps, AllTexts;
    BothRun(commands, ops, Longer());
    hide RanAll;
    ApartAt(commands, ops, i, RunSteps(StepsOf(AllTexts(commands), ops), Steering(ops, false), 0),
            Eval(Derived(commands, ops), Fields(Longer()), MarkingShell(ops), 0));
  }

  // ----- worlds in which another operator shows -----

  /**
   However a list is steered, at most all its commands run; and all do only if every operator lets its command
   run at the status with which it is steered there.
  */
  lemma {:induction false} FewerRun<C>(commands: seq<C>, ops: seq<Operator>, all: seq<Operator>,
                                       fields: (nat, C) -> Argv, run: Runner<nat>)
    requires |commands| == |ops| + 1 && Steers(run, all)
    ensures var e := Eval(Derived(commands, ops), fields, run, 0);
      && e.unstarted.None? && 0 < e.world == |e.ran| <= |commands|
      && e.status == Some(Code(all, e.world - 1))
      && (|e.ran| == |commands| ==> forall j: nat :: j < |ops| ==> (ops[j].And? <==> Code(all, j) == 0))
    decreases |ops|
  {
    hide Steers, EvalCommand;
    var n := |ops|;
    if n == 0 {
      CountedOneMore(Evaluated(0, Some(0), [], [], None), commands[0], fields, run, all);
    } else {
      FewerRun(commands[..n], ops[..n - 1], all, fields, run);
      var e := Eval(Derived(commands[..n], ops[..n - 1]), fields, run, 0);
      CountedOneMore(e, commands[n], fields, run, all);
      assert e.status == Some(0) <==> Code(all, e.world - 1) == 0;
      hide Code;
    }
  }

  /** One more command, steered. */
  lemma CountedOneMore<C>(e: Evaluated<nat>, command: C, fields: (nat, C) -> Argv, run: Runner<nat>, all: seq<Operator>)
    requires Steers(run, all)
    ensures var e' := EvalCommand(e, command, fields, run);
      && e'.unstarted == e.unstarted && e'.world == e.world + 1 && |e'.ran| == |e.ran| + 1
      && e'.status == Some(Code(all, e.world))
  {
    var argv := fields(e.world, command);
    assert run(e.world, argv).Ran? && run(e.world, argv).world == e.world + 1;
    hide Code;
  }

  /** Steered by one list of operators, another of the same length runs fewer commands. */
  lemma OtherRunsFewer<C>(commands: seq<C>, ops: seq<Operator>, all: seq<Operator>, i: nat,
                          fields: (nat, C) -> Argv, run: Runner<nat>)
    requires |commands| == |ops| + 1 && |ops| == |all| && Steers(run, all)
    requires i < |ops| && all[i].And? && ops[i].Or?
    ensures var e := Eval(Derived(commands, ops), fields, run, 0);
      e.unstarted.None? && |e.ran| < |commands|
  {
    FewerRun(commands, ops, all, fields, run);
    assert Code(all, i) == 0;
  }

  lemma OneRunner(all: seq<Operator>)
    ensures Steers(Steering(all, false), all)
    ensures Steers(InShell(Steering(all, false), Steering(all, false)), all)
  {
  }

  /** Where the operators differ, steer by the list that has && there. */
  lemma OperatorsShow(commands: seq<Words>, chain: seq<Operator>, ops: seq<Operator>, i: nat)
    requires |commands| == |ops| + 1 && |chain| == |ops| && i < |ops| && chain[i] != ops[i]
    ensures var run := Steering(if chain[i].And? then chain else ops, false);
      !SameRun(commands, chain, ops, Longer(), run, run, 0)
  {
    var all := if chain[i].And? then chain else ops;
    var run, argvs := Steering(all, false), AllTexts(commands);
    OneRunner(all);
    ChainIsAndOrList(argvs, chain, argvs, Itself(), run, run, 0);
    if chain[i].And? {
      AllRun(argvs, chain, all, Itself(), run);
      OtherRunsFewer(commands, ops, all, i, Fields(Longer()), InShell(run, run));
    } else {
      OtherRunsFewer(argvs, chain, all, i, Itself(), run);
      AllRun(commands, ops, all, Fields(Longer()), InShell(run, run));
    }
    hide Eval, RunSteps, Derived, Fields, AllTexts, Steers, Steering, StepsOf;
  }

  /**
   Running the words of a list as they are written, with some operators between them, is what the shell does,
   in every world, whatever patterns match there and whatever its built-in commands do, exactly when the
   operators are those of the list, no word of it has a bare pattern or tilde and no command is built in.
  */
  lemma ChainMeansListExactly(commands: seq<Words>, chain: seq<Operator>, ops: seq<Operator>)
    requires |commands| == |ops| + 1 && |chain| == |ops|
    ensures (forall expand: Expander<nat>, own: Runner<nat>, run: Runner<nat>, world: nat ::
               SameRun(commands, chain, ops, expand, own, run, world))
      <==> AsWritten(commands) && chain == ops
  {
    hide Agree, AsWritten, AllTexts;
    if chain != ops {
      var i :| 0 <= i < |ops| && chain[i] != ops[i];
      OperatorsShow(commands, chain, ops, i);
    } else if AsWritten(commands) {
      forall expand: Expander<nat>, own: Runner<nat>, run: Runner<nat>, world: nat
        ensures SameRun(commands, chain, ops, expand, own, run, world)
      {
        AsWrittenMeansList(commands, ops, expand, own, run, world);
      }
    } else {
      DifferenceShows(commands, ops);
      assert !SameRun(commands, chain, ops, Longer(), Steering(ops, true), Steering(ops, false), 0);
    }
  }
}
