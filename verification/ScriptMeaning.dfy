/** From the script of a shell command to the run of its plan, against the shell. */
module ScriptMeaning {
  import opened Basics
  import opened ShellGrammar
  import opened ShellQuoting
  import opened ChainScan
  import opened CappedOutput
  import opened ChainExec
  import opened ShellMeaning
  import opened ExecService

  /** The steps of a plan; a single command is a chain of one. */
  function PlanSteps(plan: Plan): seq<ChainStep> {
    match plan
    case Single(argv) => [ChainStep(argv, None)]
    case Chain(steps) => steps
  }

  /** A chain of one is run like a single command. */
  lemma SingleIsChainOfOne<W>(argv: Argv, run: Runner<W>, world: W)
    ensures var p := RunSteps(PlanSteps(Single(argv)), run, world);
      && p.ran == [argv] && p.world == run(world, argv).world
      && (p.failed <==> run(world, argv).NotStarted?)
      && (!p.failed ==> p.outputs == [run(world, argv).output])
  {
    assert PlanSteps(Single(argv))[..0] == [] && [] + [argv] == [argv];
  }

  /** The script of a shell command is this list of simple commands, and the front end delivers their words. */
  predicate Delivers(sh: Shell, command: Argv, script: string, commands: seq<Words>, ops: seq<Operator>) {
    && command != [] && sh.extract(command) == Some(script)
    && ReadsAs(script, commands, ops) && sh.parse(command) == Some(AllTexts(commands))
  }

  /**
   A plan has the commands of the list. A single command has one. A list of several has one exactly if the
   scanner sees as many operators as the list has, and with the operators it sees. As long as no quote is
   escaped these are the operators of the list, unless one is escaped or split over lines: then there is none.
  */
  lemma PlanOfScript(sh: Shell, command: Argv, script: string, commands: seq<Words>, ops: seq<Operator>)
    requires Delivers(sh, command, script, commands, ops)
    ensures var plan, lexed := NormalizeCommand(sh, command).plan, Lex(script, None).value;
      var seen := if |commands| == 1 then Some(ops) else SeenOperators(script);
      && (plan.Some? <==> seen.Some? && |seen.value| == |ops|)
      && (plan.Some? ==> PlanSteps(plan.value) == StepsOf(AllTexts(commands), seen.value))
      && (|commands| > 1 && !lexed.quoteEscaped ==> seen == if lexed.operatorEscaped then None else Some(ops))
  {
    if |commands| > 1 {
      ListTokensOperators(commands, ops);
      ScannerReadsWhatItSees(script);
      ScannerAgreesWithGrammar(script);
    } else {
      assert StepsOf(AllTexts(commands), ops) == [ChainStep(AllTexts(commands)[0], None)];
    }
    hide Lex, Scan, SeenOperators, ListOperators, ListTokens, AllTexts;
  }

  /**
   Meaning from script to execution. Where a plan exists, running it is what the shell does with the script,
   in every world, whatever its patterns match there and whatever its built-in commands do, exactly when the
   scanner sees the script's operators, no word of the script has a bare pattern or tilde, and no command is
   built into the shell: the service starts the words as they are written.
  */
  lemma PlanMeansScript(sh: Shell, command: Argv, script: string, commands: seq<Words>, ops: seq<Operator>)
    requires Delivers(sh, command, script, commands, ops)
    ensures var plan := NormalizeCommand(sh, command).plan;
      plan.Some? ==>
        ((forall expand: Expander<nat>, own: Runner<nat>, run: Runner<nat>, world: nat ::
            RunsAsShell(plan.value, commands, ops, expand, own, run, world))
         <==> AsWritten(commands) && (|commands| == 1 || SeenOperators(script) == Some(ops)))
  {
    PlanOfScript(sh, command, script, commands, ops);
    hide Delivers, AsWritten, NormalizeCommand, AllTexts, Agree, StepsOf, Lex, SeenOperators;
    var plan := NormalizeCommand(sh, command).plan;
    if plan.Some? {
      var chain := if |commands| == 1 then ops else SeenOperators(script).value;
      ChainMeansListExactly(commands, chain, ops);
      forall expand: Expander<nat>, own: Runner<nat>, run: Runner<nat>, world: nat
        ensures RunsAsShell(plan.value, commands, ops, expand, own, run, world)
          <==> SameRun(commands, chain, ops, expand, own, run, world)
      {
      }
    }
  }

  /** The run of the plan and the shell's run of the list tell the same story. */
  ghost predicate RunsAsShell<W>(plan: Plan, commands: seq<Words>, ops: seq<Operator>,
                                 expand: Expander<W>, own: Runner<W>, run: Runner<W>, world: W)
    requires |commands| == |ops| + 1
  {
    Agree(RunSteps(PlanSteps(plan), run, world),
          Eval(Derived(commands, ops), Fields(expand), InShell(own, run), world))
  }

  /** When so, this holds for worlds of any kind. */
  lemma PlanRunsAsShell<W>(plan: Plan, commands: seq<Words>, ops: seq<Operator>,
                           expand: Expander<W>, own: Runner<W>, run: Runner<W>, world: W)
    requires |commands| == |ops| + 1 && AsWritten(commands) && PlanSteps(plan) == StepsOf(AllTexts(commands), ops)
    ensures RunsAsShell(plan, commands, ops, expand, own, run, world)
  {
    AsWrittenMeansList(commands, ops, expand, own, run, world);
    hide Agree, AsWritten;
  }

  // ----- scripts that are run differently -----

  /** An ordinary word in front of the end of a word. */
  lemma LexBareWord(part: string, rest: string)
    requires part != "" && (forall i :: 0 <= i < |part| ==> Ordinary(part[i])) && EndsWord(rest)
    ensures Lex(part + rest, None) == Before([Word(Bares(part))], Lex(rest, None))
  {
    LexUnquoted(part, rest);
    LexWordEnd(Bares(part), rest);
  }

  /** The words of  rg *.rs && make . */
  function WildcardCommands(): seq<Words> {
    [[Bares("rg"), Bares("*.rs")], [Bares("make")]]
  }

  lemma WildcardScript()
    ensures ReadsAs("rg *.rs && make", WildcardCommands(), [And])
    ensures !Lex("rg *.rs && make", None).value.quoteEscaped && !Lex("rg *.rs && make", None).value.operatorEscaped
  {
    var make, rg, star := [Word(Bares("make"))], [Word(Bares("rg"))], [Word(Bares("*.rs"))];
    WildcardLexed(make, rg, star);
    hide Lex;
    WildcardTokens(make, rg, star);
    WildcardHeads();
    hide IsCommand, ListTokens, Bares;
  }

  lemma WildcardLexed(make: seq<Token>, rg: seq<Token>, star: seq<Token>)
    requires make == [Word(Bares("make"))] && rg == [Word(Bares("rg"))] && star == [Word(Bares("*.rs"))]
    ensures Lex("rg *.rs && make", None) == Some(Lexed(rg + (star + ([AndIf] + make)), false, false))
  {
    hide Lex, Bares;
    WildcardStrings();
    LexNothing();
    LexBareWord("make", "");
    LexListOperator(And, "make");
    LexBareWord("*.rs", " && make");
    LexBlank("*.rs && make");
    LexBareWord("rg", " *.rs && make");
    assert make + [] == make;
    hide Before;
    BeforeTwice([AndIf], make, Lex("", None));
    BeforeTwice(star, [AndIf] + make, Lex("", None));
    BeforeTwice(rg, star + ([AndIf] + make), Lex("", None));
    BeforeNothing(rg + (star + ([AndIf] + make)));
  }

  lemma BeforeNothing(ts: seq<Token>)
    ensures Before(ts, Some(Lexed([], false, false))) == Some(Lexed(ts, false, false))
  {
    assert ts + [] == ts;
  }

  lemma LexNothing()
    ensures Lex("", None) == Some(Lexed([], false, false))
  {
  }

  lemma WildcardStrings()
    ensures "make" + "" == "make" && "*.rs" + " && make" == "*.rs && make" && " " + "*.rs && make" == " *.rs && make"
    ensures "rg" + " *.rs && make" == "rg *.rs && make" && OperatorText(And) + "make" == " && make"
  {
  }

  lemma WildcardTokens(make: seq<Token>, rg: seq<Token>, star: seq<Token>)
    requires make == [Word(Bares("make"))] && rg == [Word(Bares("rg"))] && star == [Word(Bares("*.rs"))]
    ensures ListTokens(WildcardCommands(), [And]) == rg + (star + ([AndIf] + make))
  {
    hide Bares;
    var commands := WildcardCommands();
    assert TokensOf(commands[0]) == rg + star && TokensOf(commands[1]) == make;
    assert commands[1..] == [commands[1]] && [And][1..] == [];
    assert ListTokens([commands[1]], []) == make;
    ConcatAssoc(rg, star, [AndIf]);
    ConcatAssoc(rg, star + [AndIf], make);
    ConcatAssoc(star, [AndIf], make);
  }

  lemma WildcardHeads()
    ensures forall words <- WildcardCommands() :: IsCommand(words)
  {
    TextOfBares("rg");
    TextOfBares("make");
    assert forall i :: 0 <= i < |Bares("rg")| ==> Bares("rg")[i] != Bare('=');
    assert forall i :: 0 <= i < |Bares("make")| ==> Bares("make")[i] != Bare('=');
  }

  /**
   The service hands  *.rs  to rg as it stands, where the shell hands over the names that match: for this
   script there is a world in which the two runs differ.
  */
  lemma WildcardRunsDifferently(sh: Shell, command: Argv)
    requires command != [] && sh.extract(command) == Some("rg *.rs && make")
    requires sh.parse(command) == Some([["rg", "*.rs"], ["make"]])
    ensures NormalizeCommand(sh, command).plan == Some(Chain(StepsOf([["rg", "*.rs"], ["make"]], [And])))
    ensures ReadsAs("rg *.rs && make", WildcardCommands(), [And])
    ensures !RunsAsShell(NormalizeCommand(sh, command).plan.value, WildcardCommands(), [And],
                         Longer(), Steering([And], true), Steering([And], false), 0)
  {
    var script, commands, texts := "rg *.rs && make", WildcardCommands(), [["rg", "*.rs"], ["make"]];
    WildcardScript();
    WildcardTexts();
    PlanOfScript(sh, command, script, commands, [And]);
    PolicySeesThePlan(sh, command);
    DifferenceShows(commands, [And]);
    hide Lex, ListTokens, Scan, TextsOf, Bares, IsCommand, Expands, Eval, RunSteps, Agree;
  }

  lemma WildcardTexts()
    ensures AllTexts(WildcardCommands()) == [["rg", "*.rs"], ["make"]] && !AsWritten(WildcardCommands())
  {
    TextOfBares("rg");
    TextOfBares("*.rs");
    TextOfBares("make");
    assert Bares("*.rs")[0] == Bare('*');
    var commands := WildcardCommands();
    assert commands[0][1] in commands[0] && commands[0] in commands && Expands(commands[0][1]);
    assert TextsOf(commands[0]) == ["rg", "*.rs"] && TextsOf(commands[1]) == ["make"];
    hide Bares, Expands;
  }

  /**
   With an escaped quote the plan can even have another operator than the script: here the service runs
   the second command after the first succeeded, the shell after it failed.
  */
  lemma EscapedQuoteRunsDifferently(sh: Shell, command: Argv)
    requires command != [] && sh.extract(command) == Some("\\\"||b\"&&\"")
    requires sh.parse(command) == Some([["\""], ["b&&"]])
    ensures ReadsAs("\\\"||b\"&&\"", SwappedCommands(), [Or]) && AllTexts(SwappedCommands()) == [["\""], ["b&&"]]
    ensures NormalizeCommand(sh, command).plan == Some(Chain(StepsOf([["\""], ["b&&"]], [And])))
    ensures !RunsAsShell(NormalizeCommand(sh, command).plan.value, SwappedCommands(), [Or],
                         Longer(), Steering([], false), Steering([], false), 0)
  {
    EscapedQuoteSwapsOperators();
    SwappedReads();
    SwappedRuns();
    hide RunSteps, Eval, Derived, Agree;
    hide Lex, Scan, ReadsAs;
  }

  /** With commands that succeed the chain runs two and the shell one. */
  lemma SwappedRuns()
    ensures !Agree(RunSteps(StepsOf([["\""], ["b&&"]], [And]), Steering([], false), 0),
                   Eval(Derived(SwappedCommands(), [Or]), Fields(Longer()),
                        InShell(Steering([], false), Steering([], false)), 0))
  {
    var run := Steering([], false);
    var steps := StepsOf([["\""], ["b&&"]], [And]);
    assert steps[..1][..0] == [] && steps[..1][0] == steps[0] && [] + [steps[0].argv] == [steps[0].argv];
    assert RunSteps(steps[..1], run, 0).ran == [steps[0].argv];
    assert |RunSteps(steps, run, 0).ran| == 2;
    var commands := SwappedCommands();
    assert commands[..1] == [commands[0]] && [Or][..0] == [];
    assert Derived(commands, [Or]) == OrElse(Simple(commands[0]), commands[1]);
    var e := Eval(Simple(commands[0]), Fields(Longer()), InShell(run, run), 0);
    hide Fields;
    assert e.status == Some(0) && |e.ran| == 1;
  }

  function SwappedCommands(): seq<Words> {
    [[[Quoted('"')]], [[Bare('b'), Opened, Quoted('&'), Quoted('&')]]]
  }

  lemma SwappedReads()
    ensures ReadsAs("\\\"||b\"&&\"", SwappedCommands(), [Or]) && AllTexts(SwappedCommands()) == [["\""], ["b&&"]]
  {
    EscapedQuoteSwapsOperators();
    hide Lex;
    var q, b := [Quoted('"')], [Bare('b'), Opened, Quoted('&'), Quoted('&')];
    var commands := SwappedCommands();
    assert TokensOf(commands[0]) == [Word(q)] && TokensOf(commands[1]) == [Word(b)] && [Or][1..] == [];
    assert commands[1..] == [commands[1]] && ListTokens(commands[1..], []) == [Word(b)];
    assert [Word(q)] + [OrIf] + [Word(b)] == [Word(q), OrIf, Word(b)];
    assert q[1..] == [] && TextOf(q) == "\"";
    assert b[1..] == [Opened, Quoted('&'), Quoted('&')] && b[1..][1..] == [Quoted('&'), Quoted('&')];
    assert b[1..][1..][1..] == [Quoted('&')] && b[1..][1..][1..][1..] == [];
    assert TextOf(b) == "b&&";
    assert TextsOf(commands[0]) == ["\""] && TextsOf(commands[1]) == ["b&&"];
    assert IsCommand(commands[0]) && IsCommand(commands[1]);
  }

  // ----- which scripts have a plan -----

  /**
   A script of several commands has a plan exactly if the scanner sees nothing but && and || between them,
   one each. Of the scripts that the grammar reads with no quote escaped these are the ones that have nothing
   else between their commands and none escaped or split. (A script with other operators and an escaped one
   may slip through: EscapedOperatorMakesList.)
  */
  lemma OnlyAndOrListsHavePlans(sh: Shell, command: Argv, script: string, parsed: seq<Argv>)
    requires command != [] && sh.extract(command) == Some(script) && sh.parse(command) == Some(parsed) && |parsed| >= 2
    ensures var seen, plan := SeenOperators(script), NormalizeCommand(sh, command).plan;
      && (plan.Some? <==> seen.Some? && |seen.value| == |parsed| - 1)
      && (plan.Some? ==> plan.value == Chain(StepsOf(parsed, seen.value)))
    ensures var lexed, plan := Lex(script, None), NormalizeCommand(sh, command).plan;
      lexed.Some? && !lexed.value.quoteEscaped ==>
        var ops := ListOperators(lexed.value.tokens);
        && (!lexed.value.operatorEscaped || ops.Some? ==>
              (plan.Some? <==> !lexed.value.operatorEscaped && ops.Some? && |ops.value| == |parsed| - 1))
        && (!lexed.value.operatorEscaped && plan.Some? ==> plan.value == Chain(StepsOf(parsed, ops.value)))
  {
    ScannerReadsWhatItSees(script);
    if Lex(script, None).Some? {
      ScannerAgreesWithGrammar(script);
    }
    hide Lex, Scan, SeenOperators, ListOperators;
  }

  /** In particular a chain that was printed by shell_join comes back as itself. */
  lemma PrintedChainNormalizes(sh: Shell, command: Argv, argvs: seq<Argv>, ops: seq<Operator>)
    requires |argvs| == |ops| + 1 && |argvs| >= 2
    requires command != [] && sh.extract(command) == Some(ChainText(argvs, ops)) && sh.parse(command) == Some(argvs)
    ensures NormalizeCommand(sh, command)
         == Normalized(ShellPlainChain, None, Some(Chain(StepsOf(argvs, ops))), argvs, false)
  {
    PrinterRoundTrip(argvs, ops);
    hide ChainOperators;
  }
}
