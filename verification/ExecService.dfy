/** The privileged-exec requests: normalising a command, judging it, and running what was judged. */
module ExecService {
  import opened Basics
  import opened ShellGrammar
  import opened ShellQuoting
  import opened ChainScan
  import opened ExecPolicy
  import opened ChainExec

  /** The external shell front end: the script of a shell invocation, and its plain commands. */
  datatype Shell = Shell(extract: Argv -> Option<string>, parse: Argv -> Option<seq<Argv>>)

  datatype Classification = EmptyCommand | PlainArgv | ShellScript | ShellSequence | ShellPlainChain | ShellPlainSingle

  datatype Normalized = Normalized(
    classification: Classification,
    argv: Option<Argv>,
    plan: Option<Plan>,
    policyArgvs: seq<Argv>,
    hasReason: bool)

  function NormalizeCommand(sh: Shell, command: Argv): Normalized {
    if command == [] then Normalized(EmptyCommand, None, None, [], true)
    else if sh.extract(command).None? then
      Normalized(PlainArgv, Some(command), Some(Single(command)), [command], false)
    else
      match sh.parse(command)
      case None => Normalized(ShellScript, None, None, [], true)
      case Some(parsed) =>
        if |parsed| == 1 then
          Normalized(ShellPlainSingle, Some(parsed[0]), Some(Single(parsed[0])), [parsed[0]], false)
        else
          match ChainOperators(sh.extract(command).value, |parsed|)
          case None => Normalized(ShellSequence, None, None, parsed, true)
          case Some(ops) => Normalized(ShellPlainChain, None, Some(Chain(StepsOf(parsed, ops))), parsed, false)
  }

  /** normalized_command_argvs: the commands a plan may run. */
  function PlanArgvs(plan: Plan): seq<Argv> {
    match plan
    case Single(argv) => [argv]
    case Chain(steps) => seq(|steps|, i requires 0 <= i < |steps| => steps[i].argv)
  }

  /**
   What may run is what the policy is asked about, command for command: the command itself, or
   for a shell invocation the commands its script consists of.
  */
  lemma PolicySeesThePlan(sh: Shell, command: Argv)
    ensures var n := NormalizeCommand(sh, command);
      && (n.plan.Some? ==> PlanArgvs(n.plan.value) == n.policyArgvs)
      && (n.plan.Some? && sh.extract(command).None? ==> n.policyArgvs == [command])
      && (n.plan.Some? && sh.extract(command).Some? ==> Some(n.policyArgvs) == sh.parse(command))
  {
    hide ChainOperators;
    var parsed := sh.parse(command);
    assert parsed.Some? && |parsed.value| == 1 ==> [parsed.value[0]] == parsed.value;
  }

  /** The shell command's plain commands, when the front end has a list of them. */
  predicate Parses(sh: Shell, command: Argv, parsed: seq<Argv>) {
    command != [] && sh.extract(command).Some? && sh.parse(command) == Some(parsed)
  }

  /** Every case of normalize_command, with the operators that the scanner sees. */
  lemma NormalizesExactly(sh: Shell, command: Argv)
    ensures var n := NormalizeCommand(sh, command);
      && (command == [] ==> n == Normalized(EmptyCommand, None, None, [], true))
      && (command != [] && sh.extract(command).None? ==>
            n == Normalized(PlainArgv, Some(command), Some(Single(command)), [command], false))
      && (command != [] && sh.extract(command).Some? && sh.parse(command).None? ==>
            n == Normalized(ShellScript, None, None, [], true))
    ensures forall parsed :: Parses(sh, command, parsed) ==>
      var n, seen := NormalizeCommand(sh, command), SeenOperators(sh.extract(command).value);
      && n.policyArgvs == parsed
      && (|parsed| == 1 ==> n == Normalized(ShellPlainSingle, Some(parsed[0]), Some(Single(parsed[0])), parsed, false))
      && (|parsed| != 1 && (seen.None? || |seen.value| != if parsed == [] then 0 else |parsed| - 1) ==>
            n == Normalized(ShellSequence, None, None, parsed, true))
      && (|parsed| != 1 && seen.Some? && |seen.value| == (if parsed == [] then 0 else |parsed| - 1) ==>
            && n.classification == ShellPlainChain && n.argv.None? && !n.hasReason
            && n.plan.Some? && n.plan.value.Chain? && |n.plan.value.steps| == |parsed|
            && forall i :: 0 <= i < |parsed| ==>
                 n.plan.value.steps[i] == ChainStep(parsed[i], if i == 0 then None else Some(seen.value[i - 1])))
  {
    if command != [] && sh.extract(command).Some? && sh.parse(command).Some? {
      var parsed := sh.parse(command).value;
      ScannerReadsWhatItSees(sh.extract(command).value);
      assert |parsed| == 1 ==> [parsed[0]] == parsed;
    }
    hide SeenOperators, Scan;
  }

  // ----- requests -----

  /** Every command of the plan is cleared by the policy, and there is at least one. */
  ghost predicate Admitted(sh: Shell, policy: Policy, command: Argv) {
    var n := NormalizeCommand(sh, command);
    && n.plan.Some? && PlanArgvs(n.plan.value) != []
    && forall argv <- PlanArgvs(n.plan.value) :: Cleared(policy, argv)
  }

  lemma AllowMeansAdmitted(sh: Shell, policy: Policy, command: Argv)
    ensures var n := NormalizeCommand(sh, command);
      Admitted(sh, policy, command) <==>
        n.plan.Some? && n.policyArgvs != [] && JoinAll(policy, n.policyArgvs) == Some(Allow)
  {
    PolicySeesThePlan(sh, command);
    DecisionMeaning(policy, NormalizeCommand(sh, command).policyArgvs);
    hide Cleared, JoinAll, NormalizeCommand, PlanArgvs;
  }

  /** One command, given as it is or as all of a shell script. */
  predicate IsSingle(sh: Shell, command: Argv, argv: Argv) {
    command != [] && (if sh.extract(command).None? then argv == command else sh.parse(command) == Some([argv]))
  }

  /** Who gets in, without the plan: single commands and chains whose commands are all cleared. */
  lemma AdmittedExactly(sh: Shell, policy: Policy, command: Argv)
    ensures forall argv :: IsSingle(sh, command, argv) ==> (Admitted(sh, policy, command) <==> Cleared(policy, argv))
    ensures forall parsed :: Parses(sh, command, parsed) && |parsed| != 1 ==>
      var seen := SeenOperators(sh.extract(command).value);
      (Admitted(sh, policy, command) <==>
        && parsed != [] && seen.Some? && |seen.value| == |parsed| - 1
        && forall argv <- parsed :: Cleared(policy, argv))
    ensures command == [] || (sh.extract(command).Some? && sh.parse(command).None?) ==> !Admitted(sh, policy, command)
  {
    NormalizesExactly(sh, command);
    PolicySeesThePlan(sh, command);
    hide NormalizeCommand, Cleared, SeenOperators, PlanArgvs;
  }

  datatype CheckReply = BadCheck | Checked(eligible: bool, evaluation: Evaluation)

  /** policy_check; wellFormed stands for validate_request. */
  method PolicyCheck(sh: Shell, policy: Policy, wellFormed: bool, command: Argv) returns (reply: CheckReply)
    ensures reply.BadCheck? <==> !wellFormed || command == []
    ensures reply.Checked? ==> (reply.eligible <==> Admitted(sh, policy, command))
    ensures reply.Checked? ==> reply.evaluation == Judged(policy, NormalizeCommand(sh, command).policyArgvs)
    ensures forall argv :: reply.Checked? && IsSingle(sh, command, argv) ==> (reply.eligible <==> Cleared(policy, argv))
  {
    if !wellFormed || command == [] {
      return BadCheck;
    }
    var n := NormalizeCommand(sh, command);
    var evaluation := EvaluateNormalized(policy, n.policyArgvs);
    AllowMeansAdmitted(sh, policy, command);
    AdmittedExactly(sh, policy, command);
    hide Admitted, NormalizeCommand, Cleared, IsSingle, Parses, SeenOperators;
    return Checked(n.plan.Some? && evaluation.decision == Some(Allow), evaluation);
  }

  datatype RunReply = BadRun | Rejected(evaluation: Evaluation) | Executed(evaluation: Evaluation, result: ExecResult)

  /**
   exec_run. Without bypass it executes exactly the admitted requests, so the check and the run
   never disagree under one policy; every command it tries to start was put before the policy,
   matches at least one rule, and matches no Prompt or Forbidden rule. What it executes is the
   plan, from the given world; nothing runs otherwise. With bypass no rule is consulted.
  */
  method ExecRun<W>(sh: Shell, policy: Policy, wellFormed: bool, bypass: bool, command: Argv,
                    run: Runner<W>, world: W, max: nat)
    returns (reply: RunReply, world': W, ran: seq<Argv>)
    ensures reply.BadRun? <==> !wellFormed || command == []
    ensures !bypass && !reply.BadRun? ==> (reply.Executed? <==> Admitted(sh, policy, command))
    ensures bypass && !reply.BadRun? ==> (reply.Executed? <==> NormalizeCommand(sh, command).plan.Some?)
    ensures !reply.Executed? ==> ran == [] && world' == world
    ensures reply.Executed? ==>
      var n := NormalizeCommand(sh, command);
      n.plan.Some? && Executes(n.plan.value, run, world, max, reply.result, world', ran)
    ensures !reply.BadRun? ==>
      var argvs := NormalizeCommand(sh, command).policyArgvs;
      reply.evaluation == if bypass then Evaluation([], None) else Judged(policy, argvs)
    ensures forall argv <- ran :: argv in NormalizeCommand(sh, command).policyArgvs
    ensures !bypass ==> forall argv <- ran :: Cleared(policy, argv)
    ensures forall argv :: !reply.BadRun? && IsSingle(sh, command, argv) ==>
      && (reply.Executed? <==> bypass || Cleared(policy, argv))
      && (reply.Executed? ==> ran == [argv] && RunsOne(run, world, argv, reply.result, world'))
  {
    if !wellFormed || command == [] {
      return BadRun, world, [];
    }
    var n := NormalizeCommand(sh, command);
    PolicySeesThePlan(sh, command);
    AllowMeansAdmitted(sh, policy, command);
    AdmittedExactly(sh, policy, command);
    SinglePlan(sh, command);
    DecisionMeaning(policy, n.policyArgvs);
    hide Admitted, NormalizeCommand, Cleared, JoinAll, IsSingle, Parses, SeenOperators;
    var evaluation := Evaluation([], None);
    if !bypass {
      evaluation := EvaluateNormalized(policy, n.policyArgvs);
    }
    if n.plan.None? {
      return Rejected(evaluation), world, [];
    }
    if !bypass && evaluation.decision != Some(Allow) {
      return Rejected(evaluation), world, [];
    }
    var result: ExecResult;
    result, world', ran := ExecutePlan(n.plan.value, run, world, max);
    RanIsPlanned(n.plan.value, run, world);
    reply := Executed(evaluation, result);
  }

  /** One command ran, or could not be started. */
  predicate RunsOne<W(==)>(run: Runner<W>, world: W, argv: Argv, result: ExecResult, world': W) {
    && world' == run(world, argv).world
    && result == match run(world, argv)
                 case Ran(_, output) => Completed(output)
                 case NotStarted(_) => LaunchError
  }

  lemma SinglePlan(sh: Shell, command: Argv)
    ensures forall argv :: IsSingle(sh, command, argv) ==> NormalizeCommand(sh, command).plan == Some(Single(argv))
  {
    NormalizesExactly(sh, command);
    hide NormalizeCommand, SeenOperators;
    forall argv | IsSingle(sh, command, argv)
      ensures NormalizeCommand(sh, command).plan == Some(Single(argv))
    {
      assert sh.extract(command).Some? ==> Parses(sh, command, [argv]);
    }
  }

  /** A chain starts only commands of its own steps. */
  lemma RanIsPlanned<W>(plan: Plan, run: Runner<W>, world: W)
    ensures plan.Chain? ==> forall argv <- RunSteps(plan.steps, run, world).ran :: argv in PlanArgvs(plan)
    ensures plan.Single? ==> plan.argv in PlanArgvs(plan)
  {
    if plan.Chain? {
      StepsRun(plan.steps, |plan.steps|, run, world);
      assert plan.steps[..|plan.steps|] == plan.steps;
    }
  }

  lemma {:induction false} StepsRun<W>(steps: seq<ChainStep>, i: nat, run: Runner<W>, world: W)
    requires i <= |steps|
    ensures forall argv <- RunSteps(steps[..i], run, world).ran :: argv in PlanArgvs(Chain(steps))
  {
    if i > 0 {
      StepsRun(steps, i - 1, run, world);
      assert steps[..i][..i - 1] == steps[..i - 1];
      assert PlanArgvs(Chain(steps))[i - 1] == steps[i - 1].argv;
    }
  }
}
