/** Running a plan: the short-circuiting chain loop, against AND-OR lists of the shell. */
module ChainExec {
  import opened Basics
  import opened ShellGrammar
  import opened CappedOutput

  datatype ChainStep = ChainStep(argv: Argv, operatorBefore: Option<Operator>)

  datatype Plan = Single(argv: Argv) | Chain(steps: seq<ChainStep>)

  /** One attempt to run a command in a world: it ran to its end, or it could not be started. */
  datatype Launch<W> = Ran(world: W, output: Output) | NotStarted(world: W)

  type Runner<!W> = (W, Argv) -> Launch<W>

  /** What a chain has done so far. */
  datatype Progress<W> = Progress(world: W, previous: Option<int>, ran: seq<Argv>, outputs: seq<Output>, failed: bool)

  predicate ShouldRun(op: Option<Operator>, previous: Option<int>) {
    match op
    case None => true
    case Some(And) => previous == Some(0)
    case Some(Or) => previous != Some(0)
  }

  function Advanced<W>(p: Progress<W>, step: ChainStep, run: Runner<W>): Progress<W> {
    if p.failed || !ShouldRun(step.operatorBefore, p.previous) then p
    else
      match run(p.world, step.argv)
      case Ran(world, output) => Progress(world, output.exitCode, p.ran + [step.argv], p.outputs + [output], false)
      case NotStarted(world) => Progress(world, p.previous, p.ran + [step.argv], p.outputs, true)
  }

  function RunSteps<W>(steps: seq<ChainStep>, run: Runner<W>, world: W): Progress<W> {
    if steps == [] then Progress(world, None, [], [], false)
    else Advanced(RunSteps(steps[..|steps| - 1], run, world), steps[|steps| - 1], run)
  }

  /** The outputs of the steps that ran, merged under the cap. */
  function MergedOutput(outputs: seq<Output>, max: nat): Output {
    if outputs == [] then Output(None, false, [], [], false, false)
    else Pushed(MergedOutput(outputs[..|outputs| - 1], max), outputs[|outputs| - 1], max)
  }

  datatype ExecResult = Completed(output: Output) | LaunchError

  lemma {:induction false} FailedStays<W>(steps: seq<ChainStep>, i: nat, run: Runner<W>, world: W)
    requires i <= |steps| && RunSteps(steps[..i], run, world).failed
    ensures RunSteps(steps, run, world) == RunSteps(steps[..i], run, world)
    decreases |steps| - i
  {
    if i < |steps| {
      assert steps[..i + 1][..i] == steps[..i];
      FailedStays(steps, i + 1, run, world);
    } else {
      assert steps[..i] == steps;
    }
  }

  /** What executing a plan returns, leaves behind, and tried to start. */
  ghost predicate Executes<W>(plan: Plan, run: Runner<W>, world: W, max: nat, result: ExecResult, world': W,
                              ran: seq<Argv>) {
    match plan
    case Single(argv) =>
      && ran == [argv] && world' == run(world, argv).world
      && result == (match run(world, argv)
                    case Ran(_, output) => Completed(output)
                    case NotStarted(_) => LaunchError)
    case Chain(steps) =>
      var p := RunSteps(steps, run, world);
      && ran == p.ran && world' == p.world
      && result == if p.failed then LaunchError else Completed(MergedOutput(p.outputs, max))
  }

  /** execute_plan; ran lists every command it tried to start, in order. */
  method ExecutePlan<W>(plan: Plan, run: Runner<W>, world: W, max: nat)
    returns (result: ExecResult, world': W, ran: seq<Argv>)
    ensures Executes(plan, run, world, max, result, world', ran)
  {
    match plan {
      case Single(argv) =>
        match run(world, argv) {
          case Ran(w, output) => return Completed(output), w, [argv];
          case NotStarted(w) => return LaunchError, w, [argv];
        }
      case Chain(steps) =>
        var combined := new CapturedOutput();
        var previous: Option<int> := None;
        ghost var outputs: seq<Output> := [];
        world', ran := world, [];
        for i := 0 to |steps|
          invariant fresh(combined) && combined.Value() == MergedOutput(outputs, max)
          invariant RunSteps(steps[..i], run, world) == Progress(world', previous, ran, outputs, false)
        {
          var step := steps[i];
          assert steps[..i + 1][..i] == steps[..i];
          if !ShouldRun(step.operatorBefore, previous) {
            continue;
          }
          match run(world', step.argv) {
            case NotStarted(w) =>
              FailedStays(steps, i + 1, run, world);
              return LaunchError, w, ran + [step.argv];
            case Ran(w, output) =>
              previous := output.exitCode;
              combined.Push(output, max);
              world', ran := w, ran + [step.argv];
              assert (outputs + [output])[..|outputs|] == outputs;
              outputs := outputs + [output];
          }
        }
        assert steps[..|steps|] == steps;
        result := Completed(combined.Value());
    }
  }

  // ----- the shell's meaning -----

  /** Result of an AND-OR list: unstarted is the position in ran of the first command that could not start. */
  datatype Evaluated<W> =
    Evaluated(world: W, status: Option<int>, ran: seq<Argv>, outputs: seq<Output>, unstarted: Option<nat>)

  /**
   Running one command of a list. Its argument vector comes from the command and the world it starts in;
   a command that cannot be started has status 127 (section 2.8.2), one killed by a signal no zero status.
  */
  function EvalCommand<W, C>(e: Evaluated<W>, command: C, fields: (W, C) -> Argv, run: Runner<W>): Evaluated<W> {
    var argv := fields(e.world, command);
    match run(e.world, argv)
    case Ran(world, output) => Evaluated(world, output.exitCode, e.ran + [argv], e.outputs + [output], e.unstarted)
    case NotStarted(world) =>
      Evaluated(world, Some(127), e.ran + [argv], e.outputs, if e.unstarted.Some? then e.unstarted else Some(|e.ran|))
  }

  /** Section 2.9.3: the right command runs when the list to its left has status zero (&&) or not (||). */
  function Eval<W, C>(list: AndOr<C>, fields: (W, C) -> Argv, run: Runner<W>, world: W): Evaluated<W> {
    match list
    case Simple(command) => EvalCommand(Evaluated(world, Some(0), [], [], None), command, fields, run)
    case AndThen(left, command) =>
      var e := Eval(left, fields, run, world);
      if e.status == Some(0) then EvalCommand(e, command, fields, run) else e
    case OrElse(left, command) =>
      var e := Eval(left, fields, run, world);
      if e.status != Some(0) then EvalCommand(e, command, fields, run) else e
  }

  /** The steps of a chain with the given commands and operators. */
  function StepsOf(argvs: seq<Argv>, ops: seq<Operator>): seq<ChainStep> {
    seq(|argvs|, i requires 0 <= i < |argvs| =>
      ChainStep(argvs[i], if i == 0 || i > |ops| then None else Some(ops[i - 1])))
  }

  /** The chain loop at p and the shell at e tell the same story up to the first command that cannot start. */
  ghost predicate Agree<W>(p: Progress<W>, e: Evaluated<W>) {
    && (p.failed <==> e.unstarted.Some?)
    && (!p.failed ==> p.world == e.world && p.previous == e.status && p.ran == e.ran && p.outputs == e.outputs)
    && (p.failed ==> e.unstarted.value < |e.ran| && p.ran == e.ran[..e.unstarted.value + 1] && p.outputs <= e.outputs)
  }

  /**
   The chain loop is the AND-OR list: when every command of the list stands for the argument vector of its
   step, and the shell runs that vector as the service does, it runs the same commands in the same order in
   the same worlds and ends with the same status and outputs, exactly as long as every command the shell
   would run can be started. At the first one that cannot, the shell goes on with status 127 and the chain stops.
  */
  lemma {:induction false} ChainIsAndOrList<W, C>(commands: seq<C>, ops: seq<Operator>, argvs: seq<Argv>,
                                                  fields: (W, C) -> Argv, shell: Runner<W>, run: Runner<W>,
                                                  world: W)
    requires |argvs| == |commands| == |ops| + 1
    requires forall w, i :: 0 <= i < |commands| ==> fields(w, commands[i]) == argvs[i]
    requires forall w, i :: 0 <= i < |commands| ==> shell(w, argvs[i]) == run(w, argvs[i])
    ensures Agree(RunSteps(StepsOf(argvs, ops), run, world), Eval(Derived(commands, ops), fields, shell, world))
    decreases |ops|
  {
    var n := |ops|;
    var steps := StepsOf(argvs, ops);
    if n == 0 {
      assert steps == [ChainStep(argvs[0], None)] && steps[..0] == [];
      assert [] + [argvs[0]] == [argvs[0]] && fields(world, commands[0]) == argvs[0];
      assert shell(world, argvs[0]) == run(world, argvs[0]);
    } else {
      ChainIsAndOrList(commands[..n], ops[..n - 1], argvs[..n], fields, shell, run, world);
      assert StepsOf(argvs[..n], ops[..n - 1]) == steps[..n];
      assert steps[n] == ChainStep(argvs[n], Some(ops[n - 1]));
      var p := RunSteps(steps[..n], run, world);
      var left := Derived(commands[..n], ops[..n - 1]);
      var e := Eval(left, fields, shell, world);
      assert fields(e.world, commands[n]) == argvs[n] && shell(e.world, argvs[n]) == run(e.world, argvs[n]);
      OneMoreCommand(p, left, ops[n - 1], commands[n], argvs[n], fields, shell, run, world);
      hide Agree, Advanced, EvalCommand, Eval;
    }
  }

  /** One more command on both sides. */
  lemma OneMoreCommand<W, C>(p: Progress<W>, left: AndOr<C>, op: Operator, command: C, argv: Argv,
                             fields: (W, C) -> Argv, shell: Runner<W>, run: Runner<W>, world: W)
    requires Agree(p, Eval(left, fields, shell, world))
    requires var w := Eval(left, fields, shell, world).world;
      fields(w, command) == argv && shell(w, argv) == run(w, argv)
    ensures Agree(Advanced(p, ChainStep(argv, Some(op)), run), Eval(Joined(left, op, command), fields, shell, world))
  {
    var e := Eval(left, fields, shell, world);
    assert e.unstarted.Some? ==>
      (EvalCommand(e, command, fields, shell).ran[..e.unstarted.value + 1] == e.ran[..e.unstarted.value + 1]);
  }

  /** The merged result carries the status of the last command that ran, and whether any timed out. */
  lemma {:induction false} MergedExit(outputs: seq<Output>, max: nat)
    ensures var merged := MergedOutput(outputs, max);
      && merged.exitCode == (if outputs == [] then None else outputs[|outputs| - 1].exitCode)
      && (merged.timedOut <==> exists o :: o in outputs && o.timedOut)
  {
    if outputs != [] {
      var front, last := outputs[..|outputs| - 1], outputs[|outputs| - 1];
      MergedExit(front, max);
      assert forall o :: o in outputs <==> o in front || o == last;
      hide PushedStream;
    }
  }

  lemma {:induction false} PreviousIsLast<W>(steps: seq<ChainStep>, run: Runner<W>, world: W)
    ensures var p := RunSteps(steps, run, world);
      p.previous == if p.outputs == [] then None else p.outputs[|p.outputs| - 1].exitCode
  {
    if steps != [] {
      PreviousIsLast(steps[..|steps| - 1], run, world);
    }
  }

  // ----- streams of the merged result -----

  function Stdouts(outputs: seq<Output>): seq<Stream> {
    seq(|outputs|, i requires 0 <= i < |outputs| => Stdout(outputs[i]))
  }

  function Stderrs(outputs: seq<Output>): seq<Stream> {
    seq(|outputs|, i requires 0 <= i < |outputs| => Stderr(outputs[i]))
  }

  lemma PushedStreams(c: Output, o: Output, max: nat)
    ensures Stdout(Pushed(c, o, max)) == PushedStream(Stdout(c), Stdout(o), max)
    ensures Stderr(Pushed(c, o, max)) == PushedStream(Stderr(c), Stderr(o), max)
  {
  }

  lemma {:induction false} MergedStreams(outputs: seq<Output>, max: nat)
    ensures Stdout(MergedOutput(outputs, max)) == Merged(Stdouts(outputs), max)
    ensures Stderr(MergedOutput(outputs, max)) == Merged(Stderrs(outputs), max)
  {
    if outputs != [] {
      var front, last := outputs[..|outputs| - 1], outputs[|outputs| - 1];
      LastStreams(outputs);
      hide Pushed, PushedStream, Stdouts, Stderrs;
      MergedLast(Stdouts(front), Stdout(last), max);
      MergedLast(Stderrs(front), Stderr(last), max);
      hide Merged;
      MergedStreams(front, max);
      PushedStreams(MergedOutput(front, max), last, max);
    }
  }

  lemma MergedLast(front: seq<Stream>, last: Stream, max: nat)
    ensures Merged(front + [last], max) == PushedStream(Merged(front, max), last, max)
  {
    assert (front + [last])[..|front|] == front;
  }

  lemma LastStreams(outputs: seq<Output>)
    requires outputs != []
    ensures Stdouts(outputs) == Stdouts(outputs[..|outputs| - 1]) + [Stdout(outputs[|outputs| - 1])]
    ensures Stderrs(outputs) == Stderrs(outputs[..|outputs| - 1]) + [Stderr(outputs[|outputs| - 1])]
  {
  }

  /** A chain's streams: within the cap, flagged exactly when something is missing, else complete. */
  lemma ChainOutputIsLosslessOrFlagged(outputs: seq<Output>, max: nat)
    ensures var merged := MergedOutput(outputs, max);
      && |merged.stdout| <= max && |merged.stderr| <= max
      && (!merged.truncatedStdout <==>
            |Complete(Stdouts(outputs))| <= max && forall i :: 0 <= i < |outputs| ==> !outputs[i].truncatedStdout)
      && (!merged.truncatedStderr <==>
            |Complete(Stderrs(outputs))| <= max && forall i :: 0 <= i < |outputs| ==> !outputs[i].truncatedStderr)
      && (!merged.truncatedStdout ==> merged.stdout == Complete(Stdouts(outputs)))
      && (!merged.truncatedStderr ==> merged.stderr == Complete(Stderrs(outputs)))
  {
    hide Complete, Merged, MergedOutput, Stdouts, Stderrs;
    MergedStreams(outputs, max);
    UnflaggedIsComplete(Stdouts(outputs), max);
    UnflaggedIsComplete(Stderrs(outputs), max);
    StreamFlags(outputs);
  }

  lemma StreamFlags(outputs: seq<Output>)
    ensures |Stdouts(outputs)| == |outputs| == |Stderrs(outputs)|
    ensures forall i :: 0 <= i < |outputs| ==> Stdouts(outputs)[i].truncated == outputs[i].truncatedStdout
    ensures forall i :: 0 <= i < |outputs| ==> Stderrs(outputs)[i].truncated == outputs[i].truncatedStderr
  {
  }
}
