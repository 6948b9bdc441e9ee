/** What whole operations write and answer, record by record and field by field. */
module SlotStory {
  import opened Basics
  import opened SlotModel
  import opened SlotOps
  import opened SlotLifecycle
  import opened SlotSettling

  /** No hook touches what tells slots apart, or the lease. */
  predicate SameSlot(a: SlotState, b: SlotState) {
    && a.projectId == b.projectId && a.deviceKey == b.deviceKey && a.deviceId == b.deviceId
    && a.runtimeDir == b.runtimeDir && a.lease == b.lease
  }

  predicate SameResults(a: SlotState, b: SlotState) {
    a.artifacts == b.artifacts && a.processes == b.processes && a.lastReadyAt == b.lastReadyAt
  }

  /** A phase begins: status and phase are set, an old error is forgotten. */
  predicate Starts(before: SlotState, e: Event, status: SlotStatus, phase: SlotPhase, now: Time) {
    && e.kind == "phase_started" && SameSlot(before, e.state) && SameResults(before, e.state)
    && e.state.status == status && e.state.phase == phase && e.state.lastError.None? && e.state.updatedAt == now
  }

  predicate Fails(before: SlotState, e: Event, phase: SlotPhase, message: string, now: Time) {
    && e.kind == "error" && SameSlot(before, e.state) && SameResults(before, e.state)
    && e.state.status == Failed && e.state.phase == phase && e.state.updatedAt == now
    && e.state.lastError == Some(ErrorRecord("hook_failed", message))
  }

  /** New artifacts win over old ones; the processes are those of the hook; only Ready ends the phase. */
  predicate Finishes(before: SlotState, e: Event, result: HookResult, success: SlotStatus, now: Time) {
    && e.kind == "phase_finished" && SameSlot(before, e.state) && e.state.lastError == before.lastError
    && e.state.artifacts.Keys == before.artifacts.Keys + result.artifacts.Keys
    && (forall a <- e.state.artifacts ::
          e.state.artifacts[a] == if a in result.artifacts then result.artifacts[a] else before.artifacts[a])
    && |e.state.processes| == |result.processes|
    && (forall i :: 0 <= i < |result.processes| ==>
          var p := result.processes[i];
          e.state.processes[i] == ProcessRecord(p.purpose, p.pid, Some(now), p.expectedCleanup))
    && e.state.status == success && e.state.updatedAt == now
    && e.state.phase == (if success.Ready? then NoPhase else before.phase)
    && e.state.lastReadyAt == (if success.Ready? then Some(now) else before.lastReadyAt)
  }

  /** Hook j of the sequence h that begins at t: its two writes, by the answer of the hook runner. */
  predicate TellsHook(writes: seq<Event>, s: SlotState, h: HookSpec, env: Env, t: nat, j: nat)
    requires 2 * j + 2 <= |writes|
  {
    var at, started, ended := t + 4 * j, writes[2 * j], writes[2 * j + 1];
    && Starts(After(s, writes[..2 * j]), started, h.status, h.phase, env.now(at + 1))
    && match env.hook(at + 2)
       case HookOk(result) => Finishes(started.state, ended, result, h.success, env.now(at + 3))
       case HookErr(message) => Fails(started.state, ended, h.phase, message, env.now(at + 3))
  }

  /** How many of n hooks run: they end with the first whose directories cannot be made. */
  function Granted(env: Env, t: nat, n: nat): (m: nat)
    ensures m <= n
    decreases n
  {
    if n == 0 || !env.makesDirs(t) then 0 else 1 + Granted(env, t + 4, n - 1)
  }

  /** The hooks run one after the other, failed or not, and the last record is the answer. */
  ghost predicate TellsHooks(run: Run, s: SlotState, hooks: seq<HookSpec>, env: Env, t: nat) {
    var m := Granted(env, t, |hooks|);
    && |run.writes| == 2 * m
    && (forall j: nat :: j < m ==> TellsHook(run.writes, s, hooks[j], env, t, j))
    && run.outcome == if m == |hooks| then Returned(After(s, run.writes)) else Errored(DirectoryError)
  }

  /** A simulator that is not booted is booted first, and looked at again. */
  ghost predicate TellsBoot(run: Run, s: SlotState, hooks: seq<HookSpec>, dev: Device, env: Env, t: nat) {
    match env.inspect(t)
    case ProbeError => run == Run([], Errored(SimulatorError))
    case Booted => TellsHooks(run, s, hooks, env, t + 1)
    case NotBooted =>
      && run.writes != [] && Starts(s, run.writes[0], BootingSimulator, BootSimulator, env.now(t + 1))
      && var marked, rest := run.writes[0].state, Run(run.writes[1..], run.outcome);
         if !env.boots(t + 2) then rest == Run([], Errored(BootError))
         else match env.inspect(t + 3)
           case ProbeError => rest == Run([], Errored(SimulatorError))
           case Booted => TellsHooks(rest, marked, hooks, env, t + 4)
           case NotBooted =>
             && |rest.writes| == 1 && rest.outcome == Errored(BootUnconfirmed)
             && Fails(marked, rest.writes[0], BootSimulator,
                      "simulator " + dev.deviceId + " did not report booted after boot", env.now(t + 4))
  }

  lemma EnteredTells(s: SlotState, status: SlotStatus, phase: SlotPhase, now: Time)
    ensures Starts(s, Event("phase_started", Entered(s, status, phase, now)), status, phase, now)
  {
  }

  lemma AppliedTells(h: HookSpec, reply: HookReply, now: Time, s: SlotState)
    ensures match reply
      case HookOk(result) => Finishes(s, Applied(h, reply, now, s), result, h.success, now)
      case HookErr(message) => Fails(s, Applied(h, reply, now, s), h.phase, message, now)
  {
  }

  lemma {:induction false} HooksTell(hooks: seq<HookSpec>, owner: string, env: Env, t: nat, s: SlotState)
    requires hooks != [] && LeaseRefusal(s, owner).None?
    ensures TellsHooks(RunHooks(hooks, owner, env, t, s), s, hooks, env, t)
  {
    HookLayers(hooks, owner, env, t, s);
    var s1 := Entered(s, hooks[0].status, hooks[0].phase, env.now(t + 1));
    var e := Applied(hooks[0], env.hook(t + 2), env.now(t + 3), s1);
    var first := [Event("phase_started", s1), e];
    EnteredTells(s, hooks[0].status, hooks[0].phase, env.now(t + 1));
    AppliedTells(hooks[0], env.hook(t + 2), env.now(t + 3), s1);
    EnteredKeepsLease(s, owner, hooks[0], env.now(t + 1));
    assert LeaseRefusal(e.state, owner).None?;
    hide RunHooks, Starts, Finishes, Fails, LeaseRefusal, Entered, Applied;
    if env.makesDirs(t) {
      if |hooks| == 1 {
        assert first[..0] == [];
      } else {
        var rest := RunHooks(hooks[1..], owner, env, t + 4, e.state);
        HooksTell(hooks[1..], owner, env, t + 4, e.state);
        FirstTells(first, rest, s, hooks, env, t);
      }
    }
  }

  /** One hook and then the others. */
  lemma FirstTells(first: seq<Event>, rest: Run, s: SlotState, hooks: seq<HookSpec>, env: Env, t: nat)
    requires |hooks| > 1 && |first| == 2 && env.makesDirs(t) && TellsHook(first, s, hooks[0], env, t, 0)
    requires TellsHooks(rest, first[1].state, hooks[1..], env, t + 4)
    ensures TellsHooks(Run(first + rest.writes, rest.outcome), s, hooks, env, t)
  {
    hide TellsHook;
    var writes := first + rest.writes;
    assert writes[..|writes|] == writes;
    forall j: nat | j < Granted(env, t, |hooks|)
      ensures TellsHook(writes, s, hooks[j], env, t, j)
    {
      if j == 0 {
        FirstAhead(first, rest.writes, s, hooks[0], env, t);
      } else {
        assert TellsHook(rest.writes, first[1].state, hooks[1..][j - 1], env, t + 4, j - 1);
        OthersBehind(first, rest.writes, s, hooks[j], env, t, j - 1);
      }
    }
  }

  lemma FirstAhead(first: seq<Event>, rest: seq<Event>, s: SlotState, h: HookSpec, env: Env, t: nat)
    requires |first| == 2 && TellsHook(first, s, h, env, t, 0)
    ensures TellsHook(first + rest, s, h, env, t, 0)
  {
    assert (first + rest)[..0] == first[..0] && (first + rest)[0] == first[0] && (first + rest)[1] == first[1];
    hide Starts, Finishes, Fails;
  }

  lemma OthersBehind(first: seq<Event>, rest: seq<Event>, s: SlotState, h: HookSpec, env: Env, t: nat, j: nat)
    requires |first| == 2 && 2 * j + 2 <= |rest| && TellsHook(rest, first[1].state, h, env, t + 4, j)
    ensures TellsHook(first + rest, s, h, env, t, j + 1)
  {
    var writes := first + rest;
    assert writes[..2 * (j + 1)] == first + rest[..2 * j];
    assert writes[2 * (j + 1)] == rest[2 * j] && writes[2 * (j + 1) + 1] == rest[2 * j + 1];
    assert After(s, first + rest[..2 * j]) == After(first[1].state, rest[..2 * j]);
    hide Starts, Finishes, Fails, After;
  }

  lemma BootTells(hooks: seq<HookSpec>, owner: string, dev: Device, env: Env, t: nat, s: SlotState)
    requires hooks != [] && LeaseRefusal(s, owner).None?
    ensures TellsBoot(RunBooted(hooks, owner, dev, env, t, s), s, hooks, dev, env, t)
  {
    var mark := Marked(env, t, s);
    BootLayers(hooks, owner, dev, env, t, s);
    BootingHolds(owner, env, t, s);
    EnteredTells(s, BootingSimulator, BootSimulator, env.now(t + 1));
    HooksTell(hooks, owner, env, t + 1, s);
    HooksTell(hooks, owner, env, t + 4, mark.state);
    hide RunBooted, RunHooks, TellsHooks, LeaseRefusal, Starts;
    var rest := RunHooks(hooks, owner, env, t + 4, mark.state);
    assert ([mark] + rest.writes)[1..] == rest.writes && ([mark] + rest.writes)[0] == mark;
  }

  /**
   The operations of the lease owner. start and restart: the simulator, then prepare_source, start_dependencies
   if the project has it, start_runtime and check_readiness; only the last makes the slot Ready. teardown: its
   hook, and Idle. command: the simulator, its hook, and Ready.
  */
  lemma OwnerStory(owner: string, dev: Device, env: Env, s: SlotState)
    requires s.lease.Some? && s.lease.value.owner == owner
    ensures TellsBoot(Whole(Start(owner), dev, env, s), s,
                      [HookSpec(Preparing, PrepareSource, Preparing)]
                      + (if dev.startDependencies then
                           [HookSpec(StartingDependencies, StartDependencies, StartingRuntime)]
                         else [])
                      + [HookSpec(StartingRuntime, StartRuntime, StartingRuntime),
                         HookSpec(StartingRuntime, CheckReadiness, Ready)],
                      dev, env, 0)
    ensures Whole(Restart(owner), dev, env, s) == Whole(Start(owner), dev, env, s)
    ensures TellsHooks(Whole(Teardown(owner), dev, env, s), s, [HookSpec(Stopping, TeardownPhase, Idle)], env, 0)
    ensures TellsBoot(Whole(Command(owner), dev, env, s), s, [HookSpec(Busy, ExecuteCommand, Ready)], dev, env, 1)
  {
    BootTells(StartHooks(dev), owner, dev, env, 0, s);
    HooksTell([TEARDOWN], owner, env, 0, s);
    BootTells([EXECUTE_COMMAND], owner, dev, env, 1, s);
    hide RunBooted, RunHooks, TellsBoot, TellsHooks;
  }

  /** Anyone else writes nothing and is told why, unless the simulator or the directories fail first. */
  lemma StrangerStory(owner: string, dev: Device, env: Env, s: SlotState)
    requires s.lease.None? || s.lease.value.owner != owner
    ensures var why := if s.lease.None? then NoLease else LeasedBy(s.lease.value.owner);
      && Whole(Start(owner), dev, env, s) == Run([], Errored(
           match env.inspect(0)
           case ProbeError => SimulatorError
           case Booted => if env.makesDirs(1) then why else DirectoryError
           case NotBooted => why))
      && Whole(Restart(owner), dev, env, s) == Whole(Start(owner), dev, env, s)
      && Whole(Teardown(owner), dev, env, s) == Run([], Errored(if env.makesDirs(0) then why else DirectoryError))
      && Whole(Command(owner), dev, env, s) == Run([], Errored(why))
  {
    HookLayers(StartHooks(dev), owner, env, 1, s);
    HookLayers([TEARDOWN], owner, env, 0, s);
    hide RunHooks;
  }

  /** A lease is taken or refreshed by the present owner or when there is none, and given back by anyone. */
  lemma LeaseStory(owner: string, reason: string, expiresAt: Option<Time>, dev: Device, env: Env, s: SlotState)
    ensures var run := Whole(AcquireLease(owner, reason, expiresAt), dev, env, s);
      if s.lease.Some? && s.lease.value.owner != owner then
        run == Run([], Errored(AlreadyLeased(s.lease.value.owner)))
      else
        && |run.writes| == 1
        && LeaseWrite(s, run, "lease_acquired", Some(LeaseRecord(owner, reason, env.now(0), expiresAt)), env.now(0))
    ensures var run := Whole(ReleaseLease, dev, env, s);
      |run.writes| == 1 && LeaseWrite(s, run, "lease_released", None, env.now(0))
  {
  }

  /** One write, that changes the lease and the timestamp. */
  predicate LeaseWrite(s: SlotState, run: Run, kind: string, lease: Option<LeaseRecord>, now: Time)
    requires |run.writes| == 1
  {
    var s' := run.writes[0].state;
    && run.writes[0].kind == kind && run.outcome == Returned(s')
    && s'.lease == lease && s'.updatedAt == now && SameResults(s, s')
    && s'.projectId == s.projectId && s'.deviceKey == s.deviceKey && s'.deviceId == s.deviceId
    && s'.runtimeDir == s.runtimeDir && s'.status == s.status && s'.phase == s.phase && s'.lastError == s.lastError
  }
}
