/** What one whole operation does to its slot. */
module SlotLifecycle {
  import opened Basics
  import opened SlotModel
  import opened SlotOps

  /** A hook takes four program points: directories, prepare, hook, apply. */
  const HOOK_TICKS: nat := 4

  /** The layers of one hook, unfolded. */
  lemma HookLayers(hooks: seq<HookSpec>, owner: string, env: Env, t: nat, s: SlotState)
    requires hooks != []
    ensures RunHooks(hooks, owner, env, t, s) ==
      if !env.makesDirs(t) then Run([], Errored(DirectoryError))
      else if LeaseRefusal(s, owner).Some? then Run([], Errored(LeaseRefusal(s, owner).value))
      else
        var s1 := Entered(s, hooks[0].status, hooks[0].phase, env.now(t + 1));
        var e := Applied(hooks[0], env.hook(t + 2), env.now(t + 3), s1);
        var first := [Event("phase_started", s1), e];
        if |hooks| == 1 then Run(first, Returned(e.state))
        else
          var rest := RunHooks(hooks[1..], owner, env, t + HOOK_TICKS, e.state);
          Run(first + rest.writes, rest.outcome)
  {
    assert RunHooks(hooks, owner, env, t, s) ==
      if !env.makesDirs(t) then Run([], Errored(DirectoryError)) else RunPrepared(hooks, owner, env, t + 1, s);
    var s1 := Entered(s, hooks[0].status, hooks[0].phase, env.now(t + 1));
    if LeaseRefusal(s, owner).None? {
      assert RunPrepared(hooks, owner, env, t + 1, s) ==
        Then(Event("phase_started", s1), RunReply(hooks, env.hook(t + 2), owner, env, t + 3, s1));
    }
    var e := Applied(hooks[0], env.hook(t + 2), env.now(t + 3), s1);
    if |hooks| > 1 {
      var rest := RunHooks(hooks[1..], owner, env, t + HOOK_TICKS, e.state);
      assert RunReply(hooks, env.hook(t + 2), owner, env, t + 3, s1) == Then(e, rest);
      assert [Event("phase_started", s1)] + ([e] + rest.writes) == [Event("phase_started", s1), e] + rest.writes;
    }
  }

  /** The first hook, then the others from where it ended. */
  lemma RunHooksSplit(hooks: seq<HookSpec>, owner: string, env: Env, t: nat, s: SlotState)
    requires |hooks| > 1
    ensures var one := RunHooks(hooks[..1], owner, env, t, s);
      var rest := RunHooks(hooks[1..], owner, env, t + HOOK_TICKS, After(s, one.writes));
      RunHooks(hooks, owner, env, t, s) ==
        if one.outcome.Errored? then one else Run(one.writes + rest.writes, rest.outcome)
  {
    HookLayers(hooks, owner, env, t, s);
    HookLayers(hooks[..1], owner, env, t, s);
    hide RunHooks;
  }

  /**
   How a hook sequence started at t by the lease owner ends: early only where a directory cannot
   be made; otherwise after every hook, and the last reply alone decides status, error and
   tracked processes of the record returned.
  */
  predicate EndsAsLastReply(hooks: seq<HookSpec>, env: Env, t: nat, s: SlotState, run: Run)
    requires hooks != []
  {
    var n := |hooks|;
    && (run.outcome.Returned? <==> forall i :: 0 <= i < n ==> env.makesDirs(t + HOOK_TICKS * i))
    && After(s, run.writes).lease == s.lease
    && (run.outcome.Returned? ==>
          var last := env.hook(t + HOOK_TICKS * (n - 1) + 2);
          var s' := run.outcome.state;
          && |run.writes| == 2 * n && s' == After(s, run.writes)
          && s'.status == (if last.HookOk? then hooks[n - 1].success else Failed)
          && s'.lastError == (if last.HookOk? then None else Some(ErrorRecord("hook_failed", last.message)))
          && (last.HookOk? ==> s'.processes == Tracked(last.result.processes, env.now(t + HOOK_TICKS * (n - 1) + 3))))
  }

  /** A failed hook does not end the sequence: every hook still runs. */
  lemma {:induction false} HooksOutcome(hooks: seq<HookSpec>, owner: string, env: Env, t: nat, s: SlotState)
    requires hooks != [] && LeaseRefusal(s, owner).None?
    ensures EndsAsLastReply(hooks, env, t, s, RunHooks(hooks, owner, env, t, s))
  {
    HookLayers(hooks, owner, env, t, s);
    hide RunHooks, LeaseRefusal, Entered;
    var s1 := Entered(s, hooks[0].status, hooks[0].phase, env.now(t + 1));
    var e := Applied(hooks[0], env.hook(t + 2), env.now(t + 3), s1);
    EnteredKeepsLease(s, owner, hooks[0], env.now(t + 1));
    AppliedReply(hooks[0], env.hook(t + 2), env.now(t + 3), s1, owner);
    hide Applied, Tracked;
    if !env.makesDirs(t) {
      assert !env.makesDirs(t + HOOK_TICKS * 0);
    } else if |hooks| == 1 {
      assert env.makesDirs(t + HOOK_TICKS * 0);
    } else {
      var rest := RunHooks(hooks[1..], owner, env, t + HOOK_TICKS, e.state);
      HooksOutcome(hooks[1..], owner, env, t + HOOK_TICKS, e.state);
      FirstThenRest(hooks, env, t, s, [Event("phase_started", s1), e], rest);
      hide EndsAsLastReply;
    }
  }

  lemma FirstThenRest(hooks: seq<HookSpec>, env: Env, t: nat, s: SlotState, first: seq<Event>, rest: Run)
    requires |hooks| > 1 && env.makesDirs(t) && |first| == 2 && first[1].state.lease == s.lease
    requires EndsAsLastReply(hooks[1..], env, t + HOOK_TICKS, first[1].state, rest)
    ensures EndsAsLastReply(hooks, env, t, s, Run(first + rest.writes, rest.outcome))
  {
    DirsShift(env, t, |hooks|);
    hide Tracked;
  }

  lemma EnteredKeepsLease(s: SlotState, owner: string, h: HookSpec, now: Time)
    ensures var s1 := Entered(s, h.status, h.phase, now);
      s1.lease == s.lease && s1.lastError.None? && LeaseRefusal(s1, owner) == LeaseRefusal(s, owner)
  {
  }

  lemma AppliedReply(h: HookSpec, reply: HookReply, now: Time, s: SlotState, owner: string)
    requires s.lastError.None?
    ensures var s' := Applied(h, reply, now, s).state;
      && s'.lease == s.lease && LeaseRefusal(s', owner) == LeaseRefusal(s, owner)
      && s'.status == (if reply.HookOk? then h.success else Failed)
      && s'.lastError == (if reply.HookOk? then None else Some(ErrorRecord("hook_failed", reply.message)))
      && (reply.HookOk? ==> s'.processes == Tracked(reply.result.processes, now))
  {
  }

  lemma DirsShift(env: Env, t: nat, n: nat)
    requires n > 1 && env.makesDirs(t)
    ensures (forall i :: 0 <= i < n ==> env.makesDirs(t + HOOK_TICKS * i)) <==>
            (forall i :: 0 <= i < n - 1 ==> env.makesDirs(t + HOOK_TICKS + HOOK_TICKS * i))
  {
    if forall i :: 0 <= i < n ==> env.makesDirs(t + HOOK_TICKS * i) {
      forall i | 0 <= i < n - 1 ensures env.makesDirs(t + HOOK_TICKS + HOOK_TICKS * i) {
        assert env.makesDirs(t + HOOK_TICKS * (i + 1));
      }
    }
    if forall i :: 0 <= i < n - 1 ==> env.makesDirs(t + HOOK_TICKS + HOOK_TICKS * i) {
      forall i | 0 <= i < n ensures env.makesDirs(t + HOOK_TICKS * i) {
        if i > 0 {
          assert env.makesDirs(t + HOOK_TICKS + HOOK_TICKS * (i - 1));
        }
      }
    }
  }

  /** Every operation: Ok carries the record just persisted and published; an error says which. */
  lemma ReturnsWhatItPublished(req: Request, dev: Device, env: Env, s: SlotState)
    ensures var run := Whole(req, dev, env, s);
      run.outcome.Returned? ==> |run.writes| > 0 && run.outcome.state == After(s, run.writes)
  {
    match req
    case AcquireLease(_, _, _) =>
    case ReleaseLease =>
    case Teardown(owner) => HooksReturn([TEARDOWN], owner, env, 0, s);
    case Start(owner) => BootedReturns(StartHooks(dev), owner, dev, env, 0, s);
    case Restart(owner) => BootedReturns(StartHooks(dev), owner, dev, env, 0, s);
    case Command(owner) => BootedReturns([EXECUTE_COMMAND], owner, dev, env, 1, s);
  }

  lemma {:induction false} HooksReturn(hooks: seq<HookSpec>, owner: string, env: Env, t: nat, s: SlotState)
    requires hooks != []
    ensures var run := RunHooks(hooks, owner, env, t, s);
      run.outcome.Returned? ==> |run.writes| > 0 && run.outcome.state == After(s, run.writes)
  {
    HookLayers(hooks, owner, env, t, s);
    hide RunHooks;
    if |hooks| > 1 {
      var s1 := Entered(s, hooks[0].status, hooks[0].phase, env.now(t + 1));
      HooksReturn(hooks[1..], owner, env, t + HOOK_TICKS, Applied(hooks[0], env.hook(t + 2), env.now(t + 3), s1).state);
    }
  }

  lemma BootedReturns(hooks: seq<HookSpec>, owner: string, dev: Device, env: Env, t: nat, s: SlotState)
    requires hooks != []
    ensures var run := RunBooted(hooks, owner, dev, env, t, s);
      run.outcome.Returned? ==> |run.writes| > 0 && run.outcome.state == After(s, run.writes)
  {
    HooksReturn(hooks, owner, env, t + 1, s);
    if LeaseRefusal(s, owner).None? {
      HooksReturn(hooks, owner, env, t + 4, Entered(s, BootingSimulator, BootSimulator, env.now(t + 1)));
    }
  }

  /** An operation by anyone but the lease owner writes nothing, and neither does anyone when there is no lease. */
  lemma StrangersWriteNothing(req: Request, dev: Device, env: Env, s: SlotState)
    requires req.Start? || req.Restart? || req.Teardown? || req.Command?
    requires LeaseRefusal(s, req.owner).Some?
    ensures Whole(req, dev, env, s).writes == [] && Whole(req, dev, env, s).outcome.Errored?
  {
    HookLayers(Hooks(req, dev), req.owner, env, 0, s);
    HookLayers(Hooks(req, dev), req.owner, env, 1, s);
    hide RunHooks;
  }

  /** Everything an operation writes carries the address of the record it found. */
  lemma WholeKeepsKey(req: Request, dev: Device, env: Env, s: SlotState)
    ensures forall e <- Whole(req, dev, env, s).writes :: e.state.Key() == s.Key()
  {
    match req
    case AcquireLease(_, _, _) =>
    case ReleaseLease =>
    case Teardown(owner) => HooksKeepKey([TEARDOWN], owner, env, 0, s);
    case Start(owner) => BootedKeepsKey(StartHooks(dev), owner, dev, env, 0, s);
    case Restart(owner) => BootedKeepsKey(StartHooks(dev), owner, dev, env, 0, s);
    case Command(owner) => BootedKeepsKey([EXECUTE_COMMAND], owner, dev, env, 1, s);
  }

  lemma BootedKeepsKey(hooks: seq<HookSpec>, owner: string, dev: Device, env: Env, t: nat, s: SlotState)
    requires hooks != []
    ensures forall e <- RunBooted(hooks, owner, dev, env, t, s).writes :: e.state.Key() == s.Key()
  {
    HooksKeepKey(hooks, owner, env, t + 1, s);
    HooksKeepKey(hooks, owner, env, t + 4, Entered(s, BootingSimulator, BootSimulator, env.now(t + 1)));
    hide RunHooks;
  }

  lemma {:induction false} HooksKeepKey(hooks: seq<HookSpec>, owner: string, env: Env, t: nat, s: SlotState)
    requires hooks != []
    ensures forall e <- RunHooks(hooks, owner, env, t, s).writes :: e.state.Key() == s.Key()
  {
    HookLayers(hooks, owner, env, t, s);
    hide RunHooks;
    if |hooks| > 1 {
      var s1 := Entered(s, hooks[0].status, hooks[0].phase, env.now(t + 1));
      var e := Applied(hooks[0], env.hook(t + 2), env.now(t + 3), s1);
      HooksKeepKey(hooks[1..], owner, env, t + HOOK_TICKS, e.state);
    }
  }
}
