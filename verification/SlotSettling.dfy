/** In which state an operation leaves its slot, for every answer of the outside world. */
module SlotSettling {
  import opened Basics
  import opened SlotModel
  import opened SlotOps
  import opened SlotLifecycle

  predicate DirsGranted(env: Env, t: nat, n: nat) {
    forall i: nat :: i < n ==> env.makesDirs(t + HOOK_TICKS * i)
  }

  /** Of n hooks from t on, hook i is the first whose directories cannot be made. */
  predicate StopsAt(env: Env, t: nat, n: nat, i: nat) {
    i < n && !env.makesDirs(t + HOOK_TICKS * i) && DirsGranted(env, t, i)
  }

  /** The reply of hook i. */
  function ReplyOf(env: Env, t: nat, i: nat): HookReply {
    env.hook(t + HOOK_TICKS * i + 2)
  }

  /** They stop at hook i with the slot under way: it was before them, or the hook before i succeeded. */
  predicate UnderWayAt(env: Env, t: nat, n: nat, before: bool, i: nat) {
    StopsAt(env, t, n, i) && (if i == 0 then before else ReplyOf(env, t, i - 1).HookOk?)
  }

  predicate StopsUnderWay(env: Env, t: nat, n: nat, before: bool) {
    exists i: nat :: i < n && UnderWayAt(env, t, n, before, i)
  }

  /** The same, from the second hook on. */
  lemma StopsLater(env: Env, t: nat, n: nat, before: bool)
    requires n > 0
    ensures StopsUnderWay(env, t, n, before) <==>
      if env.makesDirs(t) then StopsUnderWay(env, t + HOOK_TICKS, n - 1, ReplyOf(env, t, 0).HookOk?) else before
  {
    assert env.makesDirs(t) <==> env.makesDirs(t + HOOK_TICKS * 0);
    if env.makesDirs(t) {
      assert !StopsAt(env, t, n, 0);
      hide StopsAt, ReplyOf;
      var t', n', success := t + HOOK_TICKS, n - 1, ReplyOf(env, t, 0).HookOk?;
      if i: nat :| i < n && UnderWayAt(env, t, n, before, i) {
        StopShifts(env, t, n, i - 1);
        assert UnderWayAt(env, t', n', success, i - 1);
      }
      if i: nat :| i < n' && UnderWayAt(env, t', n', success, i) {
        StopShifts(env, t, n, i);
        assert UnderWayAt(env, t, n, before, i + 1);
      }
    } else {
      assert before ==> UnderWayAt(env, t, n, before, 0);
      assert forall i: nat :: 0 < i < n ==> !StopsAt(env, t, n, i);
    }
  }

  lemma StopShifts(env: Env, t: nat, n: nat, i: nat)
    requires i < n - 1 && env.makesDirs(t)
    ensures StopsAt(env, t, n, i + 1) <==> StopsAt(env, t + HOOK_TICKS, n - 1, i)
    ensures i > 0 ==> ReplyOf(env, t, i) == ReplyOf(env, t + HOOK_TICKS, i - 1)
  {
    GrantsShift(env, t, i + 1);
    assert t + HOOK_TICKS * (i + 1) == t + HOOK_TICKS + HOOK_TICKS * i;
    assert i > 0 ==> t + HOOK_TICKS * i == t + HOOK_TICKS + HOOK_TICKS * (i - 1);
  }

  lemma GrantsShift(env: Env, t: nat, n: nat)
    requires n > 0 && env.makesDirs(t)
    ensures DirsGranted(env, t, n) <==> DirsGranted(env, t + HOOK_TICKS, n - 1)
  {
    if n > 1 {
      DirsShift(env, t, n);
    } else {
      assert env.makesDirs(t + HOOK_TICKS * 0);
    }
  }

  /** All but the last hook leave the slot under way when they succeed; the last one settles it. */
  predicate SettleLast(hooks: seq<HookSpec>) {
    && hooks != [] && !MidOperation(hooks[|hooks| - 1].success)
    && forall i :: 0 <= i < |hooks| - 1 ==> MidOperation(hooks[i].success)
  }

  lemma {:induction false} HooksSettle(hooks: seq<HookSpec>, owner: string, env: Env, t: nat, s: SlotState)
    requires SettleLast(hooks) && LeaseRefusal(s, owner).None?
    ensures MidOperation(After(s, RunHooks(hooks, owner, env, t, s).writes).status)
      <==> StopsUnderWay(env, t, |hooks|, MidOperation(s.status))
    ensures After(s, RunHooks(hooks, owner, env, t, s).writes).status.Ready? ==>
      RunHooks(hooks, owner, env, t, s).outcome.Returned? || RunHooks(hooks, owner, env, t, s).writes == []
  {
    HookLayers(hooks, owner, env, t, s);
    StopsLater(env, t, |hooks|, MidOperation(s.status));
    var s1 := Entered(s, hooks[0].status, hooks[0].phase, env.now(t + 1));
    var e := Applied(hooks[0], env.hook(t + 2), env.now(t + 3), s1);
    EnteredKeepsLease(s, owner, hooks[0], env.now(t + 1));
    AppliedReply(hooks[0], env.hook(t + 2), env.now(t + 3), s1, owner);
    hide RunHooks, LeaseRefusal, Entered, Applied, Tracked;
    if env.makesDirs(t) {
      if |hooks| == 1 {
        assert !StopsUnderWay(env, t + HOOK_TICKS, 0, ReplyOf(env, t, 0).HookOk?);
      } else {
        assert ReplyOf(env, t, 0) == env.hook(t + 2);
        HooksSettle(hooks[1..], owner, env, t + HOOK_TICKS, e.state);
      }
    }
  }

  lemma StartSettlesLast(dev: Device)
    ensures SettleLast(StartHooks(dev)) && SettleLast([TEARDOWN]) && SettleLast([EXECUTE_COMMAND])
    ensures StartHooks(dev)[|StartHooks(dev)| - 1].success.Ready?
  {
  }

  // ----- with the boot before the hooks -----

  /** When the hooks begin, if the simulator is or gets booted. */
  function HooksFrom(env: Env, t: nat): Option<nat> {
    match env.inspect(t)
    case ProbeError => None
    case Booted => Some(t + 1)
    case NotBooted => if env.boots(t + 2) && env.inspect(t + 3).Booted? then Some(t + 4) else None
  }

  /**
   What leaves the slot under way: the boot fails; the second look at the simulator fails; a directory is
   refused right after a confirmed boot; a directory is refused after a hook that succeeded; or nothing was
   written and the slot was under way before.
  */
  predicate BootUnderWay(env: Env, t: nat, n: nat, before: bool) {
    match env.inspect(t)
    case ProbeError => before
    case Booted => StopsUnderWay(env, t + 1, n, before)
    case NotBooted =>
      || !env.boots(t + 2)
      || env.inspect(t + 3).ProbeError?
      || (env.inspect(t + 3).Booted? && StopsUnderWay(env, t + 4, n, true))
  }

  function Booting(env: Env, t: nat, s: SlotState): SlotState {
    Entered(s, BootingSimulator, BootSimulator, env.now(t + 1))
  }

  function Marked(env: Env, t: nat, s: SlotState): Event {
    Event("phase_started", Booting(env, t, s))
  }

  /** The boot part, unfolded. */
  lemma BootLayers(hooks: seq<HookSpec>, owner: string, dev: Device, env: Env, t: nat, s: SlotState)
    requires hooks != [] && LeaseRefusal(s, owner).None?
    ensures RunBooted(hooks, owner, dev, env, t, s) ==
      match env.inspect(t)
      case ProbeError => Run([], Errored(SimulatorError))
      case Booted => RunHooks(hooks, owner, env, t + 1, s)
      case NotBooted =>
        var mark := Marked(env, t, s);
        if !env.boots(t + 2) then Run([mark], Errored(BootError))
        else match env.inspect(t + 3)
          case ProbeError => Run([mark], Errored(SimulatorError))
          case Booted => Then(mark, RunHooks(hooks, owner, env, t + 4, mark.state))
          case NotBooted =>
            Run([mark, Event("error", HookFailed(mark.state, BootSimulator, NotBootedMessage(dev), env.now(t + 4)))],
                Errored(BootUnconfirmed))
  {
  }

  lemma BootingHolds(owner: string, env: Env, t: nat, s: SlotState)
    ensures LeaseRefusal(Booting(env, t, s), owner) == LeaseRefusal(s, owner)
    ensures MidOperation(Booting(env, t, s).status) && !Booting(env, t, s).status.Ready?
  {
  }

  lemma AfterThen(s: SlotState, mark: Event, run: Run)
    ensures After(s, Then(mark, run).writes) == After(mark.state, run.writes)
  {
  }

  lemma BootSettles(hooks: seq<HookSpec>, owner: string, dev: Device, env: Env, t: nat, s: SlotState)
    requires SettleLast(hooks) && LeaseRefusal(s, owner).None?
    ensures var run := RunBooted(hooks, owner, dev, env, t, s);
      && (MidOperation(After(s, run.writes).status) <==> BootUnderWay(env, t, |hooks|, MidOperation(s.status)))
      && (After(s, run.writes).status.Ready? ==> run.outcome.Returned? || run.writes == [])
  {
    var mark := Marked(env, t, s);
    BootLayers(hooks, owner, dev, env, t, s);
    BootingHolds(owner, env, t, s);
    hide RunBooted, RunHooks, StopsUnderWay, SettleLast, LeaseRefusal, Booting;
    HooksSettle(hooks, owner, env, t + 1, s);
    HooksSettle(hooks, owner, env, t + 4, mark.state);
    AfterThen(s, mark, RunHooks(hooks, owner, env, t + 4, mark.state));
  }

  /** How start, restart and command end for the lease owner. */
  lemma BootEnds(hooks: seq<HookSpec>, owner: string, dev: Device, env: Env, t: nat, s: SlotState)
    requires hooks != [] && LeaseRefusal(s, owner).None?
    ensures var run, from, n := RunBooted(hooks, owner, dev, env, t, s), HooksFrom(env, t), |hooks|;
      && (run.outcome.Returned? <==> from.Some? && DirsGranted(env, from.value, n))
      && (run.outcome.Returned? ==>
            run.outcome.state.status ==
              if ReplyOf(env, from.value, n - 1).HookOk? then hooks[n - 1].success else Failed)
  {
    var mark := Marked(env, t, s);
    BootLayers(hooks, owner, dev, env, t, s);
    BootingHolds(owner, env, t, s);
    hide RunBooted, RunHooks, LeaseRefusal, Booting;
    HooksEnd(hooks, owner, env, t + 1, s);
    HooksEnd(hooks, owner, env, t + 4, mark.state);
    hide DirsGranted, ReplyOf;
  }

  lemma HooksEnd(hooks: seq<HookSpec>, owner: string, env: Env, t: nat, s: SlotState)
    requires hooks != [] && LeaseRefusal(s, owner).None?
    ensures var run, n := RunHooks(hooks, owner, env, t, s), |hooks|;
      && (run.outcome.Returned? <==> DirsGranted(env, t, n))
      && (run.outcome.Returned? ==>
            run.outcome.state.status == if ReplyOf(env, t, n - 1).HookOk? then hooks[n - 1].success else Failed)
  {
    HooksOutcome(hooks, owner, env, t, s);
    hide RunHooks, Tracked, After;
  }

  // ----- whole operations -----

  /** Whether a slot is under way, and whose lease it is: all that decides how it is left. */
  datatype Summary = Summary(underWay: bool, owner: Option<string>)

  function SummaryOf(s: SlotState): Summary {
    Summary(MidOperation(s.status), if s.lease.Some? then Some(s.lease.value.owner) else None)
  }

  /**
   What an operation makes of that. Leases come and go without touching the rest. The other operations do
   nothing for a stranger; for the owner the answers of the outside world decide.
  */
  function Left(req: Request, dev: Device, env: Env, m: Summary): Summary {
    match req
    case AcquireLease(owner, _, _) => if m.owner.None? then m.(owner := Some(owner)) else m
    case ReleaseLease => m.(owner := None)
    case Teardown(owner) => if m.owner == Some(owner) then m.(underWay := StopsUnderWay(env, 0, 1, m.underWay)) else m
    case Command(owner) => if m.owner == Some(owner) then m.(underWay := BootUnderWay(env, 1, 1, m.underWay)) else m
    case _ =>
      if m.owner == Some(req.owner) then m.(underWay := BootUnderWay(env, 0, |StartHooks(dev)|, m.underWay)) else m
  }

  /** In which state an operation leaves its slot, for every request, every record and all answers. */
  lemma UnderWayExactly(req: Request, dev: Device, env: Env, s: SlotState)
    ensures SummaryOf(After(s, Whole(req, dev, env, s).writes)) == Left(req, dev, env, SummaryOf(s))
  {
    match req
    case AcquireLease(_, _, _) =>
    case ReleaseLease =>
    case Teardown(owner) => OwnedLeft(req, owner, dev, env, s);
    case Start(owner) => OwnedLeft(req, owner, dev, env, s);
    case Restart(owner) => OwnedLeft(req, owner, dev, env, s);
    case Command(owner) => OwnedLeft(req, owner, dev, env, s);
  }

  lemma OwnedLeft(req: Request, owner: string, dev: Device, env: Env, s: SlotState)
    requires (req.Start? || req.Restart? || req.Command? || req.Teardown?) && owner == req.owner
    ensures SummaryOf(After(s, Whole(req, dev, env, s).writes)) == Left(req, dev, env, SummaryOf(s))
  {
    StartSettlesLast(dev);
    OwnerPasses(s, owner);
    if LeaseRefusal(s, owner).None? {
      BootSettles(StartHooks(dev), owner, dev, env, 0, s);
      BootKeepsLease(StartHooks(dev), owner, dev, env, 0, s);
      BootSettles([EXECUTE_COMMAND], owner, dev, env, 1, s);
      BootKeepsLease([EXECUTE_COMMAND], owner, dev, env, 1, s);
      HooksSettle([TEARDOWN], owner, env, 0, s);
      HooksKeepLease([TEARDOWN], owner, env, 0, s);
    } else {
      StrangersWriteNothing(req, dev, env, s);
    }
    hide RunBooted, RunHooks, BootUnderWay, StopsUnderWay, LeaseRefusal, SettleLast, StartHooks;
  }

  lemma OwnerPasses(s: SlotState, owner: string)
    ensures LeaseRefusal(s, owner).None? <==> SummaryOf(s).owner == Some(owner)
  {
  }

  lemma HooksKeepLease(hooks: seq<HookSpec>, owner: string, env: Env, t: nat, s: SlotState)
    requires hooks != [] && LeaseRefusal(s, owner).None?
    ensures After(s, RunHooks(hooks, owner, env, t, s).writes).lease == s.lease
  {
    HooksOutcome(hooks, owner, env, t, s);
  }

  lemma BootKeepsLease(hooks: seq<HookSpec>, owner: string, dev: Device, env: Env, t: nat, s: SlotState)
    requires hooks != [] && LeaseRefusal(s, owner).None?
    ensures After(s, RunBooted(hooks, owner, dev, env, t, s).writes).lease == s.lease
  {
    var mark := Marked(env, t, s);
    BootLayers(hooks, owner, dev, env, t, s);
    BootingHolds(owner, env, t, s);
    hide RunBooted, RunHooks, LeaseRefusal;
    HooksKeepLease(hooks, owner, env, t + 1, s);
    HooksKeepLease(hooks, owner, env, t + 4, mark.state);
    AfterThen(s, mark, RunHooks(hooks, owner, env, t + 4, mark.state));
  }

  /**
   start, for the lease owner: it returns a record exactly when the simulator is or gets booted and every
   directory is granted, whatever the hooks answer; that record is Ready exactly when the last hook, the
   readiness check, succeeds, even if every hook before it failed, and Failed otherwise. The slot is Ready
   afterwards exactly then, or if it was and nothing was written. restart is the same.
  */
  lemma StartEndsAsLastHookSays(owner: string, dev: Device, env: Env, s: SlotState)
    requires LeaseRefusal(s, owner).None?
    ensures var run, from, n := Whole(Start(owner), dev, env, s), HooksFrom(env, 0), |StartHooks(dev)|;
      var ends := from.Some? && DirsGranted(env, from.value, n);
      && run == Whole(Restart(owner), dev, env, s)
      && (run.outcome.Returned? <==> ends)
      && (ends ==> run.outcome.state.status == if ReplyOf(env, from.value, n - 1).HookOk? then Ready else Failed)
      && (After(s, run.writes).status.Ready? <==>
            (ends && ReplyOf(env, from.value, n - 1).HookOk?) || (s.status.Ready? && run.writes == []))
  {
    var hooks := StartHooks(dev);
    StartSettlesLast(dev);
    BootSettles(hooks, owner, dev, env, 0, s);
    BootEnds(hooks, owner, dev, env, 0, s);
    ReturnsWhatItPublished(Start(owner), dev, env, s);
    assert Whole(Start(owner), dev, env, s) == RunBooted(hooks, owner, dev, env, 0, s);
    hide RunBooted, StartHooks, SettleLast, HooksFrom, BootUnderWay;
  }
}
