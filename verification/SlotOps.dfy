/**
 One operation on one slot, twice: as the atomic whole-operation semantics
 (Whole: the events the operation publishes, in order, and what it returns) and as
 the program points of the code between which other operations may run (Loc).
 Rest reads the whole-operation semantics from the middle; the lemmas at the end
 say that one micro-step peels exactly one layer off Rest.
*/
module SlotOps {
  import opened Basics
  import opened SlotModel

  /**
   Every answer the outside world gives one operation: clock, simulator, directory
   creation and hook runner, indexed by how many program points the operation has
   passed. An arbitrary Env therefore stands for arbitrary answers.
  */
  datatype Env = Env(
    now: nat -> Time,
    inspect: nat -> Probe,
    boots: nat -> bool,
    makesDirs: nat -> bool,
    hook: nat -> HookReply)

  datatype Run = Run(writes: seq<Event>, outcome: Outcome)

  /** The record after a list of writes that started from s. */
  function After(s: SlotState, writes: seq<Event>): SlotState {
    if |writes| == 0 then s else writes[|writes| - 1].state
  }

  function Then(e: Event, r: Run): Run {
    Run([e] + r.writes, r.outcome)
  }

  // ----- the whole operation -----

  function RunLease(req: Request, env: Env, t: nat, s: SlotState): Run
    requires req.AcquireLease?
  {
    match AcquireRefusal(s, req.owner)
    case Some(why) => Run([], Errored(why))
    case None =>
      var s' := Leased(s, req.owner, req.reason, req.expiresAt, env.now(t));
      Run([Event("lease_acquired", s')], Returned(s'))
  }

  function RunUnlease(env: Env, t: nat, s: SlotState): Run {
    var s' := Unleased(s, env.now(t));
    Run([Event("lease_released", s')], Returned(s'))
  }

  /** The reply of one hook is applied: Ok keeps the sequence going, and so does a failed hook. */
  function Applied(h: HookSpec, reply: HookReply, now: Time, s: SlotState): Event {
    match reply
    case HookOk(result) => Event("phase_finished", Succeeded(s, result, h.success, now))
    case HookErr(message) => Event("error", HookFailed(s, h.phase, message, now))
  }

  /** start as a fold over its hooks; the last applied reply is what the caller gets. */
  function RunHooks(hooks: seq<HookSpec>, owner: string, env: Env, t: nat, s: SlotState): Run
    requires hooks != []
    decreases |hooks|, 2
  {
    if !env.makesDirs(t) then Run([], Errored(DirectoryError))
    else RunPrepared(hooks, owner, env, t + 1, s)
  }

  function RunPrepared(hooks: seq<HookSpec>, owner: string, env: Env, t: nat, s: SlotState): Run
    requires hooks != []
    decreases |hooks|, 1
  {
    match LeaseRefusal(s, owner)
    case Some(why) => Run([], Errored(why))
    case None =>
      var s1 := Entered(s, hooks[0].status, hooks[0].phase, env.now(t));
      Then(Event("phase_started", s1), RunReply(hooks, env.hook(t + 1), owner, env, t + 2, s1))
  }

  function RunReply(hooks: seq<HookSpec>, reply: HookReply, owner: string, env: Env, t: nat, s: SlotState): Run
    requires hooks != []
    decreases |hooks|, 0
  {
    var e := Applied(hooks[0], reply, env.now(t), s);
    if |hooks| == 1 then Run([e], Returned(e.state))
    else Then(e, RunHooks(hooks[1..], owner, env, t + 1, e.state))
  }

  function NotBootedMessage(dev: Device): string {
    "simulator " + dev.deviceId + " did not report booted after boot"
  }

  /** ensure_simulator_ready, then the hooks. */
  function RunBooted(hooks: seq<HookSpec>, owner: string, dev: Device, env: Env, t: nat, s: SlotState): Run
    requires hooks != []
  {
    match env.inspect(t)
    case ProbeError => Run([], Errored(SimulatorError))
    case Booted => RunHooks(hooks, owner, env, t + 1, s)
    case NotBooted => RunMark(hooks, owner, dev, env, t + 1, s)
  }

  function RunMark(hooks: seq<HookSpec>, owner: string, dev: Device, env: Env, t: nat, s: SlotState): Run
    requires hooks != []
  {
    match LeaseRefusal(s, owner)
    case Some(why) => Run([], Errored(why))
    case None =>
      var s1 := Entered(s, BootingSimulator, BootSimulator, env.now(t));
      Then(Event("phase_started", s1), RunBoot(hooks, owner, dev, env, t + 1, s1))
  }

  /** A boot error leaves the slot in BootingSimulator. */
  function RunBoot(hooks: seq<HookSpec>, owner: string, dev: Device, env: Env, t: nat, s: SlotState): Run
    requires hooks != []
  {
    if !env.boots(t) then Run([], Errored(BootError))
    else RunVerify(hooks, owner, dev, env, t + 1, s)
  }

  function RunVerify(hooks: seq<HookSpec>, owner: string, dev: Device, env: Env, t: nat, s: SlotState): Run
    requires hooks != []
  {
    match env.inspect(t)
    case ProbeError => Run([], Errored(SimulatorError))
    case Booted => RunHooks(hooks, owner, env, t + 1, s)
    case NotBooted => RunUnconfirmed(dev, env, t + 1, s)
  }

  function RunUnconfirmed(dev: Device, env: Env, t: nat, s: SlotState): Run {
    Run([Event("error", HookFailed(s, BootSimulator, NotBootedMessage(dev), env.now(t)))],
        Errored(BootUnconfirmed))
  }

  function RunCommand(hooks: seq<HookSpec>, owner: string, dev: Device, env: Env, t: nat, s: SlotState): Run
    requires hooks != []
  {
    match LeaseRefusal(s, owner)
    case Some(why) => Run([], Errored(why))
    case None => RunBooted(hooks, owner, dev, env, t + 1, s)
  }

  /** A whole operation, run with no other operation in between. */
  function Whole(req: Request, dev: Device, env: Env, s: SlotState): Run {
    match req
    case AcquireLease(_, _, _) => RunLease(req, env, 0, s)
    case ReleaseLease => RunUnlease(env, 0, s)
    case Start(owner) => RunBooted(StartHooks(dev), owner, dev, env, 0, s)
    case Restart(owner) => RunBooted(StartHooks(dev), owner, dev, env, 0, s)
    case Teardown(owner) => RunHooks([TEARDOWN], owner, env, 0, s)
    case Command(owner) => RunCommand([EXECUTE_COMMAND], owner, dev, env, 0, s)
  }

  // ----- program points -----

  datatype Loc =
    | TakeLease | DropLease | FirstCheck
    | Inspect | MarkBooting | Boot | Verify | Unconfirmed
    | MakeDirs(i: nat) | Prepare(i: nat) | AwaitHook(i: nat) | Apply(i: nat, reply: HookReply)
    | Leaving(outcome: Outcome)

  /** Program points that take the slots lock, rewrite the record, persist and publish it. */
  predicate IsSection(loc: Loc) {
    loc.TakeLease? || loc.DropLease? || loc.MarkBooting? || loc.Unconfirmed? || loc.Prepare? || loc.Apply?
  }

  /** Program points that ask the outside world and touch no shared state. */
  predicate IsQuestion(loc: Loc) {
    loc.Inspect? || loc.Boot? || loc.Verify? || loc.MakeDirs? || loc.AwaitHook?
  }

  /** Which program points belong to which request. */
  predicate Fits(req: Request, dev: Device, loc: Loc) {
    match loc
    case TakeLease => req.AcquireLease?
    case DropLease => req.ReleaseLease?
    case FirstCheck => req.Command?
    case Inspect => req.Start? || req.Restart? || req.Command?
    case MarkBooting => req.Start? || req.Restart? || req.Command?
    case Boot => req.Start? || req.Restart? || req.Command?
    case Verify => req.Start? || req.Restart? || req.Command?
    case Unconfirmed => req.Start? || req.Restart? || req.Command?
    case MakeDirs(i) => i < |Hooks(req, dev)|
    case Prepare(i) => i < |Hooks(req, dev)|
    case AwaitHook(i) => i < |Hooks(req, dev)|
    case Apply(i, _) => i < |Hooks(req, dev)|
    case Leaving(_) => true
  }

  function EntryLoc(req: Request): Loc {
    match req
    case AcquireLease(_, _, _) => TakeLease
    case ReleaseLease => DropLease
    case Start(_) => Inspect
    case Restart(_) => Inspect
    case Teardown(_) => MakeDirs(0)
    case Command(_) => FirstCheck
  }

  /** Why the section or check at loc turns the operation away, if it does. */
  function Refusal(req: Request, dev: Device, loc: Loc, s: SlotState): Option<Why>
    requires Fits(req, dev, loc)
  {
    match loc
    case TakeLease => AcquireRefusal(s, req.owner)
    case FirstCheck => LeaseRefusal(s, req.owner)
    case MarkBooting => LeaseRefusal(s, req.owner)
    case Prepare(_) => LeaseRefusal(s, req.owner)
    case _ => None
  }

  /** What the section at loc writes. */
  function Write(req: Request, dev: Device, env: Env, loc: Loc, t: nat, s: SlotState): Event
    requires Fits(req, dev, loc) && IsSection(loc)
  {
    match loc
    case TakeLease => Event("lease_acquired", Leased(s, req.owner, req.reason, req.expiresAt, env.now(t)))
    case DropLease => Event("lease_released", Unleased(s, env.now(t)))
    case MarkBooting => Event("phase_started", Entered(s, BootingSimulator, BootSimulator, env.now(t)))
    case Unconfirmed => Event("error", HookFailed(s, BootSimulator, NotBootedMessage(dev), env.now(t)))
    case Prepare(i) =>
      var h := Hooks(req, dev)[i];
      Event("phase_started", Entered(s, h.status, h.phase, env.now(t)))
    case Apply(i, reply) => Applied(Hooks(req, dev)[i], reply, env.now(t), s)
  }

  function AfterWrite(req: Request, dev: Device, loc: Loc, written: SlotState): Loc
    requires Fits(req, dev, loc) && IsSection(loc)
  {
    match loc
    case TakeLease => Leaving(Returned(written))
    case DropLease => Leaving(Returned(written))
    case MarkBooting => Boot
    case Unconfirmed => Leaving(Errored(BootUnconfirmed))
    case Prepare(i) => AwaitHook(i)
    case Apply(i, _) =>
      if i + 1 < |Hooks(req, dev)| then MakeDirs(i + 1) else Leaving(Returned(written))
  }

  function AfterAnswer(loc: Loc, env: Env, t: nat): Loc
    requires IsQuestion(loc)
  {
    match loc
    case Inspect => (match env.inspect(t)
                     case ProbeError => Leaving(Errored(SimulatorError))
                     case Booted => MakeDirs(0)
                     case NotBooted => MarkBooting)
    case Boot => if env.boots(t) then Verify else Leaving(Errored(BootError))
    case Verify => (match env.inspect(t)
                    case ProbeError => Leaving(Errored(SimulatorError))
                    case Booted => MakeDirs(0)
                    case NotBooted => Unconfirmed)
    case MakeDirs(i) => if env.makesDirs(t) then Prepare(i) else Leaving(Errored(DirectoryError))
    case AwaitHook(i) => Apply(i, env.hook(t))
  }

  // ----- the whole-operation semantics, read from the middle -----

  function Rest(req: Request, dev: Device, env: Env, loc: Loc, t: nat, s: SlotState): Run
    requires Fits(req, dev, loc)
  {
    var hooks := Hooks(req, dev);
    match loc
    case TakeLease => RunLease(req, env, t, s)
    case DropLease => RunUnlease(env, t, s)
    case FirstCheck => RunCommand(hooks, req.owner, dev, env, t, s)
    case Inspect => RunBooted(hooks, req.owner, dev, env, t, s)
    case MarkBooting => RunMark(hooks, req.owner, dev, env, t, s)
    case Boot => RunBoot(hooks, req.owner, dev, env, t, s)
    case Verify => RunVerify(hooks, req.owner, dev, env, t, s)
    case Unconfirmed => RunUnconfirmed(dev, env, t, s)
    case MakeDirs(i) => RunHooks(hooks[i..], req.owner, env, t, s)
    case Prepare(i) => RunPrepared(hooks[i..], req.owner, env, t, s)
    case AwaitHook(i) => RunReply(hooks[i..], env.hook(t), req.owner, env, t + 1, s)
    case Apply(i, reply) => RunReply(hooks[i..], reply, req.owner, env, t, s)
    case Leaving(outcome) => Run([], outcome)
  }

  lemma EntryIsWhole(req: Request, dev: Device, env: Env, s: SlotState)
    ensures Fits(req, dev, EntryLoc(req))
    ensures Rest(req, dev, env, EntryLoc(req), 0, s) == Whole(req, dev, env, s)
  {
    assert [TEARDOWN][0..] == [TEARDOWN];
  }

  lemma AnswerKeepsRest(req: Request, dev: Device, env: Env, loc: Loc, t: nat, s: SlotState)
    requires Fits(req, dev, loc) && IsQuestion(loc)
    ensures Fits(req, dev, AfterAnswer(loc, env, t))
    ensures Rest(req, dev, env, AfterAnswer(loc, env, t), t + 1, s) == Rest(req, dev, env, loc, t, s)
  {
    var hooks := Hooks(req, dev);
    assert hooks[0..] == hooks;
  }

  lemma CheckKeepsRest(req: Request, dev: Device, env: Env, t: nat, s: SlotState)
    requires req.Command? && LeaseRefusal(s, req.owner).None?
    ensures Rest(req, dev, env, Inspect, t + 1, s) == Rest(req, dev, env, FirstCheck, t, s)
  {
  }

  lemma RefusalEndsRest(req: Request, dev: Device, env: Env, loc: Loc, t: nat, s: SlotState)
    requires Fits(req, dev, loc) && Refusal(req, dev, loc, s).Some?
    ensures Rest(req, dev, env, loc, t, s) == Run([], Errored(Refusal(req, dev, loc, s).value))
  {
  }

  lemma WritePeelsRest(req: Request, dev: Device, env: Env, loc: Loc, t: nat, s: SlotState)
    requires Fits(req, dev, loc) && IsSection(loc) && Refusal(req, dev, loc, s).None?
    ensures var e := Write(req, dev, env, loc, t, s);
            var next := AfterWrite(req, dev, loc, e.state);
            && Fits(req, dev, next)
            && Rest(req, dev, env, loc, t, s) == Then(e, Rest(req, dev, env, next, t + 1, e.state))
  {
    var hooks := Hooks(req, dev);
    if loc.Apply? {
      assert hooks[loc.i..][1..] == hooks[loc.i + 1..];
    }
  }
}
