/** The two locks never block each other for good, and no operation runs forever. */
module SlotProgress {
  import opened Basics
  import opened SlotModel
  import opened SlotOps
  import opened SlotProtocol
  import opened SlotInvariant
  import opened SlotSteps
  import opened SlotTheorems

  /** A step by which some operation gets on with its work; giving up is one only for an unknown device. */
  predicate Advances(cfg: Config, w: World, l: Label) {
    match l
    case Spawn(_, _, _, _) => false
    case Abort(_) => false
    case CrashAndBoot(_, _) => false
    case Dismiss(t) => t in w.threads && w.threads[t].key !in cfg
    case _ => true
  }

  /** What thread t can do next when it does not have to wait for the lock over the records. */
  lemma NextOf(cfg: Config, w: World, t: Tid) returns (l: Label)
    requires Shape(cfg, w) && t in w.threads && ThreadInv(cfg, w, t) && w.threads[t].pc.At?
    requires w.lock.None? || w.lock == Some(t)
    ensures Enabled(cfg, w, l) && Advances(cfg, w, l)
  {
    hide Standing, LeaseMove, Refusal;
    var th := w.threads[t];
    assert Placed(cfg, w, t);
    match th.progress
    case Outside =>
      if th.pc.loc.Leaving? {
        l := Release(t);
      } else if IsQuestion(th.pc.loc) {
        l := Answer(t);
      } else {
        l := Enter(t);
      }
    case Locked =>
      if RefusalOf(cfg, w, t).Some? {
        l := Refuse(t);
      } else if th.pc.loc.FirstCheck? {
        l := Pass(t);
      } else {
        l := Mutate(t);
      }
    case Mutated(_, _) => l := Persist(t);
    case Persisted(_) => l := Unlock(t);
    case Unlocked(_) => l := Publish(t);
  }

  /** No deadlock: while any operation is in flight, some operation can get on. */
  lemma NoDeadlock(cfg: Config, ws: seq<World>, ls: seq<Label>, i: nat)
    requires IsRun(cfg, ws, ls) && i < |ws| && !Quiet(ws[i])
    ensures exists l :: Enabled(cfg, ws[i], l) && Advances(cfg, ws[i], l)
  {
    var w := ws[i];
    hide IsRun, Inv, SlotInv, ThreadInv, Shape, Enabled;
    RunKeepsInv(cfg, ws, ls, i);
    if w.lock.Some? {
      LockHolder(cfg, w);
      var l := NextOf(cfg, w, w.lock.value);
    } else {
      var t :| t in w.threads && (w.threads[t].pc.At? || w.threads[t].pc.Waiting?);
      var k := w.threads[t].key;
      ThreadHolds(cfg, w, t);
      if w.threads[t].pc.At? {
        var l := NextOf(cfg, w, t);
      } else if k in cfg {
        SlotHolds(cfg, w, k);
        HolderIsThread(k, cfg[k], View(w, k), w.threads);
        if w.guards[k].Some? {
          ThreadHolds(cfg, w, w.guards[k].value);
          var l := NextOf(cfg, w, w.guards[k].value);
        } else {
          MayAcquire(cfg, w, t);
        }
      } else {
        MayDismiss(cfg, w, t);
      }
    }
  }

  lemma LockHolder(cfg: Config, w: World)
    requires Inv(cfg, w) && w.lock.Some?
    ensures var t := w.lock.value;
      t in w.threads && w.threads[t].pc.At? && Shape(cfg, w) && ThreadInv(cfg, w, t)
  {
    hide SlotInv, Standing, Fits, LeaseMove;
  }

  lemma MayAcquire(cfg: Config, w: World, t: Tid)
    requires Shape(cfg, w) && t in w.threads && w.threads[t].pc.Waiting? && w.threads[t].key in cfg
    requires w.threads[t].key in w.guards && w.guards[w.threads[t].key].None?
    ensures Enabled(cfg, w, Acquire(t)) && Advances(cfg, w, Acquire(t))
  {
  }

  lemma MayDismiss(cfg: Config, w: World, t: Tid)
    requires t in w.threads && w.threads[t].pc.Waiting? && w.threads[t].key !in cfg
    ensures Enabled(cfg, w, Dismiss(t)) && Advances(cfg, w, Dismiss(t))
  {
  }

  // ----- every operation ends -----

  /** How many program points are left at most, for an operation of n hooks. */
  function Points(loc: Loc, n: nat): nat {
    match loc
    case TakeLease => 1
    case DropLease => 1
    case FirstCheck => 4 * n + 6
    case Inspect => 4 * n + 5
    case MarkBooting => 4 * n + 4
    case Boot => 4 * n + 3
    case Verify => 4 * n + 2
    case Unconfirmed => 1
    case MakeDirs(i) => if i < n then 4 * (n - i) else 0
    case Prepare(i) => if i < n then 4 * (n - i) - 1 else 0
    case AwaitHook(i) => if i < n then 4 * (n - i) - 2 else 0
    case Apply(i, _) => if i < n then 4 * (n - i) - 3 else 0
    case Leaving(_) => 0
  }

  /** A bound on the micro-steps an operation still takes. */
  function Work(cfg: Config, th: Thread): nat {
    var n := if th.key in cfg then |Hooks(th.req, cfg[th.key])| else 0;
    match th.pc
    case Waiting => 6 * (4 * n + 7) + 5
    case At(loc) =>
      6 * Points(loc, n) + (match th.progress
                            case Outside => 5
                            case Locked => 4
                            case Mutated(_, _) => 8
                            case Persisted(_) => 7
                            case Unlocked(_) => 6)
    case _ => 0
  }

  /** The operation a step belongs to; a crash belongs to none. */
  function Actor(l: Label): Option<Tid> {
    if l.CrashAndBoot? then None else Some(l.tid)
  }

  lemma AnswerPoints(req: Request, dev: Device, env: Env, loc: Loc, t: nat)
    requires Fits(req, dev, loc) && IsQuestion(loc)
    ensures Points(AfterAnswer(loc, env, t), |Hooks(req, dev)|) < Points(loc, |Hooks(req, dev)|)
  {
  }

  lemma WritePoints(req: Request, dev: Device, loc: Loc, s: SlotState)
    requires Fits(req, dev, loc) && IsSection(loc)
    ensures Points(AfterWrite(req, dev, loc, s), |Hooks(req, dev)|) < Points(loc, |Hooks(req, dev)|)
  {
  }

  /** Every step of an operation uses up some of its work and none of anyone else's. */
  lemma StepUsesWork(cfg: Config, w: World, l: Label, t: Tid)
    requires Enabled(cfg, w, l) && !l.CrashAndBoot? && t in w.threads
    ensures var w' := Step(cfg, w, l);
      && t in w'.threads
      && (Actor(l) == Some(t) ==> Work(cfg, w'.threads[t]) < Work(cfg, w.threads[t]))
      && (Actor(l) != Some(t) ==> w'.threads[t] == w.threads[t])
  {
    if Actor(l) == Some(t) {
      OwnStepUsesWork(cfg, w, l, t);
    } else {
      hide Write, AfterWrite, AfterAnswer, Refusal, RefusalOf, Fits;
    }
  }

  lemma OwnStepUsesWork(cfg: Config, w: World, l: Label, t: Tid)
    requires Enabled(cfg, w, l) && !l.CrashAndBoot? && t in w.threads && Actor(l) == Some(t)
    ensures t in Step(cfg, w, l).threads
    ensures Work(cfg, Step(cfg, w, l).threads[t]) < Work(cfg, w.threads[t])
  {
    var th := w.threads[t];
    if l.Answer? {
      AnswerPoints(th.req, cfg[th.key], th.env, th.pc.loc, th.tick);
    } else if l.Mutate? {
      MutateUsesWork(cfg, w, t);
    } else if l.Acquire? {
      EntryPoints(th.req, |Hooks(th.req, cfg[th.key])|);
    }
    hide Write, AfterWrite, AfterAnswer, Refusal, RefusalOf, Hooks, EntryLoc;
  }

  lemma EntryPoints(req: Request, n: nat)
    ensures Points(EntryLoc(req), n) <= 4 * n + 6
  {
  }

  lemma MutateUsesWork(cfg: Config, w: World, t: Tid)
    requires Enabled(cfg, w, Mutate(t))
    ensures t in Mutating(cfg, w, t).threads
    ensures Work(cfg, Mutating(cfg, w, t).threads[t]) < Work(cfg, w.threads[t])
  {
    var th := w.threads[t];
    var dev := cfg[th.key];
    WritePoints(th.req, dev, th.pc.loc, Write(th.req, dev, th.env, th.pc.loc, th.tick, w.slots[th.key]).state);
    hide Write, AfterWrite, Refusal, RefusalOf, Hooks;
  }

  /** How many of the steps from i to j belong to t. */
  function OwnSteps(ls: seq<Label>, i: nat, j: nat, t: Tid): nat
    requires i <= j <= |ls|
    decreases j
  {
    if i == j then 0 else OwnSteps(ls, i, j - 1, t) + (if Actor(ls[j - 1]) == Some(t) then 1 else 0)
  }

  /** No operation runs forever: whatever the interleaving, its steps are bounded by the work it had left. */
  lemma {:induction false} OperationsEnd(cfg: Config, ws: seq<World>, ls: seq<Label>, i: nat, j: nat, t: Tid)
    requires IsRun(cfg, ws, ls) && i <= j < |ws| && t in ws[i].threads
    requires forall m :: i <= m < j ==> !ls[m].CrashAndBoot?
    ensures t in ws[j].threads
    ensures OwnSteps(ls, i, j, t) + Work(cfg, ws[j].threads[t]) <= Work(cfg, ws[i].threads[t])
    decreases j
  {
    hide Step, Enabled, Work;
    if i < j {
      OperationsEnd(cfg, ws, ls, i, j - 1, t);
      StepUsesWork(cfg, ws[j - 1], ls[j - 1], t);
    }
  }
}
