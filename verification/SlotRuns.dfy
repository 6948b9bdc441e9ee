/** In which state a slot is left over whole runs: the summary of its record is folded over its operations. */
module SlotRuns {
  import opened Basics
  import opened SlotModel
  import opened SlotOps
  import opened SlotProtocol
  import opened SlotInvariant
  import opened SlotSteps
  import opened SlotTheorems
  import opened SlotSettling

  /** What the operations make of a summary, one after the other; no record is looked at. */
  function LeftByAll(dev: Device, m: Summary, ids: seq<Tid>, threads: map<Tid, Thread>): Summary {
    if ids == [] then m
    else
      var before, t := LeftByAll(dev, m, ids[..|ids| - 1], threads), ids[|ids| - 1];
      if t in threads then Left(threads[t].req, dev, threads[t].env, before) else before
  }

  lemma {:induction false} SerialLeft(dev: Device, s: SlotState, ids: seq<Tid>, threads: map<Tid, Thread>)
    requires AllWritten(dev, s, ids, threads)
    ensures SummaryOf(After(s, SerialWrites(dev, s, ids, threads))) == LeftByAll(dev, SummaryOf(s), ids, threads)
  {
    hide Whole, AllWritten, Left, SummaryOf;
    if ids != [] {
      var front, t := ids[..|ids| - 1], ids[|ids| - 1];
      assert front + [t] == ids;
      AllWrittenFront(dev, s, front, t, threads);
      SerialLeft(dev, s, front, threads);
      var before, th := SerialWrites(dev, s, front, threads), threads[t];
      var writes := Whole(th.req, dev, th.env, After(s, before)).writes;
      assert writes[..|writes|] == writes;
      AfterConcat(s, before, writes);
      UnderWayExactly(th.req, dev, th.env, After(s, before));
    }
  }

  /** Who held the guard of a free slot and was not cancelled has finished, and has written all it writes. */
  lemma FinishedAt(k: SlotKey, dev: Device, v: SlotView, threads: map<Tid, Thread>, j: nat)
    requires SlotInv(k, dev, v, threads) && v.holder.None? && j < |v.ids|
    requires v.ids[j] in threads ==> !threads[v.ids[j]].pc.Aborted?
    ensures v.ids[j] in threads
    ensures WroteAll(dev, threads[v.ids[j]], After(v.base, SerialWrites(dev, v.base, v.ids[..j], threads)))
  {
    var before := After(v.base, SerialWrites(dev, v.base, v.ids[..j], threads));
    assert v.ids[j] in threads && Faithful(dev, threads[v.ids[j]], before);
    assert threads[v.ids[j]].pc.Finished?;
    hide SlotInv, Faithful, WroteAll;
    FinishedWroteAll(dev, threads[v.ids[j]], before);
  }

  lemma FreeSlotLeft(k: SlotKey, dev: Device, v: SlotView, threads: map<Tid, Thread>)
    requires SlotInv(k, dev, v, threads) && v.holder.None?
    requires forall t <- v.ids :: t in threads ==> !threads[t].pc.Aborted?
    ensures SummaryOf(v.slot) == LeftByAll(dev, SummaryOf(v.base), v.ids, threads)
  {
    assert v.slot == After(v.base, SerialWrites(dev, v.base, v.ids, threads));
    hide SlotInv, WroteAll, SummaryOf, LeftByAll, SerialWrites, After;
    forall j | 0 <= j < |v.ids|
      ensures v.ids[j] in threads
      ensures WroteAll(dev, threads[v.ids[j]], After(v.base, SerialWrites(dev, v.base, v.ids[..j], threads)))
    {
      assert v.ids[j] in v.ids;
      FinishedAt(k, dev, v, threads, j);
    }
    SerialLeft(dev, v.base, v.ids, threads);
  }

  /** The records a run started from, or restarted from after a crash, are settled. */
  lemma {:induction false} BaseSettled(cfg: Config, ws: seq<World>, ls: seq<Label>, i: nat, k: SlotKey)
    requires IsRun(cfg, ws, ls) && i < |ws| && k in cfg
    ensures k in ws[i].base && !MidOperation(ws[i].base[k].status)
  {
    hide Enabled, Inv, CleanDisk;
    if i == 0 {
      var disk, alive, clock :| CleanDisk(disk) && ws[0] == Startup(cfg, disk, alive, clock);
      StartupSettled(cfg, disk, alive, clock, k);
    } else {
      BaseSettled(cfg, ws, ls, i - 1, k);
      StepSettled(cfg, ws[i - 1], ls[i - 1], k);
      hide Step;
    }
  }

  lemma StartupSettled(cfg: Config, disk: Disk, alive: nat -> bool, clock: SlotKey -> Time, k: SlotKey)
    requires k in cfg
    ensures k in Startup(cfg, disk, alive, clock).base
    ensures !MidOperation(Startup(cfg, disk, alive, clock).base[k].status)
  {
    hide Recovered, NeedsReconciling, AllAlive;
    assert Startup(cfg, disk, alive, clock).base[k] == Recovered(cfg, disk, alive, clock, k);
    hide Startup;
    RecoveredSettled(cfg, disk, alive, clock, k);
  }

  lemma StepSettled(cfg: Config, w: World, l: Label, k: SlotKey)
    requires Enabled(cfg, w, l) && k in cfg && k in w.base && !MidOperation(w.base[k].status)
    ensures k in Step(cfg, w, l).base && !MidOperation(Step(cfg, w, l).base[k].status)
  {
    BaseStays(cfg, w, l);
    CrashStartsUp(cfg, w, l);
    hide Step, Enabled, Startup, MidOperation;
    if l.CrashAndBoot? {
      StartupSettled(cfg, w.disk, l.alive, l.clock, k);
    }
  }

  lemma CrashStartsUp(cfg: Config, w: World, l: Label)
    requires Enabled(cfg, w, l)
    ensures l.CrashAndBoot? ==> Step(cfg, w, l) == Startup(cfg, w.disk, l.alive, l.clock)
  {
    hide Startup, Written;
  }

  /** The history of startup records changes by a startup only. */
  lemma BaseStays(cfg: Config, w: World, l: Label)
    requires Enabled(cfg, w, l)
    ensures !l.CrashAndBoot? ==> Step(cfg, w, l).base == w.base
  {
    hide Startup, Written, Refusal, RefusalOf, Fits, AfterAnswer;
  }

  /**
   In every reachable world, for every slot whose guard is free and none of whose operations was cancelled:
   it is under way exactly if folding Left over its operations, in the order in which they got the guard and
   from a settled slot, says so; and its lease belongs to whom the fold says.
  */
  lemma SlotLeftExactly(cfg: Config, ws: seq<World>, ls: seq<Label>, i: nat, k: SlotKey)
    requires IsRun(cfg, ws, ls) && i < |ws| && k in cfg && k in ws[i].guards && ws[i].guards[k].None?
    requires forall t <- TicketsOf(k, ws[i].order) :: t in ws[i].threads ==> !ws[i].threads[t].pc.Aborted?
    ensures k in ws[i].slots && k in ws[i].base
    ensures SummaryOf(ws[i].slots[k]) ==
      LeftByAll(cfg[k], Summary(false, SummaryOf(ws[i].base[k]).owner), TicketsOf(k, ws[i].order), ws[i].threads)
  {
    BaseSettled(cfg, ws, ls, i, k);
    hide IsRun, Inv, SlotInv;
    RunKeepsInv(cfg, ws, ls, i);
    SlotHolds(cfg, ws[i], k);
    FreeSlotLeft(k, cfg[k], View(ws[i], k), ws[i].threads);
    hide LeftByAll, TicketsOf;
  }

  /**
   A request can be cancelled exactly where the code awaits: the lock over the records, or a hook. It gives its
   guard back; records, files and events are as they were.
  */
  lemma CancelledWhereAwaiting(cfg: Config, ws: seq<World>, ls: seq<Label>, i: nat, t: Tid)
    requires IsRun(cfg, ws, ls) && i < |ws| && t in ws[i].threads && ws[i].threads[t].pc.At?
    ensures var loc := ws[i].threads[t].pc.loc;
      Enabled(cfg, ws[i], Abort(t)) <==>
        && ws[i].threads[t].progress == Outside
        && (loc.TakeLease? || loc.DropLease? || loc.FirstCheck? || loc.MarkBooting? || loc.Unconfirmed?
            || loc.Prepare? || loc.AwaitHook? || loc.Apply?)
    ensures Enabled(cfg, ws[i], Abort(t)) ==>
      var w, w' := ws[i], Step(cfg, ws[i], Abort(t));
      && w'.slots == w.slots && w'.disk == w.disk && w'.log == w.log && w'.lock == w.lock
      && w'.guards == w.guards[w.threads[t].key := None]
      && w'.threads == w.threads[t := w.threads[t].(pc := Aborted)]
  {
    hide IsRun, Inv;
    RunKeepsInv(cfg, ws, ls, i);
    ThreadHolds(cfg, ws[i], t);
    hide LeaseMove, Fits, Standing;
  }

  /**
   A request that is cancelled while its hook runs, or while it waits for the lock to apply the reply, gives
   the guard back and leaves the slot under way.
  */
  lemma CancelledHookLeavesUnderWay(cfg: Config, ws: seq<World>, ls: seq<Label>, i: nat, t: Tid)
    requires IsRun(cfg, ws, ls) && i < |ls| && ls[i] == Abort(t)
    requires t in ws[i].threads && ws[i].threads[t].pc.At?
    requires ws[i].threads[t].pc.loc.AwaitHook? || ws[i].threads[t].pc.loc.Apply?
    ensures var k, w' := ws[i].threads[t].key, ws[i + 1];
      && k in w'.guards && w'.guards[k].None?
      && k in w'.slots && MidOperation(w'.slots[k].status)
  {
    assert Enabled(cfg, ws[i], Abort(t)) && ws[i + 1] == Step(cfg, ws[i], Abort(t));
    hide IsRun, Inv, Step, Enabled;
    RunKeepsInv(cfg, ws, ls, i);
    ThreadHolds(cfg, ws[i], t);
    HookAborted(cfg, ws[i], t);
  }

  lemma HookAborted(cfg: Config, w: World, t: Tid)
    requires Shape(cfg, w) && t in w.threads && ThreadInv(cfg, w, t) && Enabled(cfg, w, Abort(t))
    requires w.threads[t].pc.At? && (w.threads[t].pc.loc.AwaitHook? || w.threads[t].pc.loc.Apply?)
    ensures var k, w' := w.threads[t].key, Step(cfg, w, Abort(t));
      k in w'.guards && w'.guards[k].None? && k in w'.slots && MidOperation(w'.slots[k].status)
  {
    HookIsUnderWay(w.threads[t].req, cfg[w.threads[t].key], w.threads[t].pc.loc.i);
    hide Hooks, MidOperation, LeaseMove;
  }

  lemma HookIsUnderWay(req: Request, dev: Device, i: nat)
    requires i < |Hooks(req, dev)|
    ensures MidOperation(Hooks(req, dev)[i].status)
  {
  }
}
