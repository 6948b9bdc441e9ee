/** The promises of the runtime, over every run of the protocol. */
module SlotTheorems {
  import opened Basics
  import opened SlotModel
  import opened SlotOps
  import opened SlotProtocol
  import opened SlotInvariant
  import opened SlotSteps

  // ----- the invariant, taken apart -----

  lemma SlotHolds(cfg: Config, w: World, k: SlotKey)
    requires Inv(cfg, w) && k in cfg
    ensures Shape(cfg, w) && CleanDisk(w.disk) && SlotInv(k, cfg[k], View(w, k), w.threads)
  {
  }

  lemma ThreadHolds(cfg: Config, w: World, t: Tid)
    requires Inv(cfg, w) && t in w.threads
    ensures Shape(cfg, w) && ThreadInv(cfg, w, t)
  {
  }

  // ----- legal records -----

  /** In every reachable world every record, in memory and on disk, is legal. */
  lemma RecordsStayLegal(cfg: Config, ws: seq<World>, ls: seq<Label>, i: nat, k: SlotKey)
    requires IsRun(cfg, ws, ls) && i < |ws| && k in cfg
    ensures k in ws[i].slots && Legal(ws[i].slots[k]) && ws[i].slots[k].Key() == k
    ensures k in ws[i].disk ==> Legal(ws[i].disk[k]) && ws[i].disk[k].Key() == k
  {
    hide IsRun, Inv, Legal;
    RunKeepsInv(cfg, ws, ls, i);
    SlotHolds(cfg, ws[i], k);
  }

  // ----- serialisability -----

  /** Every operation in the list has written all that it writes when it runs alone. */
  ghost predicate AllWritten(dev: Device, s: SlotState, ids: seq<Tid>, threads: map<Tid, Thread>) {
    forall j :: 0 <= j < |ids| ==>
      ids[j] in threads && WroteAll(dev, threads[ids[j]], After(s, SerialWrites(dev, s, ids[..j], threads)))
  }

  ghost predicate WroteAll(dev: Device, th: Thread, before: SlotState) {
    th.written == |Whole(th.req, dev, th.env, before).writes|
  }

  lemma AllWrittenFront(dev: Device, s: SlotState, ids: seq<Tid>, t: Tid, threads: map<Tid, Thread>)
    requires AllWritten(dev, s, ids + [t], threads)
    ensures AllWritten(dev, s, ids, threads)
    ensures t in threads && WroteAll(dev, threads[t], After(s, SerialWrites(dev, s, ids, threads)))
  {
    hide WroteAll;
    forall j | 0 <= j < |ids|
      ensures ids[j] in threads && WroteAll(dev, threads[ids[j]], After(s, SerialWrites(dev, s, ids[..j], threads)))
    {
      assert (ids + [t])[j] == ids[j] && (ids + [t])[..j] == ids[..j];
    }
    assert (ids + [t])[|ids|] == t && (ids + [t])[..|ids|] == ids;
  }

  /** The whole-map reference, seen from one slot. */
  lemma {:induction false} SerialMapAt(cfg: Config, base: map<SlotKey, SlotState>, order: seq<Ticket>,
                                       threads: map<Tid, Thread>, k: SlotKey)
    requires base.Keys == cfg.Keys && k in cfg
    requires AllWritten(cfg[k], base[k], TicketsOf(k, order), threads)
    ensures SerialMap(cfg, base, order, threads).Keys == base.Keys
    ensures SerialMap(cfg, base, order, threads)[k] ==
      After(base[k], SerialWrites(cfg[k], base[k], TicketsOf(k, order), threads))
  {
    hide Whole, AllWritten;
    if order != [] {
      var front := order[..|order| - 1];
      var x := order[|order| - 1];
      var ids0 := TicketsOf(k, front);
      if x.key == k {
        AllWrittenFront(cfg[k], base[k], ids0, x.tid, threads);
        SerialMapAt(cfg, base, front, threads, k);
        var before := SerialWrites(cfg[k], base[k], ids0, threads);
        var th := threads[x.tid];
        var whole := Whole(th.req, cfg[k], th.env, After(base[k], before));
        assert whole.writes[..|whole.writes|] == whole.writes;
        assert (ids0 + [x.tid])[..|ids0|] == ids0;
        AfterConcat(base[k], before, whole.writes);
      } else {
        assert TicketsOf(k, order) == ids0;
        SerialMapAt(cfg, base, front, threads, k);
      }
    }
  }

  /** A finished operation has written exactly what it writes when it runs alone. */
  lemma FinishedWroteAll(dev: Device, th: Thread, before: SlotState)
    requires Faithful(dev, th, before) && th.pc.Finished?
    ensures WroteAll(dev, th, before)
  {
  }

  /**
   Serialisability. In any interleaving, once nothing is in flight and nothing was cancelled,
   the slots map is what whole operations give when they run one after the other in the
   order in which the guards were handed out.
  */
  lemma Serialisable(cfg: Config, ws: seq<World>, ls: seq<Label>, i: nat)
    requires IsRun(cfg, ws, ls) && i < |ws| && Quiet(ws[i]) && NoAborts(ws[i])
    ensures ws[i].slots == SerialMap(cfg, ws[i].base, ws[i].order, ws[i].threads)
  {
    hide IsRun;
    RunKeepsInv(cfg, ws, ls, i);
    QuietSlots(cfg, ws[i]);
  }

  lemma QuietSlots(cfg: Config, w: World)
    requires Inv(cfg, w) && Quiet(w) && NoAborts(w)
    ensures w.slots == SerialMap(cfg, w.base, w.order, w.threads)
  {
    hide Inv, SlotInv, Quiet, NoAborts, SerialMap, CleanDisk;
    InvShape(cfg, w);
    SerialMapKeys(cfg, w.base, w.order, w.threads);
    forall k <- cfg ensures SerialMap(cfg, w.base, w.order, w.threads)[k] == w.slots[k] {
      SlotHolds(cfg, w, k);
      QuietSlot(cfg, w, k);
    }
  }

  lemma InvShape(cfg: Config, w: World)
    requires Inv(cfg, w)
    ensures Shape(cfg, w)
  {
  }

  lemma QuietSlot(cfg: Config, w: World, k: SlotKey)
    requires Shape(cfg, w) && k in cfg && SlotInv(k, cfg[k], View(w, k), w.threads) && Quiet(w) && NoAborts(w)
    ensures k in SerialMap(cfg, w.base, w.order, w.threads)
    ensures SerialMap(cfg, w.base, w.order, w.threads)[k] == w.slots[k]
  {
    hide Faithful, Legal, WroteAll;
    var ids := TicketsOf(k, w.order);
    forall j | 0 <= j < |ids|
      ensures ids[j] in w.threads
      ensures WroteAll(cfg[k], w.threads[ids[j]],
                       After(w.base[k], SerialWrites(cfg[k], w.base[k], ids[..j], w.threads)))
    {
      FinishedWroteAll(cfg[k], w.threads[ids[j]],
                       After(w.base[k], SerialWrites(cfg[k], w.base[k], ids[..j], w.threads)));
    }
    SerialMapAt(cfg, w.base, w.order, w.threads, k);
  }

  lemma {:induction false} SerialMapKeys(cfg: Config, base: map<SlotKey, SlotState>, order: seq<Ticket>,
                                         threads: map<Tid, Thread>)
    ensures SerialMap(cfg, base, order, threads).Keys == base.Keys
  {
    hide Whole;
    if order != [] {
      SerialMapKeys(cfg, base, order[..|order| - 1], threads);
    }
  }

  /**
   Cancelled requests included: a slot nobody holds is what its operations give one after
   the other, each cut after the sections it completed; and whoever finished got the answer
   it gets when it runs alone.
  */
  lemma SlotIsSerial(cfg: Config, ws: seq<World>, ls: seq<Label>, i: nat, k: SlotKey)
    requires IsRun(cfg, ws, ls) && i < |ws| && k in cfg
    ensures var w := ws[i];
      && k in w.slots && k in w.base
      && w.slots[k] == After(w.base[k], SerialWrites(cfg[k], w.base[k], TicketsOf(k, w.order), w.threads))
    ensures var w := ws[i];
      var ids := TicketsOf(k, w.order);
      forall j :: 0 <= j < |ids| ==>
        && ids[j] in w.threads
        && (w.threads[ids[j]].pc.Finished? ==>
              var th := w.threads[ids[j]];
              var before := After(w.base[k], SerialWrites(cfg[k], w.base[k], ids[..j], w.threads));
              th.pc.outcome == Whole(th.req, cfg[k], th.env, before).outcome)
  {
    hide IsRun, Inv;
    RunKeepsInv(cfg, ws, ls, i);
    SlotHolds(cfg, ws[i], k);
  }

  // ----- events and state files -----

  /** What was published for a slot is what was persisted for it, value for value, in the same order. */
  lemma EventsFollowFiles(cfg: Config, ws: seq<World>, ls: seq<Label>, i: nat, k: SlotKey)
    requires IsRun(cfg, ws, ls) && i < |ws| && k in cfg
    ensures k in ws[i].base && k in ws[i].guards && k in ws[i].slots
    ensures EventsOf(k, ws[i].log) <= EventsOf(k, ws[i].stored)
    ensures |EventsOf(k, ws[i].stored)| <= |EventsOf(k, ws[i].log)| + 1
    ensures ws[i].guards[k].None? ==>
      && EventsOf(k, ws[i].log) == EventsOf(k, ws[i].stored)
      && EventsOf(k, ws[i].log) == SerialWrites(cfg[k], ws[i].base[k], TicketsOf(k, ws[i].order), ws[i].threads)
      && ws[i].slots[k] == After(ws[i].base[k], EventsOf(k, ws[i].log))
  {
    hide IsRun, Inv, SlotInv;
    RunKeepsInv(cfg, ws, ls, i);
    SlotHolds(cfg, ws[i], k);
    JournalFacts(k, cfg[k], View(ws[i], k), ws[i].threads);
  }

  lemma JournalFacts(k: SlotKey, dev: Device, v: SlotView, threads: map<Tid, Thread>)
    requires SlotInv(k, dev, v, threads)
    ensures v.sent <= v.stored && |v.stored| <= |v.sent| + 1
    ensures v.holder.None? ==> v.sent == v.stored == SerialWrites(dev, v.base, v.ids, threads)
    ensures v.holder.None? ==> v.slot == After(v.base, v.sent)
  {
    hide Serial, Queue, Legal;
  }

  /** Whenever the lock over the records is free, loading the files gives memory back. */
  lemma FilesAgreeWithMemory(cfg: Config, ws: seq<World>, ls: seq<Label>, i: nat, k: SlotKey, now: Time)
    requires IsRun(cfg, ws, ls) && i < |ws| && k in cfg && ws[i].lock.None?
    ensures k in ws[i].slots
    ensures Load(cfg, ws[i].disk, k, now)
         == if k in ws[i].disk then ws[i].slots[k] else ws[i].slots[k].(updatedAt := now)
  {
    hide IsRun, Inv, SlotInv, ThreadInv;
    RunKeepsInv(cfg, ws, ls, i);
    var w := ws[i];
    SlotHolds(cfg, w, k);
    var v := View(w, k);
    if v.holder.Some? {
      HolderIsThread(k, cfg[k], v, w.threads);
      ThreadHolds(cfg, w, v.holder.value);
      FreeLock(cfg, w, v.holder.value);
    }
    FileIsMemory(k, cfg[k], v, w.threads);
    hide InLock;
  }

  lemma HolderIsThread(k: SlotKey, dev: Device, v: SlotView, threads: map<Tid, Thread>)
    requires SlotInv(k, dev, v, threads)
    ensures v.holder.Some? ==> v.holder.value in threads && threads[v.holder.value].pc.At?
  {
    hide Serial, Journal, Legal;
  }

  lemma FreeLock(cfg: Config, w: World, t: Tid)
    requires t in w.threads && ThreadInv(cfg, w, t) && w.lock.None?
    ensures !InLock(w.threads[t].progress)
  {
    hide Standing, Fits, LeaseMove;
  }

  lemma FileIsMemory(k: SlotKey, dev: Device, v: SlotView, threads: map<Tid, Thread>)
    requires SlotInv(k, dev, v, threads) && !InLock(ProgressOf(v, threads))
    ensures FileAgrees(k, dev, v.file, v.slot)
  {
    hide Serial, Queue, Legal;
  }

  // ----- crashes -----

  predicate Settled(status: SlotStatus) {
    status.Idle? || status.Ready? || status.Failed?
  }

  ghost predicate SameButClock(a: SlotState, b: SlotState) {
    a.(updatedAt := b.updatedAt) == b
  }

  /**
   What startup leaves of each slot, and in the files: the record on file as a restart leaves it, or else the
   default record of the device, for which no file is written. Files of other slots stay.
  */
  lemma StartupLeaves(cfg: Config, disk: Disk, alive: nat -> bool, clock: SlotKey -> Time, k: SlotKey)
    ensures var w := Startup(cfg, disk, alive, clock);
      && w.slots.Keys == cfg.Keys && w.disk.Keys == disk.Keys && w.log == []
      && (k in cfg && k in disk ==> Restarted(disk[k], alive, clock(k), w.slots[k]) && w.disk[k] == w.slots[k])
      && (k in cfg && k !in disk ==>
            var dev := cfg[k];
            w.slots[k] == SlotState(k.project, k.device, dev.deviceId, dev.runtimeDir, Idle, NoPhase, None, map[], [],
                                    None, None, clock(k)))
      && (k !in cfg && k in disk ==> w.disk[k] == disk[k])
  {
    FreshNeedsNothing(cfg, disk, alive, clock);
    hide Reconciled, NeedsReconciling, Restarted;
    if k in cfg && k in disk {
      ReconciledIsRestarted(disk[k], alive, clock(k));
      if !NeedsReconciling(disk[k], alive) {
        UnneededIsUnchanged(disk[k], alive, clock(k));
      }
    }
  }

  lemma FreshNeedsNothing(cfg: Config, disk: Disk, alive: nat -> bool, clock: SlotKey -> Time)
    ensures forall k <- cfg :: k !in disk ==>
      && !NeedsReconciling(Load(cfg, disk, k, clock(k)), alive)
      && Recovered(cfg, disk, alive, clock, k) == DefaultSlot(k, cfg[k], clock(k))
  {
  }

  lemma UnneededIsUnchanged(s: SlotState, alive: nat -> bool, now: Time)
    requires !NeedsReconciling(s, alive)
    ensures Reconciled(s, alive, now) == s
  {
  }

  /**
   A crash at any micro-step, then load and reconcile: every slot is what a restart makes of the record last
   persisted; so it is Idle, Ready or Failed, and Ready or Idle only with every tracked process alive, and the
   lease is the one last persisted, which is the one in memory when the lock was free.
  */
  lemma CrashSafe(cfg: Config, ws: seq<World>, ls: seq<Label>, i: nat,
                  alive: nat -> bool, clock: SlotKey -> Time, k: SlotKey)
    requires IsRun(cfg, ws, ls) && i < |ws| && k in cfg
    ensures var s := Startup(cfg, ws[i].disk, alive, clock).slots[k];
      && (if k in ws[i].disk then Restarted(ws[i].disk[k], alive, clock(k), s)
          else s == DefaultSlot(k, cfg[k], clock(k)))
      && Settled(s.status)
      && (!s.status.Failed? ==> AllAlive(s, alive))
      && s.lease == (if k in ws[i].disk then ws[i].disk[k].lease else None)
      && (ws[i].lock.None? ==> k in ws[i].slots && s.lease == ws[i].slots[k].lease)
  {
    hide IsRun, Inv, Legal, SlotInv, Restarted;
    RunKeepsInv(cfg, ws, ls, i);
    SlotHolds(cfg, ws[i], k);
    StartupLeaves(cfg, ws[i].disk, alive, clock, k);
    StartupView(cfg, ws[i].disk, alive, clock, k);
    RecoveredSlot(cfg, ws[i].disk, alive, clock, k);
    RecoveredSettled(cfg, ws[i].disk, alive, clock, k);
    hide Startup, Recovered;
    if ws[i].lock.None? {
      FilesAgreeWithMemory(cfg, ws, ls, i, k, clock(k));
    }
  }

  lemma RecoveredSettled(cfg: Config, disk: Disk, alive: nat -> bool, clock: SlotKey -> Time, k: SlotKey)
    requires k in cfg
    ensures var s := Recovered(cfg, disk, alive, clock, k);
      Settled(s.status) && (!s.status.Failed? ==> AllAlive(s, alive))
  {
  }

  /** Reconciling what was reconciled changes nothing but the timestamp. */
  lemma ReconciledTwice(s: SlotState, alive: nat -> bool, now: Time, later: Time)
    ensures SameButClock(Reconciled(Reconciled(s, alive, now), alive, later), Reconciled(s, alive, now))
  {
  }

  /** What is on disk when a startup dies after rewriting only the slots in finished. */
  function HalfRecovered(cfg: Config, disk: Disk, alive: nat -> bool, clock: SlotKey -> Time,
                         finished: set<SlotKey>): Disk {
    disk + map k | k in cfg && k in finished && NeedsReconciling(Load(cfg, disk, k, clock(k)), alive)
             :: Recovered(cfg, disk, alive, clock, k)
  }

  /** A startup that died half-way, followed by a full one, is the full one; so is a second startup. */
  lemma RecoveryCanBeRepeated(cfg: Config, disk: Disk, alive: nat -> bool, clock: SlotKey -> Time,
                              finished: set<SlotKey>, clock': SlotKey -> Time, k: SlotKey)
    requires k in cfg
    ensures SameButClock(Recovered(cfg, HalfRecovered(cfg, disk, alive, clock, finished), alive, clock', k),
                         Recovered(cfg, disk, alive, clock, k))
    ensures HalfRecovered(cfg, disk, alive, clock, cfg.Keys) == Startup(cfg, disk, alive, clock).disk
  {
    HalfOfSlot(cfg, disk, alive, clock, finished, clock', k);
    HalfIsWhole(cfg, disk, alive, clock);
    hide HalfRecovered, Startup, Recovered;
  }

  lemma HalfIsWhole(cfg: Config, disk: Disk, alive: nat -> bool, clock: SlotKey -> Time)
    ensures HalfRecovered(cfg, disk, alive, clock, cfg.Keys) == Startup(cfg, disk, alive, clock).disk
  {
    hide Recovered, NeedsReconciling;
  }

  lemma HalfOfSlot(cfg: Config, disk: Disk, alive: nat -> bool, clock: SlotKey -> Time,
                   finished: set<SlotKey>, clock': SlotKey -> Time, k: SlotKey)
    requires k in cfg
    ensures SameButClock(Recovered(cfg, HalfRecovered(cfg, disk, alive, clock, finished), alive, clock', k),
                         Recovered(cfg, disk, alive, clock, k))
  {
    var s := Load(cfg, disk, k, clock(k));
    var half := HalfRecovered(cfg, disk, alive, clock, finished);
    ReconciledTwice(s, alive, clock(k), clock'(k));
    LoadIgnoresClock(cfg, disk, k, clock(k), clock'(k), alive);
    if k in finished && NeedsReconciling(s, alive) {
      assert half[k] == Reconciled(s, alive, clock(k));
    } else {
      assert (k in half <==> k in disk) && (k in disk ==> half[k] == disk[k]);
    }
    hide Reconciled, NeedsReconciling, HalfRecovered;
  }

  lemma LoadIgnoresClock(cfg: Config, disk: Disk, k: SlotKey, now: Time, later: Time, alive: nat -> bool)
    requires k in cfg
    ensures SameButClock(Reconciled(Load(cfg, disk, k, now), alive, now),
                         Reconciled(Load(cfg, disk, k, later), alive, later))
  {
  }

  // ----- leases -----

  /** Once seen, a lease record stays with the operation, and with the slot while it holds the guard. */
  lemma SeenStays(cfg: Config, w: World, l: Label, t: Tid)
    requires Enabled(cfg, w, l) && !l.CrashAndBoot?
    requires t in w.threads && w.threads[t].leased.Some?
    ensures var w' := Step(cfg, w, l);
      t in w'.threads && w'.threads[t].leased == w.threads[t].leased && w'.threads[t].key == w.threads[t].key
  {
    hide Write, AfterWrite, AfterAnswer, Refusal, Fits, RefusalOf;
  }

  lemma {:induction false} SeenStaysLong(cfg: Config, ws: seq<World>, ls: seq<Label>, i: nat, j: nat, t: Tid)
    requires IsRun(cfg, ws, ls) && i <= j < |ws|
    requires forall m :: i <= m < j ==> !ls[m].CrashAndBoot?
    requires t in ws[i].threads && ws[i].threads[t].leased.Some?
    ensures t in ws[j].threads && ws[j].threads[t].leased == ws[i].threads[t].leased
    ensures ws[j].threads[t].key == ws[i].threads[t].key
  {
    hide Step, Enabled;
    if i < j {
      SeenStaysLong(cfg, ws, ls, i, j - 1, t);
      SeenStays(cfg, ws[j - 1], ls[j - 1], t);
    }
  }

  lemma SeenIsHeld(cfg: Config, w: World, t: Tid)
    requires Shape(cfg, w) && t in w.threads && ThreadInv(cfg, w, t) && w.threads[t].leased.Some?
    ensures var th := w.threads[t];
      th.pc.At? ==>
        && Placed(cfg, w, t)
        && LeaseWorker(th.req) && w.slots[th.key].lease == th.leased
        && w.slots[th.key].lease.value.owner == th.req.owner
        && RefusalOf(cfg, w, t).None?
  {
  }

  /**
   Lease stability. From its first successful check until it gives the guard back, an
   operation finds the very same lease record in its slot, its own; so no later check
   of the operation refuses it.
  */
  lemma LeaseStable(cfg: Config, ws: seq<World>, ls: seq<Label>, i: nat, j: nat, t: Tid)
    requires IsRun(cfg, ws, ls) && i <= j < |ws|
    requires forall m :: i <= m < j ==> !ls[m].CrashAndBoot?
    requires t in ws[i].threads && ws[i].threads[t].leased.Some?
    ensures t in ws[j].threads
    ensures var th := ws[j].threads[t];
      th.pc.At? ==>
        && Placed(cfg, ws[j], t)
        && LeaseWorker(th.req) && ws[j].slots[th.key].lease == ws[i].threads[t].leased
        && ws[j].slots[th.key].lease.value.owner == th.req.owner
        && RefusalOf(cfg, ws[j], t).None?
  {
    SeenStaysLong(cfg, ws, ls, i, j, t);
    hide IsRun, Inv;
    RunKeepsInv(cfg, ws, ls, j);
    ThreadHolds(cfg, ws[j], t);
    SeenIsHeld(cfg, ws[j], t);
    hide ThreadInv, RefusalOf, Placed;
  }

  /** The step with label l is the section of a release_lease on k, or the persisting of one. */
  ghost predicate Releases(w: World, l: Label, k: SlotKey) {
    && (l.Mutate? || l.Persist?)
    && l.tid in w.threads && w.threads[l.tid].key == k && w.threads[l.tid].req.ReleaseLease?
  }

  predicate SameOwner(a: SlotState, b: SlotState) {
    a.lease.Some? && b.lease.Some? && a.lease.value.owner == b.lease.value.owner
  }

  lemma OwnerStep(cfg: Config, w: World, l: Label, k: SlotKey)
    requires Inv(cfg, w) && Enabled(cfg, w, l) && !l.CrashAndBoot? && k in cfg && w.slots[k].lease.Some?
    ensures k in Step(cfg, w, l).slots
    ensures SameOwner(w.slots[k], Step(cfg, w, l).slots[k]) || Releases(w, l, k)
  {
    hide Inv, Write, AfterWrite, SlotInv, Legal, Fits, Refusal, RefusalOf, AfterAnswer, Startup;
    SlotHolds(cfg, w, k);
    if l.Mutate? && w.threads[l.tid].key == k {
      MutateOwner(cfg, w, Step(cfg, w, l), l.tid, k);
    }
  }

  lemma MutateOwner(cfg: Config, w: World, w': World, t: Tid, k: SlotKey)
    requires Inv(cfg, w) && Enabled(cfg, w, Mutate(t)) && w' == Step(cfg, w, Mutate(t))
    requires t in w.threads && w.threads[t].key == k && k in cfg
    requires k in w.slots && w.slots[k].lease.Some?
    ensures k in w'.slots
    ensures SameOwner(w.slots[k], w'.slots[k]) || w.threads[t].req.ReleaseLease?
  {
    hide Inv, Faithful;
    SlotHolds(cfg, w, k);
    ThreadHolds(cfg, w, t);
    hide SlotInv, Legal, Write, AfterWrite;
    assert Legal(w.slots[k]) by {
      SlotLegal(k, cfg[k], View(w, k), w.threads);
    }
    WriteLegal(cfg[k], w.threads[t], w.slots[k]);
  }

  lemma SlotLegal(k: SlotKey, dev: Device, v: SlotView, threads: map<Tid, Thread>)
    requires SlotInv(k, dev, v, threads)
    ensures Legal(v.slot) && v.slot.Key() == k
  {
  }

  lemma FileOwnerStep(cfg: Config, w: World, l: Label, k: SlotKey)
    requires Inv(cfg, w) && Enabled(cfg, w, l) && k in cfg && k in w.disk && w.disk[k].lease.Some?
    ensures k in Step(cfg, w, l).disk
    ensures SameOwner(w.disk[k], Step(cfg, w, l).disk[k]) || Releases(w, l, k)
  {
    hide Inv, Write, AfterWrite, SlotInv, Legal, Fits, Refusal, AfterAnswer, Recovered;
    if l.CrashAndBoot? {
      CrashOwner(cfg, w, l.alive, l.clock, k);
    } else if l.Persist? {
      PersistOwner(cfg, w, l.tid, k);
    }
  }

  lemma CrashOwner(cfg: Config, w: World, alive: nat -> bool, clock: SlotKey -> Time, k: SlotKey)
    requires Inv(cfg, w) && k in cfg && k in w.disk
    ensures k in Startup(cfg, w.disk, alive, clock).disk
    ensures Startup(cfg, w.disk, alive, clock).disk[k].lease == w.disk[k].lease
  {
    hide Inv, SlotInv, Legal, Recovered;
    SlotHolds(cfg, w, k);
    RecoveredSlot(cfg, w.disk, alive, clock, k);
  }

  lemma PersistOwner(cfg: Config, w: World, t: Tid, k: SlotKey)
    requires Inv(cfg, w) && Enabled(cfg, w, Persist(t)) && k in cfg && k in w.disk && w.disk[k].lease.Some?
    ensures k in Step(cfg, w, Persist(t)).disk
    ensures SameOwner(w.disk[k], Step(cfg, w, Persist(t)).disk[k]) || Releases(w, Persist(t), k)
  {
    hide Inv, Legal, Standing, Serial, Fits, Write, AfterWrite;
    ThreadHolds(cfg, w, t);
    SlotHolds(cfg, w, w.threads[t].key);
  }

  /** Without crashes, the owner of a slot goes away or changes only through a release_lease of that slot. */
  lemma {:induction false} OwnerChangesByRelease(cfg: Config, ws: seq<World>, ls: seq<Label>, i: nat, j: nat,
                                                 k: SlotKey)
    requires IsRun(cfg, ws, ls) && i <= j < |ws| && k in cfg
    requires forall m :: i <= m < j ==> !ls[m].CrashAndBoot?
    requires k in ws[i].slots && k in ws[j].slots && ws[i].slots[k].lease.Some?
    ensures SameOwner(ws[i].slots[k], ws[j].slots[k]) || exists m :: i <= m < j && Releases(ws[m], ls[m], k)
    decreases j
  {
    hide Inv, Step, Enabled, Releases;
    if i < j {
      RunKeepsInv(cfg, ws, ls, j - 1);
      RecordsStayLegal(cfg, ws, ls, j - 1, k);
      OwnerChangesByRelease(cfg, ws, ls, i, j - 1, k);
      if SameOwner(ws[i].slots[k], ws[j - 1].slots[k]) {
        OwnerStep(cfg, ws[j - 1], ls[j - 1], k);
      }
    }
  }

  /** Across crashes too, the owner in the state file changes only through a release_lease of that slot. */
  lemma {:induction false} PersistedOwnerChangesByRelease(cfg: Config, ws: seq<World>, ls: seq<Label>, i: nat,
                                                          j: nat, k: SlotKey)
    requires IsRun(cfg, ws, ls) && i <= j < |ws| && k in cfg
    requires k in ws[i].disk && ws[i].disk[k].lease.Some?
    ensures (k in ws[j].disk && SameOwner(ws[i].disk[k], ws[j].disk[k]))
            || exists m :: i <= m < j && Releases(ws[m], ls[m], k)
    decreases j
  {
    hide Inv, Step, Enabled, Releases;
    if i < j {
      RunKeepsInv(cfg, ws, ls, j - 1);
      PersistedOwnerChangesByRelease(cfg, ws, ls, i, j - 1, k);
      if k in ws[j - 1].disk && SameOwner(ws[i].disk[k], ws[j - 1].disk[k]) {
        FileOwnerStep(cfg, ws[j - 1], ls[j - 1], k);
      }
    }
  }
}
