/**
 What every micro-step keeps: locks and guards have one holder, the records stay legal,
 memory, state files, published events and the serial reference tell one story per slot.
*/
module SlotInvariant {
  import opened Basics
  import opened SlotModel
  import opened SlotOps
  import opened SlotProtocol

  // ----- the invariant -----

  predicate InLock(p: Progress) {
    p.Locked? || p.Mutated? || p.Persisted?
  }

  /** The operation has passed a lease check on every way to loc. */
  predicate PastCheck(loc: Loc) {
    || loc.Boot? || loc.Verify? || loc.Unconfirmed? || loc.AwaitHook? || loc.Apply?
    || (loc.MakeDirs? && loc.i > 0) || (loc.Prepare? && loc.i > 0)
  }

  predicate LeaseWorker(req: Request) {
    req.Start? || req.Restart? || req.Teardown? || req.Command?
  }

  /** What an operation that holds the guard may rely on about the record. */
  predicate Standing(dev: Device, th: Thread, s: SlotState)
    requires th.pc.At? && Fits(th.req, dev, th.pc.loc)
  {
    var loc := th.pc.loc;
    && (loc.AwaitHook? || loc.Apply? ==>
          var h := Hooks(th.req, dev)[loc.i];
          s.status == h.status && s.phase == h.phase && s.lastError.None?)
    && (PastCheck(loc) ==> th.leased.Some?)
    && (th.leased.Some? ==> LeaseWorker(th.req) && s.lease == th.leased && th.leased.value.owner == th.req.owner)
  }

  /** Only a release takes a lease away from its owner. */
  predicate LeaseMove(req: Request, before: SlotState, after: SlotState) {
    before.lease.Some? ==>
      req.ReleaseLease? || (after.lease.Some? && after.lease.value.owner == before.lease.value.owner)
  }

  predicate ThreadInv(cfg: Config, w: World, t: Tid)
    requires t in w.threads
  {
    var th := w.threads[t];
    && (th.pc.At? ==>
          && th.key in cfg && th.key in w.guards && th.key in w.slots && w.guards[th.key] == Some(t)
          && Fits(th.req, cfg[th.key], th.pc.loc)
          && Standing(cfg[th.key], th, w.slots[th.key])
          && (th.progress.Locked? ==> IsSection(th.pc.loc) || th.pc.loc.FirstCheck?)
          && (th.progress.Mutated? ==> LeaseMove(th.req, th.progress.prior, w.slots[th.key])))
    && (!th.pc.At? ==> th.progress.Outside?)
    && (InLock(th.progress) <==> w.lock == Some(t))
    && (th.pc.Waiting? ==> th.tick == 0 && th.written == 0 && th.leased.None?)
  }

  /** One operation against its serial run from the record it found. */
  ghost predicate Faithful(dev: Device, th: Thread, before: SlotState) {
    var whole := Whole(th.req, dev, th.env, before);
    && th.written <= |whole.writes|
    && match th.pc
       case At(loc) =>
         && Fits(th.req, dev, loc)
         && var rest := Rest(th.req, dev, th.env, loc, th.tick, After(before, whole.writes[..th.written]));
            whole == Run(whole.writes[..th.written] + rest.writes, rest.outcome)
       case Finished(outcome) => th.written == |whole.writes| && outcome == whole.outcome
       case Aborted => true
       case _ => false
  }

  /** Everything the shared state says about one slot. */
  datatype SlotView = SlotView(
    base: SlotState,
    slot: SlotState,
    holder: Option<Tid>,
    file: Option<SlotState>,
    ids: seq<Tid>,
    stored: seq<Event>,
    sent: seq<Event>)

  function View(w: World, k: SlotKey): SlotView
    requires k in w.base && k in w.slots && k in w.guards
  {
    SlotView(w.base[k], w.slots[k], w.guards[k],
             if k in w.disk then Some(w.disk[k]) else None,
             TicketsOf(k, w.order), EventsOf(k, w.stored), EventsOf(k, w.log))
  }

  /** The state file holds s, or there is none and s is the default record. */
  predicate FileAgrees(k: SlotKey, dev: Device, file: Option<SlotState>, s: SlotState) {
    if file.Some? then file.value == s else s == DefaultSlot(k, dev, s.updatedAt)
  }

  /** Everyone who ever held the guard of k; only the last may still hold it. */
  ghost predicate Queue(k: SlotKey, ids: seq<Tid>, holder: Option<Tid>, threads: map<Tid, Thread>) {
    && (forall i, j :: 0 <= i < j < |ids| ==> ids[i] != ids[j])
    && (forall j :: 0 <= j < |ids| ==>
          && ids[j] in threads && threads[ids[j]].key == k
          && !threads[ids[j]].pc.Waiting? && !threads[ids[j]].pc.Dismissed?
          && (threads[ids[j]].pc.At? ==> j == |ids| - 1 && holder == Some(ids[j])))
    && (holder.Some? ==> |ids| > 0 && ids[|ids| - 1] == holder.value && threads[holder.value].pc.At?)
  }

  ghost predicate Serial(dev: Device, base: SlotState, ids: seq<Tid>, threads: map<Tid, Thread>) {
    forall j :: 0 <= j < |ids| ==>
      ids[j] in threads && Faithful(dev, threads[ids[j]], After(base, SerialWrites(dev, base, ids[..j], threads)))
  }

  /** State file, persisted history, published events and memory of slot k agree, given how far its holder is. */
  predicate Journal(k: SlotKey, dev: Device, v: SlotView, serial: seq<Event>, progress: Progress) {
    match progress
    case Outside => FileAgrees(k, dev, v.file, v.slot) && v.stored == serial && v.sent == serial
    case Locked => FileAgrees(k, dev, v.file, v.slot) && v.stored == serial && v.sent == serial
    case Mutated(prior, e) =>
      FileAgrees(k, dev, v.file, prior) && v.stored + [e] == serial && v.sent == v.stored && e.state == v.slot
    case Persisted(e) =>
      FileAgrees(k, dev, v.file, v.slot) && v.stored == serial && v.sent + [e] == serial && e.state == v.slot
    case Unlocked(e) =>
      FileAgrees(k, dev, v.file, v.slot) && v.stored == serial && v.sent + [e] == serial && e.state == v.slot
  }

  function ProgressOf(v: SlotView, threads: map<Tid, Thread>): Progress {
    if v.holder.Some? && v.holder.value in threads then threads[v.holder.value].progress else Outside
  }

  ghost predicate SlotInv(k: SlotKey, dev: Device, v: SlotView, threads: map<Tid, Thread>) {
    var serial := SerialWrites(dev, v.base, v.ids, threads);
    && v.slot == After(v.base, serial)
    && v.slot.Key() == k && Legal(v.slot)
    && Queue(k, v.ids, v.holder, threads)
    && Serial(dev, v.base, v.ids, threads)
    && Journal(k, dev, v, serial, ProgressOf(v, threads))
  }

  ghost predicate Shape(cfg: Config, w: World) {
    w.slots.Keys == w.base.Keys == w.guards.Keys == cfg.Keys
  }

  ghost predicate Inv(cfg: Config, w: World) {
    && Shape(cfg, w)
    && CleanDisk(w.disk)
    && (w.lock.Some? ==> w.lock.value in w.threads)
    && (forall t <- w.threads :: ThreadInv(cfg, w, t))
    && (forall k <- cfg :: SlotInv(k, cfg[k], View(w, k), w.threads))
  }

  // ----- what a step leaves alone -----

  /** b runs the same operation as a and has written as much. */
  ghost predicate SameWrites(a: Thread, b: Thread) {
    a.req == b.req && a.env == b.env && a.written == b.written
  }

  lemma {:induction false} SerialFrame(dev: Device, s: SlotState, ids: seq<Tid>,
                                       threads: map<Tid, Thread>, threads': map<Tid, Thread>)
    requires forall t <- ids :: t in threads && t in threads' && SameWrites(threads[t], threads'[t])
    ensures SerialWrites(dev, s, ids, threads') == SerialWrites(dev, s, ids, threads)
  {
    if ids != [] {
      SerialFrame(dev, s, ids[..|ids| - 1], threads, threads');
      assert ids[|ids| - 1] in ids;
    }
  }

  lemma SerialFrameAll(dev: Device, s: SlotState, ids: seq<Tid>,
                       threads: map<Tid, Thread>, threads': map<Tid, Thread>)
    requires forall t <- ids :: t in threads && t in threads' && SameWrites(threads[t], threads'[t])
    ensures SerialWrites(dev, s, ids, threads') == SerialWrites(dev, s, ids, threads)
    ensures forall j :: 0 <= j < |ids| ==>
      SerialWrites(dev, s, ids[..j], threads') == SerialWrites(dev, s, ids[..j], threads)
  {
    SerialFrame(dev, s, ids, threads, threads');
    forall j | 0 <= j < |ids|
      ensures SerialWrites(dev, s, ids[..j], threads') == SerialWrites(dev, s, ids[..j], threads)
    {
      assert forall t <- ids[..j] :: t in ids;
      SerialFrame(dev, s, ids[..j], threads, threads');
    }
  }

  lemma SameThreadsSerial(dev: Device, base: SlotState, ids: seq<Tid>,
                          threads: map<Tid, Thread>, threads': map<Tid, Thread>)
    requires forall t <- ids :: t in threads && t in threads' && threads'[t] == threads[t]
    requires Serial(dev, base, ids, threads)
    ensures Serial(dev, base, ids, threads')
    ensures SerialWrites(dev, base, ids, threads') == SerialWrites(dev, base, ids, threads)
  {
    SerialFrameAll(dev, base, ids, threads, threads');
    forall j | 0 <= j < |ids|
      ensures ids[j] in threads' &&
        Faithful(dev, threads'[ids[j]], After(base, SerialWrites(dev, base, ids[..j], threads')))
    {
      assert ids[j] in ids;
    }
  }

  lemma SameThreadsQueue(k: SlotKey, ids: seq<Tid>, holder: Option<Tid>, threads: map<Tid, Thread>,
                         threads': map<Tid, Thread>)
    requires forall t <- ids :: t in threads && t in threads' && threads'[t] == threads[t]
    requires Queue(k, ids, holder, threads)
    ensures Queue(k, ids, holder, threads')
    ensures holder.Some? ==>
      holder.value in threads && holder.value in threads' && threads'[holder.value] == threads[holder.value]
  {
    assert forall j :: 0 <= j < |ids| ==> ids[j] in ids;
  }

  lemma OtherSlot(k: SlotKey, dev: Device, v: SlotView, threads: map<Tid, Thread>, threads': map<Tid, Thread>)
    requires SlotInv(k, dev, v, threads)
    requires forall t <- v.ids :: t in threads && t in threads' && threads'[t] == threads[t]
    ensures SlotInv(k, dev, v, threads')
  {
    SameThreadsSerial(dev, v.base, v.ids, threads, threads');
    SameThreadsQueue(k, v.ids, v.holder, threads, threads');
    hide Serial, Queue, Legal;
  }

  /** Nobody queues for a slot but under its own key. */
  lemma NotQueued(k: SlotKey, ids: seq<Tid>, holder: Option<Tid>, threads: map<Tid, Thread>, t: Tid)
    requires Queue(k, ids, holder, threads) && (t in threads ==> threads[t].key != k)
    ensures t !in ids && forall u <- ids :: u in threads
  {
  }

  /** Steps of t leave every slot t does not hold as it was. */
  lemma OtherSlots(cfg: Config, w: World, w': World, t: Tid)
    requires Inv(cfg, w) && Shape(cfg, w') && t in w'.threads && w'.threads == w.threads[t := w'.threads[t]]
    requires forall k <- cfg :: (t in w.threads ==> k != w.threads[t].key) ==> View(w', k) == View(w, k)
    ensures forall k <- cfg :: (t in w.threads ==> k != w.threads[t].key) ==>
      SlotInv(k, cfg[k], View(w', k), w'.threads)
  {
    forall k <- cfg | t in w.threads ==> k != w.threads[t].key
      ensures SlotInv(k, cfg[k], View(w', k), w'.threads)
    {
      OtherSlotAt(k, cfg[k], View(w, k), w.threads, w'.threads, t);
    }
  }

  lemma OtherSlotAt(k: SlotKey, dev: Device, v: SlotView, threads: map<Tid, Thread>, threads': map<Tid, Thread>, t: Tid)
    requires SlotInv(k, dev, v, threads) && (t in threads ==> threads[t].key != k)
    requires t in threads' && threads' == threads[t := threads'[t]]
    ensures SlotInv(k, dev, v, threads')
  {
    NotQueued(k, v.ids, v.holder, threads, t);
    OtherSlot(k, dev, v, threads, threads');
  }

  /** Steps of t keep the standing of every other thread. */
  lemma OtherThreads(cfg: Config, w: World, w': World, t: Tid)
    requires forall u <- w.threads :: ThreadInv(cfg, w, u)
    requires t in w'.threads && w'.threads == w.threads[t := w'.threads[t]]
    requires Shape(cfg, w) && Shape(cfg, w')
    requires forall k <- cfg :: w.guards[k] != w'.guards[k] ==> w.guards[k] == Some(t) || w.guards[k].None?
    requires forall k <- cfg :: w.slots[k] != w'.slots[k] ==> w.guards[k] == Some(t)
    requires w'.lock == w.lock || (w.lock.None? && w'.lock == Some(t)) || (w.lock == Some(t) && w'.lock.None?)
    ensures forall u <- w'.threads :: u != t ==> ThreadInv(cfg, w', u)
  {
    forall u <- w'.threads | u != t ensures ThreadInv(cfg, w', u) {
      assert ThreadInv(cfg, w, u);
    }
  }
}
