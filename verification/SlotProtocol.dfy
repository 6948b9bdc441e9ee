/**
 The runtime as a state machine over micro-steps: any number of operations on any
 number of slots, interleaved at every point where the code can be preempted, with
 cancelled requests, and with crashes at every micro-step.

 Two kinds of lock are modelled. The guard of a slot is held from Acquire to Release.
 The one lock over all records is held only inside a section: Enter, Mutate, Persist,
 Unlock; the event is published after it is given up.
*/
module SlotProtocol {
  import opened Basics
  import opened SlotModel
  import opened SlotOps

  type Tid = nat

  datatype Pc =
    | Waiting                       // lock_slot has not returned yet
    | At(loc: Loc)                  // the slot guard is held
    | Finished(outcome: Outcome)    // the guard was given back after a complete run
    | Aborted                       // the request was dropped while it held the guard
    | Dismissed(why: Why)           // the guard was never held

  /** How far a section has come. */
  datatype Progress =
    | Outside
    | Locked
    | Mutated(prior: SlotState, event: Event)
    | Persisted(event: Event)
    | Unlocked(event: Event)

  /** One operation; written counts its sections so far, leased is the record its first lease check saw. */
  datatype Thread = Thread(
    key: SlotKey,
    req: Request,
    env: Env,
    pc: Pc,
    progress: Progress,
    tick: nat,
    written: nat,
    leased: Option<LeaseRecord>)

  /** Who received the guard of which slot, in the order of the whole runtime. */
  datatype Ticket = Ticket(key: SlotKey, tid: Tid)

  type Disk = map<SlotKey, SlotState>

  datatype World = World(
    slots: map<SlotKey, SlotState>,        // memory
    disk: Disk,                            // the state files
    log: seq<Event>,                       // what the event bus has sent
    lock: Option<Tid>,                     // holder of the lock over all records
    guards: map<SlotKey, Option<Tid>>,     // holder of each slot guard
    threads: map<Tid, Thread>,
    base: map<SlotKey, SlotState>,         // history: the records at startup
    stored: seq<Event>,                    // history: records persisted since startup
    order: seq<Ticket>)                    // history: guards handed out since startup

  // ----- startup -----

  function Load(cfg: Config, disk: Disk, k: SlotKey, now: Time): SlotState
    requires k in cfg
  {
    if k in disk then disk[k] else DefaultSlot(k, cfg[k], now)
  }

  function Recovered(cfg: Config, disk: Disk, alive: nat -> bool, clock: SlotKey -> Time, k: SlotKey): SlotState
    requires k in cfg
  {
    Reconciled(Load(cfg, disk, k, clock(k)), alive, clock(k))
  }

  /** Loading followed by reconciliation of every configured slot; what changed is persisted. */
  function Startup(cfg: Config, disk: Disk, alive: nat -> bool, clock: SlotKey -> Time): World {
    var slots := map k | k in cfg :: Recovered(cfg, disk, alive, clock, k);
    var rewritten := map k | k in cfg && NeedsReconciling(Load(cfg, disk, k, clock(k)), alive) :: slots[k];
    World(slots, disk + rewritten, [], None, map k | k in cfg :: None, map[], slots, [], [])
  }

  // ----- micro-steps -----

  datatype Label =
    | Spawn(tid: Tid, key: SlotKey, req: Request, env: Env)
    | Acquire(tid: Tid)
    | Dismiss(tid: Tid)
    | Answer(tid: Tid)
    | Enter(tid: Tid)
    | Pass(tid: Tid)
    | Refuse(tid: Tid)
    | Mutate(tid: Tid)
    | Persist(tid: Tid)
    | Unlock(tid: Tid)
    | Publish(tid: Tid)
    | Release(tid: Tid)
    | Abort(tid: Tid)
    | CrashAndBoot(alive: nat -> bool, clock: SlotKey -> Time)

  /** Points where the code awaits, so that a dropped request can end there. */
  predicate Awaits(loc: Loc) {
    IsSection(loc) || loc.FirstCheck? || loc.AwaitHook?
  }

  predicate CanMove(w: World, t: Tid) {
    t in w.threads && w.threads[t].pc.At? && w.threads[t].key in w.slots && w.threads[t].key in w.guards
  }

  function RefusalOf(cfg: Config, w: World, t: Tid): Option<Why>
    requires CanMove(w, t) && w.threads[t].key in cfg
    requires Fits(w.threads[t].req, cfg[w.threads[t].key], w.threads[t].pc.loc)
  {
    var th := w.threads[t];
    Refusal(th.req, cfg[th.key], th.pc.loc, w.slots[th.key])
  }

  predicate Placed(cfg: Config, w: World, t: Tid) {
    && CanMove(w, t) && w.threads[t].key in cfg
    && Fits(w.threads[t].req, cfg[w.threads[t].key], w.threads[t].pc.loc)
  }

  ghost predicate Enabled(cfg: Config, w: World, l: Label) {
    match l
    case Spawn(t, _, _, _) => t !in w.threads
    case Acquire(t) => t in w.threads && w.threads[t].pc.Waiting? && w.threads[t].key in cfg
                       && w.threads[t].key in w.guards && w.guards[w.threads[t].key].None?
    case Dismiss(t) => t in w.threads && w.threads[t].pc.Waiting?
    case Answer(t) => Placed(cfg, w, t) && w.threads[t].progress.Outside? && IsQuestion(w.threads[t].pc.loc)
    case Enter(t) => Placed(cfg, w, t) && w.threads[t].progress.Outside? && w.lock.None?
                     && (IsSection(w.threads[t].pc.loc) || w.threads[t].pc.loc.FirstCheck?)
    case Pass(t) => Placed(cfg, w, t) && w.threads[t].progress.Locked? && w.threads[t].pc.loc.FirstCheck?
                    && RefusalOf(cfg, w, t).None?
    case Refuse(t) => Placed(cfg, w, t) && w.threads[t].progress.Locked? && RefusalOf(cfg, w, t).Some?
    case Mutate(t) => Placed(cfg, w, t) && w.threads[t].progress.Locked? && IsSection(w.threads[t].pc.loc)
                      && RefusalOf(cfg, w, t).None?
    case Persist(t) => CanMove(w, t) && w.threads[t].progress.Mutated?
    case Unlock(t) => CanMove(w, t) && w.threads[t].progress.Persisted?
    case Publish(t) => CanMove(w, t) && w.threads[t].progress.Unlocked?
    case Release(t) => CanMove(w, t) && w.threads[t].progress.Outside? && w.threads[t].pc.loc.Leaving?
    case Abort(t) => CanMove(w, t) && w.threads[t].progress.Outside? && Awaits(w.threads[t].pc.loc)
    case CrashAndBoot(_, _) => true
  }

  function Put(w: World, t: Tid, th: Thread): World {
    w.(threads := w.threads[t := th])
  }

  /** The lease record a check at loc has just seen, kept from the first check on. */
  function Seen(th: Thread, s: SlotState): Option<LeaseRecord> {
    if th.leased.None? && th.pc.At? && (th.pc.loc.FirstCheck? || th.pc.loc.MarkBooting? || th.pc.loc.Prepare?)
    then s.lease else th.leased
  }

  /** The thread after the write of its section. */
  function Written(dev: Device, th: Thread, s: SlotState): Thread
    requires th.pc.At? && Fits(th.req, dev, th.pc.loc) && IsSection(th.pc.loc)
  {
    var e := Write(th.req, dev, th.env, th.pc.loc, th.tick, s);
    th.(pc := At(AfterWrite(th.req, dev, th.pc.loc, e.state)), progress := Mutated(s, e),
        tick := th.tick + 1, written := th.written + 1, leased := Seen(th, s))
  }

  function Mutating(cfg: Config, w: World, t: Tid): World
    requires Placed(cfg, w, t) && IsSection(w.threads[t].pc.loc)
  {
    var th' := Written(cfg[w.threads[t].key], w.threads[t], w.slots[w.threads[t].key]);
    Put(w, t, th').(slots := w.slots[th'.key := th'.progress.event.state])
  }

  /** The record in memory goes to the file its own address names. */
  function Persisting(w: World, t: Tid): World
    requires CanMove(w, t) && w.threads[t].progress.Mutated?
  {
    var th := w.threads[t];
    var s := w.slots[th.key];
    Put(w, t, th.(progress := Persisted(th.progress.event)))
      .(disk := w.disk[s.Key() := s], stored := w.stored + [Event(th.progress.event.kind, s)])
  }

  function Publishing(w: World, t: Tid): World
    requires CanMove(w, t) && w.threads[t].progress.Unlocked?
  {
    var th := w.threads[t];
    Put(w, t, th.(progress := Outside)).(log := w.log + [th.progress.event])
  }

  ghost function Step(cfg: Config, w: World, l: Label): World
    requires Enabled(cfg, w, l)
  {
    match l
    case Spawn(t, key, req, env) =>
      Put(w, t, Thread(key, req, env, Waiting, Outside, 0, 0, None))
    case Acquire(t) =>
      var th := w.threads[t];
      Put(w, t, th.(pc := At(EntryLoc(th.req))))
        .(guards := w.guards[th.key := Some(t)], order := w.order + [Ticket(th.key, t)])
    case Dismiss(t) =>
      var th := w.threads[t];
      Put(w, t, th.(pc := Dismissed(if th.key in cfg then Cancelled else UnknownDevice)))
    case Answer(t) =>
      var th := w.threads[t];
      Put(w, t, th.(pc := At(AfterAnswer(th.pc.loc, th.env, th.tick)), tick := th.tick + 1))
    case Enter(t) =>
      Put(w, t, w.threads[t].(progress := Locked)).(lock := Some(t))
    case Pass(t) =>
      var th := w.threads[t];
      Put(w, t, th.(pc := At(Inspect), progress := Outside, tick := th.tick + 1, leased := Seen(th, w.slots[th.key])))
        .(lock := None)
    case Refuse(t) =>
      var th := w.threads[t];
      Put(w, t, th.(pc := At(Leaving(Errored(RefusalOf(cfg, w, t).value))), progress := Outside, tick := th.tick + 1))
        .(lock := None)
    case Mutate(t) => Mutating(cfg, w, t)
    case Persist(t) => Persisting(w, t)
    case Unlock(t) =>
      var th := w.threads[t];
      Put(w, t, th.(progress := Unlocked(Event(th.progress.event.kind, w.slots[th.key])))).(lock := None)
    case Publish(t) => Publishing(w, t)
    case Release(t) =>
      var th := w.threads[t];
      Put(w, t, th.(pc := Finished(th.pc.loc.outcome))).(guards := w.guards[th.key := None])
    case Abort(t) =>
      var th := w.threads[t];
      Put(w, t, th.(pc := Aborted)).(guards := w.guards[th.key := None])
    case CrashAndBoot(alive, clock) =>
      Startup(cfg, w.disk, alive, clock)
  }

  // ----- runs -----

  /** State files as the harness itself leaves them: legal records under their own name. */
  ghost predicate CleanDisk(disk: Disk) {
    forall k <- disk :: disk[k].Key() == k && Legal(disk[k])
  }

  ghost predicate Initial(cfg: Config, w: World) {
    exists disk, alive, clock :: CleanDisk(disk) && w == Startup(cfg, disk, alive, clock)
  }

  ghost predicate IsRun(cfg: Config, ws: seq<World>, ls: seq<Label>) {
    && |ws| == |ls| + 1
    && Initial(cfg, ws[0])
    && forall i :: 0 <= i < |ls| ==> Enabled(cfg, ws[i], ls[i]) && ws[i + 1] == Step(cfg, ws[i], ls[i])
  }

  /** Nothing is in flight. */
  predicate Quiet(w: World) {
    forall t <- w.threads :: !w.threads[t].pc.At? && !w.threads[t].pc.Waiting?
  }

  predicate NoAborts(w: World) {
    forall t <- w.threads :: !w.threads[t].pc.Aborted?
  }

  // ----- one slot's part of the shared history -----

  function EventsOf(k: SlotKey, es: seq<Event>): seq<Event> {
    if es == [] then []
    else
      var last := es[|es| - 1];
      EventsOf(k, es[..|es| - 1]) + (if last.state.Key() == k then [last] else [])
  }

  function TicketsOf(k: SlotKey, order: seq<Ticket>): seq<Tid> {
    if order == [] then []
    else
      var last := order[|order| - 1];
      TicketsOf(k, order[..|order| - 1]) + (if last.key == k then [last.tid] else [])
  }

  lemma EventsOfPush(k: SlotKey, es: seq<Event>, e: Event)
    ensures EventsOf(k, es + [e]) == EventsOf(k, es) + (if e.state.Key() == k then [e] else [])
  {
    assert (es + [e])[..|es|] == es;
  }

  lemma TicketsOfPush(k: SlotKey, order: seq<Ticket>, x: Ticket)
    ensures TicketsOf(k, order + [x]) == TicketsOf(k, order) + (if x.key == k then [x.tid] else [])
  {
    assert (order + [x])[..|order|] == order;
  }

  // ----- the serial reference -----

  /** What one operation has written so far when it runs alone from s; everything, once it is complete. */
  function Part(dev: Device, th: Thread, s: SlotState): seq<Event> {
    var writes := Whole(th.req, dev, th.env, s).writes;
    if th.written <= |writes| then writes[..th.written] else writes
  }

  /** Operations on one slot, one after the other. */
  function SerialWrites(dev: Device, s: SlotState, ids: seq<Tid>, threads: map<Tid, Thread>): seq<Event> {
    if ids == [] then []
    else
      var before := SerialWrites(dev, s, ids[..|ids| - 1], threads);
      var t := ids[|ids| - 1];
      before + (if t in threads then Part(dev, threads[t], After(s, before)) else [])
  }

  /** Whole operations applied to the whole slots map, one after the other in guard order. */
  function SerialMap(cfg: Config, slots: map<SlotKey, SlotState>, order: seq<Ticket>, threads: map<Tid, Thread>)
    : map<SlotKey, SlotState>
  {
    if order == [] then slots
    else
      var before := SerialMap(cfg, slots, order[..|order| - 1], threads);
      var x := order[|order| - 1];
      if x.key in cfg && x.key in before && x.tid in threads then
        var th := threads[x.tid];
        before[x.key := After(before[x.key], Whole(th.req, cfg[x.key], th.env, before[x.key]).writes)]
      else before
  }
}
