/** Every micro-step keeps the invariant; hence every reachable world satisfies it. */
module SlotSteps {
  import opened Basics
  import opened SlotModel
  import opened SlotOps
  import opened SlotProtocol
  import opened SlotInvariant

  // ----- putting a step together from its parts -----

  lemma Assemble(cfg: Config, w: World, w': World, t: Tid)
    requires Inv(cfg, w) && Shape(cfg, w') && CleanDisk(w'.disk)
    requires t in w'.threads && w'.threads == w.threads[t := w'.threads[t]]
    requires t in w.threads ==> w'.threads[t].key == w.threads[t].key
    requires w'.lock == w.lock || (w.lock.None? && w'.lock == Some(t)) || (w.lock == Some(t) && w'.lock.None?)
    requires forall k <- cfg :: w.guards[k] != w'.guards[k] ==> w.guards[k] == Some(t) || w.guards[k].None?
    requires forall k <- cfg :: w.slots[k] != w'.slots[k] ==> w.guards[k] == Some(t)
    requires forall k <- cfg :: (t in w.threads ==> k != w.threads[t].key) ==> View(w', k) == View(w, k)
    requires ThreadInv(cfg, w', t)
    requires t in w.threads && w.threads[t].key in cfg ==>
      SlotInv(w.threads[t].key, cfg[w.threads[t].key], View(w', w.threads[t].key), w'.threads)
    ensures Inv(cfg, w')
  {
    OtherThreads(cfg, w, w', t);
    OtherSlots(cfg, w, w', t);
  }

  // ----- the holder's slot -----

  /** The record the holder found when it received the guard. */
  function Found(dev: Device, v: SlotView, threads: map<Tid, Thread>): SlotState
    requires v.ids != []
  {
    After(v.base, SerialWrites(dev, v.base, v.ids[..|v.ids| - 1], threads))
  }

  lemma AfterConcat(s: SlotState, a: seq<Event>, b: seq<Event>)
    ensures After(s, a + b) == After(After(s, a), b)
  {
  }

  /** The holder is last in the queue, and its writes on top of what it found give the record in memory. */
  lemma HolderSees(k: SlotKey, dev: Device, v: SlotView, threads: map<Tid, Thread>, t: Tid)
    requires SlotInv(k, dev, v, threads) && v.holder == Some(t)
    ensures |v.ids| > 0 && v.ids[|v.ids| - 1] == t && t in threads && threads[t].pc.At?
    ensures Faithful(dev, threads[t], Found(dev, v, threads))
    ensures v.slot == After(Found(dev, v, threads), Part(dev, threads[t], Found(dev, v, threads)))
  {
    var before := SerialWrites(dev, v.base, v.ids[..|v.ids| - 1], threads);
    AfterConcat(v.base, before, Part(dev, threads[t], After(v.base, before)));
  }

  /** The queue survives a move of its last member. */
  lemma QueueMoves(k: SlotKey, ids: seq<Tid>, threads: map<Tid, Thread>, t: Tid, th: Thread)
    requires Queue(k, ids, Some(t), threads) && th.key == k
    requires th.pc.At? || th.pc.Finished? || th.pc.Aborted?
    ensures Queue(k, ids, if th.pc.At? then Some(t) else None, threads[t := th])
    ensures |ids| > 0 && ids[|ids| - 1] == t && forall j :: 0 <= j < |ids| - 1 ==> ids[j] in threads && ids[j] != t
  {
  }

  /** When only the last member changes, and stays faithful, the whole history stays serial. */
  lemma SerialMoves(dev: Device, base: SlotState, ids: seq<Tid>, threads: map<Tid, Thread>, t: Tid, th: Thread)
    requires |ids| > 0 && ids[|ids| - 1] == t
    requires forall j :: 0 <= j < |ids| - 1 ==> ids[j] in threads && ids[j] != t
    requires Serial(dev, base, ids, threads)
    requires Faithful(dev, th, After(base, SerialWrites(dev, base, ids[..|ids| - 1], threads)))
    ensures Serial(dev, base, ids, threads[t := th])
    ensures SerialWrites(dev, base, ids[..|ids| - 1], threads[t := th])
         == SerialWrites(dev, base, ids[..|ids| - 1], threads)
  {
    hide Faithful, SerialWrites, After;
    var threads', n := threads[t := th], |ids| - 1;
    SerialStays(dev, base, ids, threads, t, th, n);
    forall j | 0 <= j < |ids|
      ensures ids[j] in threads'
      ensures Faithful(dev, threads'[ids[j]], After(base, SerialWrites(dev, base, ids[..j], threads')))
    {
      SerialStays(dev, base, ids, threads, t, th, j);
    }
  }

  /** What the first j operations wrote does not depend on another one. */
  lemma SerialStays(dev: Device, base: SlotState, ids: seq<Tid>, threads: map<Tid, Thread>, t: Tid, th: Thread, j: nat)
    requires j <= |ids| && forall i :: 0 <= i < j ==> ids[i] in threads && ids[i] != t
    ensures SerialWrites(dev, base, ids[..j], threads[t := th]) == SerialWrites(dev, base, ids[..j], threads)
  {
    SerialFrame(dev, base, ids[..j], threads, threads[t := th]);
  }

  /** A holder that moves without writing keeps the serial history of its slot. */
  lemma HolderMoves(k: SlotKey, dev: Device, v: SlotView, threads: map<Tid, Thread>, t: Tid, th: Thread)
    requires Queue(k, v.ids, Some(t), threads) && Serial(dev, v.base, v.ids, threads)
    requires t in threads && SameWrites(threads[t], th) && th.key == threads[t].key
    requires Faithful(dev, th, Found(dev, v, threads))
    ensures Serial(dev, v.base, v.ids, threads[t := th])
    ensures SerialWrites(dev, v.base, v.ids, threads[t := th]) == SerialWrites(dev, v.base, v.ids, threads)
    ensures Queue(k, v.ids, if th.pc.At? then Some(t) else None, threads[t := th])
  {
    QueueMoves(k, v.ids, threads, t, th);
    SerialMoves(dev, v.base, v.ids, threads, t, th);
  }

  /** A holder that writes e appends e to the serial history of its slot. */
  lemma HolderWrites(k: SlotKey, dev: Device, v: SlotView, threads: map<Tid, Thread>, t: Tid, th: Thread, e: Event)
    requires Queue(k, v.ids, Some(t), threads) && Serial(dev, v.base, v.ids, threads)
    requires t in threads && th.key == k && th.pc.At?
    requires Faithful(dev, th, Found(dev, v, threads))
    requires Part(dev, th, Found(dev, v, threads)) == Part(dev, threads[t], Found(dev, v, threads)) + [e]
    ensures Serial(dev, v.base, v.ids, threads[t := th])
    ensures SerialWrites(dev, v.base, v.ids, threads[t := th]) == SerialWrites(dev, v.base, v.ids, threads) + [e]
    ensures Queue(k, v.ids, Some(t), threads[t := th])
  {
    QueueMoves(k, v.ids, threads, t, th);
    SerialMoves(dev, v.base, v.ids, threads, t, th);
  }

  // ----- the holder stays faithful to its serial run -----

  lemma AnswerFaithful(dev: Device, th: Thread, before: SlotState)
    requires th.pc.At? && Faithful(dev, th, before) && IsQuestion(th.pc.loc)
    ensures Faithful(dev, th.(pc := At(AfterAnswer(th.pc.loc, th.env, th.tick)), tick := th.tick + 1), before)
  {
    var whole := Whole(th.req, dev, th.env, before);
    AnswerKeepsRest(th.req, dev, th.env, th.pc.loc, th.tick, After(before, whole.writes[..th.written]));
  }

  lemma PassFaithful(dev: Device, th: Thread, before: SlotState, leased: Option<LeaseRecord>)
    requires th.pc.At? && th.pc.loc.FirstCheck? && Faithful(dev, th, before)
    requires Refusal(th.req, dev, th.pc.loc, After(before, Part(dev, th, before))).None?
    ensures Faithful(dev, th.(pc := At(Inspect), progress := Outside, tick := th.tick + 1, leased := leased), before)
  {
    CheckKeepsRest(th.req, dev, th.env, th.tick, After(before, Part(dev, th, before)));
  }

  lemma RefuseFaithful(dev: Device, th: Thread, before: SlotState, why: Why)
    requires th.pc.At? && Faithful(dev, th, before)
    requires Refusal(th.req, dev, th.pc.loc, After(before, Part(dev, th, before))) == Some(why)
    ensures Faithful(dev, th.(pc := At(Leaving(Errored(why))), progress := Outside, tick := th.tick + 1), before)
  {
    RefusalEndsRest(th.req, dev, th.env, th.pc.loc, th.tick, After(before, Part(dev, th, before)));
  }

  lemma WriteFaithful(dev: Device, th: Thread, th': Thread, before: SlotState, s: SlotState)
    requires th.pc.At? && Faithful(dev, th, before) && IsSection(th.pc.loc)
    requires s == After(before, Part(dev, th, before)) && Refusal(th.req, dev, th.pc.loc, s).None?
    requires var e := Write(th.req, dev, th.env, th.pc.loc, th.tick, s);
      && th'.req == th.req && th'.env == th.env && th'.tick == th.tick + 1 && th'.written == th.written + 1
      && th'.pc == At(AfterWrite(th.req, dev, th.pc.loc, e.state))
    ensures Faithful(dev, th', before)
    ensures Part(dev, th', before) == Part(dev, th, before) + [Write(th.req, dev, th.env, th.pc.loc, th.tick, s)]
  {
    var whole := Whole(th.req, dev, th.env, before);
    var n := th.written;
    var e := Write(th.req, dev, th.env, th.pc.loc, th.tick, s);
    WritePeelsRest(th.req, dev, th.env, th.pc.loc, th.tick, s);
    var next := Rest(th.req, dev, th.env, th'.pc.loc, th.tick + 1, e.state);
    assert whole.writes == whole.writes[..n] + ([e] + next.writes);
    assert whole.writes[..n + 1] == whole.writes[..n] + [e];
    assert whole.writes == whole.writes[..n + 1] + next.writes;
  }

  lemma EnterFaithful(dev: Device, th: Thread, before: SlotState)
    requires th.pc.At? && Faithful(dev, th, before)
    ensures Faithful(dev, th.(progress := Locked), before)
  {
  }

  lemma AbortFaithful(dev: Device, th: Thread, before: SlotState)
    requires th.pc.At? && Faithful(dev, th, before)
    ensures Faithful(dev, th.(pc := Aborted), before)
  {
  }

  lemma ReleaseFaithful(dev: Device, th: Thread, before: SlotState)
    requires th.pc.At? && th.pc.loc.Leaving? && Faithful(dev, th, before)
    ensures Faithful(dev, th.(pc := Finished(th.pc.loc.outcome)), before)
  {
    var whole := Whole(th.req, dev, th.env, before);
    assert |whole.writes| == |whole.writes[..th.written]|;
  }

  // ----- steps that move the holder and leave records, files and history alone -----

  lemma HolderSlot(k: SlotKey, dev: Device, v: SlotView, threads: map<Tid, Thread>, t: Tid, th: Thread)
    requires SlotInv(k, dev, v, threads) && v.holder == Some(t) && t in threads
    requires SameWrites(threads[t], th) && th.key == threads[t].key
    requires Faithful(dev, th, Found(dev, v, threads))
    requires threads[t].progress.Outside? || threads[t].progress.Locked?
    requires th.progress.Outside? || th.progress.Locked?
    ensures SlotInv(k, dev, v.(holder := if th.pc.At? then Some(t) else None), threads[t := th])
  {
    HolderMoves(k, dev, v, threads, t, th);
  }

  /** w' is w with thread t replaced, and with the two locks possibly passed on. */
  ghost predicate Moved(w: World, w': World, t: Tid)
    requires t in w.threads
  {
    && t in w'.threads && w'.threads == w.threads[t := w'.threads[t]] && w'.threads[t].key == w.threads[t].key
    && w'.slots == w.slots && w'.base == w.base && w'.order == w.order
    && w'.disk == w.disk && w'.stored == w.stored && w'.log == w.log
    && w'.guards.Keys == w.guards.Keys
    && (forall k <- w.guards :: k != w.threads[t].key ==> w'.guards[k] == w.guards[k])
    && (w'.lock == w.lock || (w.lock.None? && w'.lock == Some(t)) || (w.lock == Some(t) && w'.lock.None?))
  }

  /** What the holder t of a slot knows about the slot's history. */
  lemma Holder(cfg: Config, w: World, t: Tid)
    requires Inv(cfg, w) && t in w.threads && w.threads[t].pc.At?
    ensures Shape(cfg, w) && CleanDisk(w.disk) && ThreadInv(cfg, w, t)
    ensures var k := w.threads[t].key;
      && k in cfg && SlotInv(k, cfg[k], View(w, k), w.threads)
      && View(w, k).holder == Some(t) && View(w, k).ids != []
      && Faithful(cfg[k], w.threads[t], Found(cfg[k], View(w, k), w.threads))
      && w.slots[k] == After(Found(cfg[k], View(w, k), w.threads),
                             Part(cfg[k], w.threads[t], Found(cfg[k], View(w, k), w.threads)))
  {
    assert ThreadInv(cfg, w, t);
    var k := w.threads[t].key;
    HolderSees(k, cfg[k], View(w, k), w.threads, t);
  }

  predicate Unwritten(p: Progress) {
    p.Outside? || p.Locked?
  }

  lemma MovedViews(cfg: Config, w: World, w': World, t: Tid)
    requires t in w.threads && Moved(w, w', t) && Shape(cfg, w)
    ensures Shape(cfg, w')
    ensures forall j <- cfg :: j != w.threads[t].key ==> View(w', j) == View(w, j)
    ensures w.threads[t].key in cfg ==>
      View(w', w.threads[t].key) == View(w, w.threads[t].key).(holder := w'.guards[w.threads[t].key])
  {
  }

  lemma HolderStep(cfg: Config, w: World, w': World, t: Tid)
    requires Inv(cfg, w) && t in w.threads && w.threads[t].pc.At? && Moved(w, w', t)
    requires SameWrites(w.threads[t], w'.threads[t])
    requires Unwritten(w.threads[t].progress) && Unwritten(w'.threads[t].progress)
    requires w.threads[t].key in w'.guards ==>
      w'.guards[w.threads[t].key] == if w'.threads[t].pc.At? then Some(t) else None
    requires ThreadInv(cfg, w', t)
    requires w.threads[t].key in cfg ==>
      Faithful(cfg[w.threads[t].key], w'.threads[t], Found(cfg[w.threads[t].key], View(w, w.threads[t].key), w.threads))
    ensures Inv(cfg, w')
  {
    hide Inv, ThreadInv, SlotInv, Faithful, SameWrites;
    Holder(cfg, w, t);
    var k := w.threads[t].key;
    HolderSlot(k, cfg[k], View(w, k), w.threads, t, w'.threads[t]);
    MovedViews(cfg, w, w', t);
    Assemble(cfg, w, w', t);
  }

  lemma AnswerStanding(dev: Device, th: Thread, s: SlotState)
    requires th.pc.At? && Fits(th.req, dev, th.pc.loc) && IsQuestion(th.pc.loc) && Standing(dev, th, s)
    ensures var th' := th.(pc := At(AfterAnswer(th.pc.loc, th.env, th.tick)), tick := th.tick + 1);
      Fits(th'.req, dev, th'.pc.loc) && Standing(dev, th', s)
  {
    AnswerKeepsRest(th.req, dev, th.env, th.pc.loc, th.tick, s);
    hide Rest;
  }

  lemma AnswerThread(cfg: Config, w: World, t: Tid)
    requires Shape(cfg, w) && Enabled(cfg, w, Answer(t)) && ThreadInv(cfg, w, t)
    ensures var th := w.threads[t];
      Step(cfg, w, Answer(t)).threads[t] == th.(pc := At(AfterAnswer(th.pc.loc, th.env, th.tick)), tick := th.tick + 1)
    ensures var w' := Step(cfg, w, Answer(t));
      && Moved(w, w', t) && ThreadInv(cfg, w', t) && SameWrites(w.threads[t], w'.threads[t])
      && Unwritten(w.threads[t].progress) && Unwritten(w'.threads[t].progress)
      && w'.guards[w.threads[t].key] == (if w'.threads[t].pc.At? then Some(t) else None)
  {
    var th := w.threads[t];
    AnswerStanding(cfg[th.key], th, w.slots[th.key]);
    hide AfterAnswer, Standing, Fits, LeaseMove, Write, AfterWrite, Refusal, Startup;
  }

  lemma AnswerStep(cfg: Config, w: World, t: Tid)
    requires Inv(cfg, w) && Enabled(cfg, w, Answer(t))
    ensures Inv(cfg, Step(cfg, w, Answer(t)))
  {
    hide Inv, ThreadInv, SlotInv, Faithful, SameWrites;
    Holder(cfg, w, t);
    AnswerThread(cfg, w, t);
    var th := w.threads[t];
    var dev := cfg[th.key];
    var before := Found(dev, View(w, th.key), w.threads);
    AnswerFaithful(dev, th, before);
    HolderStep(cfg, w, Step(cfg, w, Answer(t)), t);
  }

  lemma EnterThread(cfg: Config, w: World, t: Tid)
    requires Shape(cfg, w) && Enabled(cfg, w, Enter(t)) && ThreadInv(cfg, w, t)
    ensures var w' := Step(cfg, w, Enter(t));
      && Moved(w, w', t) && ThreadInv(cfg, w', t) && SameWrites(w.threads[t], w'.threads[t])
      && Unwritten(w.threads[t].progress) && Unwritten(w'.threads[t].progress)
      && w'.guards[w.threads[t].key] == (if w'.threads[t].pc.At? then Some(t) else None)
  {
  }

  lemma EnterStep(cfg: Config, w: World, t: Tid)
    requires Inv(cfg, w) && Enabled(cfg, w, Enter(t))
    ensures Inv(cfg, Step(cfg, w, Enter(t)))
  {
    hide Inv, ThreadInv, SlotInv, Faithful, SameWrites;
    Holder(cfg, w, t);
    EnterThread(cfg, w, t);
    var th := w.threads[t];
    var dev := cfg[th.key];
    EnterFaithful(dev, th, Found(dev, View(w, th.key), w.threads));
    HolderStep(cfg, w, Step(cfg, w, Enter(t)), t);
  }

  lemma PassThread(cfg: Config, w: World, t: Tid)
    requires Shape(cfg, w) && Enabled(cfg, w, Pass(t)) && ThreadInv(cfg, w, t)
    ensures var w' := Step(cfg, w, Pass(t));
      && Moved(w, w', t) && ThreadInv(cfg, w', t) && SameWrites(w.threads[t], w'.threads[t])
      && Unwritten(w.threads[t].progress) && Unwritten(w'.threads[t].progress)
      && w'.guards[w.threads[t].key] == (if w'.threads[t].pc.At? then Some(t) else None)
  {
  }

  lemma PassStep(cfg: Config, w: World, t: Tid)
    requires Inv(cfg, w) && Enabled(cfg, w, Pass(t))
    ensures Inv(cfg, Step(cfg, w, Pass(t)))
  {
    hide Inv, ThreadInv, SlotInv, Faithful, SameWrites;
    Holder(cfg, w, t);
    PassThread(cfg, w, t);
    var th := w.threads[t];
    var dev := cfg[th.key];
    var before := Found(dev, View(w, th.key), w.threads);
    PassFaithful(dev, th, before, Seen(th, w.slots[th.key]));
    HolderStep(cfg, w, Step(cfg, w, Pass(t)), t);
  }

  lemma RefuseThread(cfg: Config, w: World, t: Tid)
    requires Shape(cfg, w) && Enabled(cfg, w, Refuse(t)) && ThreadInv(cfg, w, t)
    ensures var w' := Step(cfg, w, Refuse(t));
      && Moved(w, w', t) && ThreadInv(cfg, w', t) && SameWrites(w.threads[t], w'.threads[t])
      && Unwritten(w.threads[t].progress) && Unwritten(w'.threads[t].progress)
      && w'.guards[w.threads[t].key] == (if w'.threads[t].pc.At? then Some(t) else None)
  {
  }

  lemma RefuseStep(cfg: Config, w: World, t: Tid)
    requires Inv(cfg, w) && Enabled(cfg, w, Refuse(t))
    ensures Inv(cfg, Step(cfg, w, Refuse(t)))
  {
    hide Inv, ThreadInv, SlotInv, Faithful, SameWrites;
    Holder(cfg, w, t);
    RefuseThread(cfg, w, t);
    var th := w.threads[t];
    var dev := cfg[th.key];
    var before := Found(dev, View(w, th.key), w.threads);
    RefuseFaithful(dev, th, before, RefusalOf(cfg, w, t).value);
    HolderStep(cfg, w, Step(cfg, w, Refuse(t)), t);
  }

  lemma ReleaseThread(cfg: Config, w: World, t: Tid)
    requires Shape(cfg, w) && Enabled(cfg, w, Release(t)) && ThreadInv(cfg, w, t)
    ensures var w' := Step(cfg, w, Release(t));
      && Moved(w, w', t) && ThreadInv(cfg, w', t) && SameWrites(w.threads[t], w'.threads[t])
      && Unwritten(w.threads[t].progress) && Unwritten(w'.threads[t].progress)
      && w'.guards[w.threads[t].key] == (if w'.threads[t].pc.At? then Some(t) else None)
  {
  }

  lemma ReleaseStep(cfg: Config, w: World, t: Tid)
    requires Inv(cfg, w) && Enabled(cfg, w, Release(t))
    ensures Inv(cfg, Step(cfg, w, Release(t)))
  {
    hide Inv, ThreadInv, SlotInv, Faithful, SameWrites;
    Holder(cfg, w, t);
    ReleaseThread(cfg, w, t);
    var th := w.threads[t];
    var dev := cfg[th.key];
    var before := Found(dev, View(w, th.key), w.threads);
    ReleaseFaithful(dev, th, before);
    HolderStep(cfg, w, Step(cfg, w, Release(t)), t);
  }

  lemma AbortThread(cfg: Config, w: World, t: Tid)
    requires Shape(cfg, w) && Enabled(cfg, w, Abort(t)) && ThreadInv(cfg, w, t)
    ensures var w' := Step(cfg, w, Abort(t));
      && Moved(w, w', t) && ThreadInv(cfg, w', t) && SameWrites(w.threads[t], w'.threads[t])
      && Unwritten(w.threads[t].progress) && Unwritten(w'.threads[t].progress)
      && w'.guards[w.threads[t].key] == (if w'.threads[t].pc.At? then Some(t) else None)
  {
  }

  lemma AbortStep(cfg: Config, w: World, t: Tid)
    requires Inv(cfg, w) && Enabled(cfg, w, Abort(t))
    ensures Inv(cfg, Step(cfg, w, Abort(t)))
  {
    hide Inv, ThreadInv, SlotInv, Faithful, SameWrites;
    Holder(cfg, w, t);
    AbortThread(cfg, w, t);
    var th := w.threads[t];
    var dev := cfg[th.key];
    AbortFaithful(dev, th, Found(dev, View(w, th.key), w.threads));
    HolderStep(cfg, w, Step(cfg, w, Abort(t)), t);
  }

  // ----- the four steps of a section -----

  /** Steps inside a section change one slot's record, file or history, and one thread. */
  ghost predicate Wrote(cfg: Config, w: World, w': World, t: Tid)
    requires t in w.threads
  {
    var k := w.threads[t].key;
    && t in w'.threads && w'.threads == w.threads[t := w'.threads[t]] && w'.threads[t].key == k
    && w'.base == w.base && w'.order == w.order && w'.guards == w.guards
    && w'.slots.Keys == w.slots.Keys && (forall j <- w.slots :: j != k ==> w'.slots[j] == w.slots[j])
    && (w'.lock == w.lock || (w.lock == Some(t) && w'.lock.None?))
    && (forall j <- cfg :: j != k ==>
          && EventsOf(j, w'.log) == EventsOf(j, w.log) && EventsOf(j, w'.stored) == EventsOf(j, w.stored)
          && (j in w'.disk <==> j in w.disk) && (j in w.disk ==> w'.disk[j] == w.disk[j]))
  }

  lemma SectionStep(cfg: Config, w: World, w': World, t: Tid)
    requires Inv(cfg, w) && t in w.threads && w.threads[t].pc.At? && Wrote(cfg, w, w', t)
    requires CleanDisk(w'.disk) && ThreadInv(cfg, w', t)
    requires var k := w.threads[t].key;
      k in cfg && k in w'.slots && k in w'.base && k in w'.guards ==>
        SlotInv(k, cfg[k], View(w', k), w'.threads)
    ensures Inv(cfg, w')
  {
    hide Inv, ThreadInv, SlotInv, Faithful, CleanDisk;
    Holder(cfg, w, t);
    HolderHasGuard(cfg, w, t);
    Assemble(cfg, w, w', t);
  }

  lemma HolderHasGuard(cfg: Config, w: World, t: Tid)
    requires t in w.threads && w.threads[t].pc.At? && ThreadInv(cfg, w, t)
    ensures w.threads[t].key in w.guards && w.guards[w.threads[t].key] == Some(t)
  {
  }

  /** The written record is legal, keeps its address, and moves the lease only by a release. */
  lemma WriteLegal(dev: Device, th: Thread, s: SlotState)
    requires th.pc.At? && Fits(th.req, dev, th.pc.loc) && IsSection(th.pc.loc) && Standing(dev, th, s) && Legal(s)
    requires Refusal(th.req, dev, th.pc.loc, s).None?
    ensures var s' := Write(th.req, dev, th.env, th.pc.loc, th.tick, s).state;
      Legal(s') && s'.Key() == s.Key() && LeaseMove(th.req, s, s')
  {
  }

  lemma WriteStanding(dev: Device, th: Thread, s: SlotState)
    requires th.pc.At? && Fits(th.req, dev, th.pc.loc) && IsSection(th.pc.loc) && Standing(dev, th, s)
    requires Refusal(th.req, dev, th.pc.loc, s).None?
    ensures var th' := Written(dev, th, s);
      Fits(th'.req, dev, th'.pc.loc) && Standing(dev, th', th'.progress.event.state)
  {
    WritePeelsRest(th.req, dev, th.env, th.pc.loc, th.tick, s);
  }

  lemma MutateIs(cfg: Config, w: World, t: Tid)
    requires Enabled(cfg, w, Mutate(t))
    ensures Step(cfg, w, Mutate(t)) == Mutating(cfg, w, t)
  {
  }

  lemma MutateThread(cfg: Config, w: World, t: Tid)
    requires Shape(cfg, w) && Placed(cfg, w, t) && ThreadInv(cfg, w, t)
    requires IsSection(w.threads[t].pc.loc) && w.threads[t].progress.Locked? && RefusalOf(cfg, w, t).None?
    requires Legal(w.slots[w.threads[t].key])
    ensures var w' := Mutating(cfg, w, t);
      Wrote(cfg, w, w', t) && w'.disk == w.disk && ThreadInv(cfg, w', t)
  {
    var th := w.threads[t];
    hide Write, AfterWrite, Refusal, Standing, LeaseMove, Legal, AfterAnswer, Startup;
    WriteStanding(cfg[th.key], th, w.slots[th.key]);
    WriteLegal(cfg[th.key], th, w.slots[th.key]);
  }

  lemma MutateView(cfg: Config, w: World, t: Tid)
    requires Shape(cfg, w) && Placed(cfg, w, t) && ThreadInv(cfg, w, t)
    requires IsSection(w.threads[t].pc.loc) && w.threads[t].progress.Locked? && RefusalOf(cfg, w, t).None?
    ensures var w' := Mutating(cfg, w, t);
      var k := w.threads[t].key;
      var th' := Written(cfg[k], w.threads[t], w.slots[k]);
      w'.threads[t] == th' && View(w', k) == View(w, k).(slot := th'.progress.event.state)
  {
    hide Write, AfterWrite, Refusal, Standing, LeaseMove, Legal;
  }

  lemma MutateSlot(k: SlotKey, dev: Device, v: SlotView, threads: map<Tid, Thread>, t: Tid)
    requires SlotInv(k, dev, v, threads) && v.holder == Some(t) && t in threads && threads[t].key == k
    requires threads[t].pc.At? && Fits(threads[t].req, dev, threads[t].pc.loc) && IsSection(threads[t].pc.loc)
    requires Standing(dev, threads[t], v.slot) && threads[t].progress.Locked?
    requires Refusal(threads[t].req, dev, threads[t].pc.loc, v.slot).None?
    ensures var th' := Written(dev, threads[t], v.slot);
      SlotInv(k, dev, v.(slot := th'.progress.event.state), threads[t := th'])
  {
    var th := threads[t];
    var th' := Written(dev, th, v.slot);
    var e := th'.progress.event;
    HolderSees(k, dev, v, threads, t);
    WriteFaithful(dev, th, th', Found(dev, v, threads), v.slot);
    WriteLegal(dev, th, v.slot);
    hide Write, AfterWrite, Refusal, Standing, LeaseMove, Legal, Faithful, Fits, Part;
    HolderWrites(k, dev, v, threads, t, th', e);
    AfterConcat(v.base, SerialWrites(dev, v.base, v.ids, threads), [e]);
  }

  lemma MutateStep(cfg: Config, w: World, t: Tid)
    requires Inv(cfg, w) && Enabled(cfg, w, Mutate(t))
    ensures Inv(cfg, Step(cfg, w, Mutate(t)))
  {
    Holder(cfg, w, t);
    var k := w.threads[t].key;
    assert Standing(cfg[k], w.threads[t], w.slots[k]) && Legal(w.slots[k]);
    MutateIs(cfg, w, t);
    hide Inv, ThreadInv, SlotInv, Faithful, CleanDisk, Standing, Legal, Wrote, Step, Mutating;
    MutateThread(cfg, w, t);
    MutateView(cfg, w, t);
    MutateSlot(k, cfg[k], View(w, k), w.threads, t);
    SectionStep(cfg, w, Step(cfg, w, Mutate(t)), t);
  }

  /** An event of one slot is none of any other. */
  lemma OthersUnsent(cfg: Config, es: seq<Event>, e: Event, k: SlotKey)
    requires e.state.Key() == k
    ensures forall j <- cfg :: j != k ==> EventsOf(j, es + [e]) == EventsOf(j, es)
  {
    forall j <- cfg | j != k ensures EventsOf(j, es + [e]) == EventsOf(j, es) {
      EventsOfPush(j, es, e);
    }
  }

  lemma ProgressFaithful(dev: Device, th: Thread, before: SlotState, progress: Progress)
    requires Faithful(dev, th, before)
    ensures Faithful(dev, th.(progress := progress), before)
  {
  }

  /** The event a section carries is the record in memory. */
  lemma EventInHand(k: SlotKey, dev: Device, v: SlotView, threads: map<Tid, Thread>, t: Tid)
    requires SlotInv(k, dev, v, threads) && v.holder == Some(t) && t in threads
    ensures v.slot.Key() == k && Legal(v.slot)
    ensures var p := threads[t].progress;
      (p.Mutated? || p.Persisted? || p.Unlocked?) ==> p.event.state == v.slot
  {
  }

  lemma PersistIs(cfg: Config, w: World, t: Tid)
    requires Enabled(cfg, w, Persist(t))
    ensures Step(cfg, w, Persist(t)) == Persisting(w, t)
  {
  }

  lemma PersistThread(cfg: Config, w: World, t: Tid)
    requires Shape(cfg, w) && Enabled(cfg, w, Persist(t)) && ThreadInv(cfg, w, t) && CleanDisk(w.disk)
    requires w.slots[w.threads[t].key].Key() == w.threads[t].key && Legal(w.slots[w.threads[t].key])
    ensures CleanDisk(Step(cfg, w, Persist(t)).disk) && ThreadInv(cfg, Step(cfg, w, Persist(t)), t)
    ensures w.threads[t].progress.Persisted? ==> w.lock == Some(t)
  {
    hide Legal, Fits, LeaseMove;
  }

  lemma PersistWrote(cfg: Config, w: World, t: Tid)
    requires Shape(cfg, w) && CanMove(w, t) && w.threads[t].progress.Mutated?
    requires var th := w.threads[t];
      var s := w.slots[th.key];
      th.progress.event.state == s && s.Key() == th.key
    ensures Wrote(cfg, w, Persisting(w, t), t)
    ensures Persisting(w, t).threads[t] == w.threads[t].(progress := Persisted(w.threads[t].progress.event))
  {
    hide EventsOf, TicketsOf;
    var th := w.threads[t];
    OthersUnsent(cfg, w.stored, Event(th.progress.event.kind, w.slots[th.key]), th.key);
  }

  lemma PersistView(cfg: Config, w: World, t: Tid)
    requires Shape(cfg, w) && CanMove(w, t) && w.threads[t].progress.Mutated?
    requires var th := w.threads[t];
      var s := w.slots[th.key];
      th.progress.event.state == s && s.Key() == th.key
    requires w.threads[t].key in cfg
    ensures var th := w.threads[t];
      var v := View(w, th.key);
      View(Persisting(w, t), th.key) == v.(file := Some(v.slot), stored := v.stored + [th.progress.event])
  {
    hide EventsOf, TicketsOf;
    var th := w.threads[t];
    EventsOfPush(th.key, w.stored, Event(th.progress.event.kind, w.slots[th.key]));
  }

  lemma PersistSlot(k: SlotKey, dev: Device, v: SlotView, threads: map<Tid, Thread>, t: Tid)
    requires SlotInv(k, dev, v, threads) && v.holder == Some(t) && t in threads && threads[t].key == k
    requires threads[t].progress.Mutated?
    ensures var th := threads[t];
      SlotInv(k, dev, v.(file := Some(v.slot), stored := v.stored + [th.progress.event]),
              threads[t := th.(progress := Persisted(th.progress.event))])
  {
    var th := threads[t];
    var th' := th.(progress := Persisted(th.progress.event));
    HolderSees(k, dev, v, threads, t);
    ProgressFaithful(dev, th, Found(dev, v, threads), Persisted(th.progress.event));
    hide Faithful, Legal, Fits, Part;
    HolderMoves(k, dev, v, threads, t, th');
  }

  lemma PersistStep(cfg: Config, w: World, t: Tid)
    requires Inv(cfg, w) && Enabled(cfg, w, Persist(t))
    ensures Inv(cfg, Step(cfg, w, Persist(t)))
  {
    Holder(cfg, w, t);
    var k := w.threads[t].key;
    EventInHand(k, cfg[k], View(w, k), w.threads, t);
    PersistIs(cfg, w, t);
    hide Inv, ThreadInv, SlotInv, Faithful, CleanDisk, Standing, Legal, Wrote, Step, Persisting;
    PersistThread(cfg, w, t);
    PersistWrote(cfg, w, t);
    PersistView(cfg, w, t);
    PersistSlot(k, cfg[k], View(w, k), w.threads, t);
    SectionStep(cfg, w, Step(cfg, w, Persist(t)), t);
  }

  lemma UnlockThread(cfg: Config, w: World, t: Tid)
    requires Shape(cfg, w) && Enabled(cfg, w, Unlock(t)) && ThreadInv(cfg, w, t) && CleanDisk(w.disk)
    requires w.slots[w.threads[t].key].Key() == w.threads[t].key && Legal(w.slots[w.threads[t].key])
    ensures CleanDisk(Step(cfg, w, Unlock(t)).disk) && ThreadInv(cfg, Step(cfg, w, Unlock(t)), t)
    ensures w.threads[t].progress.Persisted? ==> w.lock == Some(t)
  {
    hide Legal, Fits, LeaseMove;
  }

  lemma UnlockView(cfg: Config, w: World, t: Tid)
    requires Shape(cfg, w) && Enabled(cfg, w, Unlock(t)) && (w.threads[t].progress.Persisted? ==> w.lock == Some(t))
    requires var th := w.threads[t];
      var s := w.slots[th.key];
      th.progress.event.state == s && s.Key() == th.key && Legal(s)
    ensures var w' := Step(cfg, w, Unlock(t));
      var th := w.threads[t];
      var v := View(w, th.key);
      && Wrote(cfg, w, w', t)
      && w'.threads[t] == th.(progress := Unlocked(th.progress.event))
      && View(w', th.key) == v
  {
    hide Legal, ThreadInv, CleanDisk;
    var th := w.threads[t];
  }

  lemma UnlockSlot(k: SlotKey, dev: Device, v: SlotView, threads: map<Tid, Thread>, t: Tid)
    requires SlotInv(k, dev, v, threads) && v.holder == Some(t) && t in threads && threads[t].key == k
    requires threads[t].progress.Persisted?
    ensures var th := threads[t];
      SlotInv(k, dev, v, threads[t := th.(progress := Unlocked(th.progress.event))])
  {
    var th := threads[t];
    var th' := th.(progress := Unlocked(th.progress.event));
    HolderSees(k, dev, v, threads, t);
    ProgressFaithful(dev, th, Found(dev, v, threads), Unlocked(th.progress.event));
    hide Faithful, Legal, Fits, Part;
    HolderMoves(k, dev, v, threads, t, th');
  }

  lemma UnlockStep(cfg: Config, w: World, t: Tid)
    requires Inv(cfg, w) && Enabled(cfg, w, Unlock(t))
    ensures Inv(cfg, Step(cfg, w, Unlock(t)))
  {
    Holder(cfg, w, t);
    var k := w.threads[t].key;
    EventInHand(k, cfg[k], View(w, k), w.threads, t);
    hide Inv, ThreadInv, SlotInv, Faithful, CleanDisk, Standing, Legal, Wrote, Step;
    UnlockThread(cfg, w, t);
    UnlockView(cfg, w, t);
    UnlockSlot(k, cfg[k], View(w, k), w.threads, t);
    SectionStep(cfg, w, Step(cfg, w, Unlock(t)), t);
  }

  lemma PublishIs(cfg: Config, w: World, t: Tid)
    requires Enabled(cfg, w, Publish(t))
    ensures Step(cfg, w, Publish(t)) == Publishing(w, t)
  {
  }

  lemma PublishThread(cfg: Config, w: World, t: Tid)
    requires Shape(cfg, w) && Enabled(cfg, w, Publish(t)) && ThreadInv(cfg, w, t) && CleanDisk(w.disk)
    requires w.slots[w.threads[t].key].Key() == w.threads[t].key && Legal(w.slots[w.threads[t].key])
    ensures CleanDisk(Step(cfg, w, Publish(t)).disk) && ThreadInv(cfg, Step(cfg, w, Publish(t)), t)
    ensures w.threads[t].progress.Persisted? ==> w.lock == Some(t)
  {
    hide Legal, Fits, LeaseMove;
  }

  lemma PublishWrote(cfg: Config, w: World, t: Tid)
    requires Shape(cfg, w) && CanMove(w, t) && w.threads[t].progress.Unlocked?
    requires var th := w.threads[t];
      var s := w.slots[th.key];
      th.progress.event.state == s && s.Key() == th.key
    ensures Wrote(cfg, w, Publishing(w, t), t)
    ensures Publishing(w, t).threads[t] == w.threads[t].(progress := Outside)
  {
    hide EventsOf, TicketsOf;
    var th := w.threads[t];
    OthersUnsent(cfg, w.log, th.progress.event, th.key);
  }

  lemma PublishView(cfg: Config, w: World, t: Tid)
    requires Shape(cfg, w) && CanMove(w, t) && w.threads[t].progress.Unlocked?
    requires var th := w.threads[t];
      var s := w.slots[th.key];
      th.progress.event.state == s && s.Key() == th.key
    requires w.threads[t].key in cfg
    ensures var th := w.threads[t];
      var v := View(w, th.key);
      View(Publishing(w, t), th.key) == v.(sent := v.sent + [th.progress.event])
  {
    hide EventsOf, TicketsOf;
    var th := w.threads[t];
    EventsOfPush(th.key, w.log, th.progress.event);
  }

  lemma PublishSlot(k: SlotKey, dev: Device, v: SlotView, threads: map<Tid, Thread>, t: Tid)
    requires SlotInv(k, dev, v, threads) && v.holder == Some(t) && t in threads && threads[t].key == k
    requires threads[t].progress.Unlocked?
    ensures var th := threads[t];
      SlotInv(k, dev, v.(sent := v.sent + [th.progress.event]), threads[t := th.(progress := Outside)])
  {
    var th := threads[t];
    var th' := th.(progress := Outside);
    HolderSees(k, dev, v, threads, t);
    ProgressFaithful(dev, th, Found(dev, v, threads), Outside);
    hide Faithful, Legal, Fits, Part;
    HolderMoves(k, dev, v, threads, t, th');
  }

  lemma PublishStep(cfg: Config, w: World, t: Tid)
    requires Inv(cfg, w) && Enabled(cfg, w, Publish(t))
    ensures Inv(cfg, Step(cfg, w, Publish(t)))
  {
    Holder(cfg, w, t);
    var k := w.threads[t].key;
    EventInHand(k, cfg[k], View(w, k), w.threads, t);
    PublishIs(cfg, w, t);
    hide Inv, ThreadInv, SlotInv, Faithful, CleanDisk, Standing, Legal, Wrote, Step, Publishing;
    PublishThread(cfg, w, t);
    PublishWrote(cfg, w, t);
    PublishView(cfg, w, t);
    PublishSlot(k, cfg[k], View(w, k), w.threads, t);
    SectionStep(cfg, w, Step(cfg, w, Publish(t)), t);
  }

  // ----- operations come and go; the runtime starts -----

  lemma SpawnStep(cfg: Config, w: World, l: Label)
    requires Inv(cfg, w) && l.Spawn? && Enabled(cfg, w, l)
    ensures Inv(cfg, Step(cfg, w, l))
  {
    hide SlotInv;
    Assemble(cfg, w, Step(cfg, w, l), l.tid);
  }

  lemma DismissThread(cfg: Config, w: World, t: Tid)
    requires Shape(cfg, w) && Enabled(cfg, w, Dismiss(t)) && ThreadInv(cfg, w, t)
    ensures var w' := Step(cfg, w, Dismiss(t));
      ThreadInv(cfg, w', t) && (forall k <- cfg :: View(w', k) == View(w, k))
  {
  }

  lemma DismissStep(cfg: Config, w: World, t: Tid)
    requires Inv(cfg, w) && Enabled(cfg, w, Dismiss(t))
    ensures Inv(cfg, Step(cfg, w, Dismiss(t)))
  {
    var w' := Step(cfg, w, Dismiss(t));
    var k := w.threads[t].key;
    assert ThreadInv(cfg, w, t) && CleanDisk(w.disk) && Shape(cfg, w);
    assert k in cfg ==> SlotInv(k, cfg[k], View(w, k), w.threads);
    hide Inv, SlotInv, ThreadInv, CleanDisk;
    DismissThread(cfg, w, t);
    if k in cfg {
      UnqueuedSlot(k, cfg[k], View(w, k), w.threads, t, w'.threads[t]);
    }
    Assemble(cfg, w, w', t);
  }

  /** A waiting operation is in no queue, so what becomes of it does not show in its slot. */
  lemma UnqueuedSlot(k: SlotKey, dev: Device, v: SlotView, threads: map<Tid, Thread>, t: Tid, th: Thread)
    requires SlotInv(k, dev, v, threads) && t in threads && threads[t].pc.Waiting?
    ensures t !in v.ids && SlotInv(k, dev, v, threads[t := th])
  {
    assert forall u <- v.ids :: u in threads && u != t;
    OtherSlot(k, dev, v, threads, threads[t := th]);
  }

  lemma QueueGrows(k: SlotKey, ids: seq<Tid>, threads: map<Tid, Thread>, t: Tid, th: Thread)
    requires Queue(k, ids, None, threads) && t !in ids && th.key == k && th.pc.At?
    ensures Queue(k, ids + [t], Some(t), threads[t := th])
  {
  }

  lemma SerialGrows(dev: Device, base: SlotState, ids: seq<Tid>, threads: map<Tid, Thread>, t: Tid)
    requires Serial(dev, base, ids, threads) && t in threads
    requires Faithful(dev, threads[t], After(base, SerialWrites(dev, base, ids, threads)))
    ensures Serial(dev, base, ids + [t], threads)
    ensures SerialWrites(dev, base, ids + [t], threads) ==
      SerialWrites(dev, base, ids, threads) + Part(dev, threads[t], After(base, SerialWrites(dev, base, ids, threads)))
  {
    var ids' := ids + [t];
    assert ids'[..|ids|] == ids;
    forall j | 0 <= j < |ids'|
      ensures ids'[j] in threads
      ensures Faithful(dev, threads[ids'[j]], After(base, SerialWrites(dev, base, ids'[..j], threads)))
    {
      if j < |ids| {
        assert ids'[..j] == ids[..j];
      }
    }
  }

  lemma AcquireSlot(k: SlotKey, dev: Device, v: SlotView, threads: map<Tid, Thread>, t: Tid, th: Thread)
    requires SlotInv(k, dev, v, threads) && v.holder.None? && t in threads && threads[t].pc.Waiting?
    requires th.key == k && th.written == 0 && th.tick == 0 && th.progress.Outside? && th.pc == At(EntryLoc(th.req))
    ensures SlotInv(k, dev, v.(holder := Some(t), ids := v.ids + [t]), threads[t := th])
  {
    UnqueuedSlot(k, dev, v, threads, t, th);
    EntryFaithful(dev, th, After(v.base, SerialWrites(dev, v.base, v.ids, threads[t := th])));
    hide Faithful, Part, Legal;
    QueueGrows(k, v.ids, threads, t, th);
    SerialGrows(dev, v.base, v.ids, threads[t := th], t);
  }

  lemma EntryFaithful(dev: Device, th: Thread, before: SlotState)
    requires th.pc == At(EntryLoc(th.req)) && th.written == 0 && th.tick == 0
    ensures Faithful(dev, th, before) && Part(dev, th, before) == []
  {
    EntryIsWhole(th.req, dev, th.env, before);
    assert Whole(th.req, dev, th.env, before).writes[..0] == [];
  }

  lemma AcquireViews(cfg: Config, w: World, t: Tid)
    requires Shape(cfg, w) && Enabled(cfg, w, Acquire(t))
    ensures var w' := Step(cfg, w, Acquire(t));
      var k := w.threads[t].key;
      && (forall j <- cfg :: j != k ==> View(w', j) == View(w, j))
      && View(w', k) == View(w, k).(holder := Some(t), ids := View(w, k).ids + [t])
  {
    var w' := Step(cfg, w, Acquire(t));
    var k := w.threads[t].key;
    forall j <- cfg ensures TicketsOf(j, w'.order) == TicketsOf(j, w.order) + (if k == j then [t] else []) {
      TicketsOfPush(j, w.order, Ticket(k, t));
    }
  }

  lemma AcquireThread(cfg: Config, w: World, t: Tid)
    requires Shape(cfg, w) && Enabled(cfg, w, Acquire(t)) && ThreadInv(cfg, w, t)
    ensures var w' := Step(cfg, w, Acquire(t));
      Shape(cfg, w') && ThreadInv(cfg, w', t) && (forall j <- cfg :: w.guards[j] != w'.guards[j] ==> w.guards[j].None?)
  {
    EntryIsWhole(w.threads[t].req, cfg[w.threads[t].key], w.threads[t].env, w.slots[w.threads[t].key]);
  }

  lemma AcquireStep(cfg: Config, w: World, t: Tid)
    requires Inv(cfg, w) && Enabled(cfg, w, Acquire(t))
    ensures Inv(cfg, Step(cfg, w, Acquire(t)))
  {
    var w' := Step(cfg, w, Acquire(t));
    var k := w.threads[t].key;
    assert ThreadInv(cfg, w, t) && SlotInv(k, cfg[k], View(w, k), w.threads) && CleanDisk(w.disk) && Shape(cfg, w);
    assert w.threads[t].pc.Waiting? && w.threads[t].progress.Outside?;
    assert w.threads[t].tick == 0 && w.threads[t].written == 0;
    hide Inv, SlotInv, ThreadInv, CleanDisk;
    AcquireViews(cfg, w, t);
    AcquireThread(cfg, w, t);
    AcquireSlot(k, cfg[k], View(w, k), w.threads, t, w'.threads[t]);
    Assemble(cfg, w, w', t);
  }

  /** A record that went through startup is legal and agrees with its file. */
  lemma RecoveredSlot(cfg: Config, disk: Disk, alive: nat -> bool, clock: SlotKey -> Time, k: SlotKey)
    requires k in cfg && CleanDisk(disk)
    ensures var s := Recovered(cfg, disk, alive, clock, k);
      Legal(s) && s.Key() == k && (k in disk ==> s.lease == disk[k].lease) && (k !in disk ==> s.lease.None?)
  {
  }

  /** A freshly started slot has no history. */
  lemma FreshSlot(k: SlotKey, dev: Device, s: SlotState, file: Option<SlotState>, threads: map<Tid, Thread>)
    requires Legal(s) && s.Key() == k && FileAgrees(k, dev, file, s)
    ensures SlotInv(k, dev, SlotView(s, s, None, file, [], [], []), threads)
  {
  }

  lemma StartupView(cfg: Config, disk: Disk, alive: nat -> bool, clock: SlotKey -> Time, k: SlotKey)
    requires CleanDisk(disk) && k in cfg
    ensures var w := Startup(cfg, disk, alive, clock);
      var v := View(w, k);
      && w.slots[k] == Recovered(cfg, disk, alive, clock, k) && Legal(w.slots[k]) && w.slots[k].Key() == k
      && v == SlotView(w.slots[k], w.slots[k], None, v.file, [], [], [])
      && FileAgrees(k, cfg[k], v.file, w.slots[k])
  {
    RecoveredSlot(cfg, disk, alive, clock, k);
  }

  lemma StartupDisk(cfg: Config, disk: Disk, alive: nat -> bool, clock: SlotKey -> Time)
    requires CleanDisk(disk)
    ensures CleanDisk(Startup(cfg, disk, alive, clock).disk)
  {
    var w := Startup(cfg, disk, alive, clock);
    forall k <- w.disk ensures w.disk[k].Key() == k && Legal(w.disk[k]) {
      if k in cfg {
        RecoveredSlot(cfg, disk, alive, clock, k);
      }
    }
  }

  lemma StartupInv(cfg: Config, disk: Disk, alive: nat -> bool, clock: SlotKey -> Time)
    requires CleanDisk(disk)
    ensures Inv(cfg, Startup(cfg, disk, alive, clock))
  {
    hide SlotInv, CleanDisk, Legal, Recovered;
    var w := Startup(cfg, disk, alive, clock);
    forall k <- cfg ensures SlotInv(k, cfg[k], View(w, k), w.threads) {
      StartupView(cfg, disk, alive, clock, k);
      FreshSlot(k, cfg[k], w.slots[k], View(w, k).file, w.threads);
    }
    StartupDisk(cfg, disk, alive, clock);
  }

  // ----- all steps, all runs -----

  lemma StepKeepsInv(cfg: Config, w: World, l: Label)
    requires Inv(cfg, w) && Enabled(cfg, w, l)
    ensures Inv(cfg, Step(cfg, w, l))
  {
    hide Inv, Step, Enabled;
    match l
    case Spawn(_, _, _, _) => SpawnStep(cfg, w, l);
    case Acquire(t) => AcquireStep(cfg, w, t);
    case Dismiss(t) => DismissStep(cfg, w, t);
    case Answer(t) => AnswerStep(cfg, w, t);
    case Enter(t) => EnterStep(cfg, w, t);
    case Pass(t) => PassStep(cfg, w, t);
    case Refuse(t) => RefuseStep(cfg, w, t);
    case Mutate(t) => MutateStep(cfg, w, t);
    case Persist(t) => PersistStep(cfg, w, t);
    case Unlock(t) => UnlockStep(cfg, w, t);
    case Publish(t) => PublishStep(cfg, w, t);
    case Release(t) => ReleaseStep(cfg, w, t);
    case Abort(t) => AbortStep(cfg, w, t);
    case CrashAndBoot(alive, clock) => CrashStep(cfg, w, alive, clock);
  }

  lemma CrashStep(cfg: Config, w: World, alive: nat -> bool, clock: SlotKey -> Time)
    requires Inv(cfg, w)
    ensures Inv(cfg, Step(cfg, w, CrashAndBoot(alive, clock)))
  {
    assert CleanDisk(w.disk);
    hide Inv;
    StartupInv(cfg, w.disk, alive, clock);
  }

  lemma {:induction false} RunKeepsInv(cfg: Config, ws: seq<World>, ls: seq<Label>, i: nat)
    requires IsRun(cfg, ws, ls) && i < |ws|
    ensures Inv(cfg, ws[i])
  {
    hide Inv, Step, Enabled;
    if i == 0 {
      var disk, alive, clock :| CleanDisk(disk) && ws[0] == Startup(cfg, disk, alive, clock);
      StartupInv(cfg, disk, alive, clock);
    } else {
      RunKeepsInv(cfg, ws, ls, i - 1);
      StepKeepsInv(cfg, ws[i - 1], ls[i - 1]);
    }
  }
}
