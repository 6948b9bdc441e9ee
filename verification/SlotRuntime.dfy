/**
 The harness runtime in the form of the code: objects whose methods update records,
 state files and the event log. Each method is proved against the whole-operation
 semantics of SlotOps; what interleaving adds is the subject of SlotProtocol.
*/
module SlotRuntime {
  import opened Basics
  import opened KeyOrder
  import opened SlotModel
  import opened SlotOps
  import opened SlotProtocol
  import opened SlotLifecycle

  datatype DeviceConfig = DeviceConfig(deviceId: string, runtimeDir: string)

  datatype Project = Project(startDependencies: bool, devices: map<string, DeviceConfig>)

  type Projects = map<string, Project>

  predicate Configured(projects: Projects, k: SlotKey) {
    k.project in projects && k.device in projects[k.project].devices
  }

  function DeviceOf(projects: Projects, k: SlotKey): Device
    requires Configured(projects, k)
  {
    var p := projects[k.project];
    Device(p.devices[k.device].deviceId, p.devices[k.device].runtimeDir, p.startDependencies)
  }

  /** The flat configuration the protocol uses. */
  ghost predicate IsConfig(cfg: Config, projects: Projects) {
    && (forall k :: k in cfg <==> Configured(projects, k))
    && forall k <- cfg :: cfg[k] == DeviceOf(projects, k)
  }

  /** Records, state files and event log as one value. */
  datatype Books = Books(slots: map<SlotKey, SlotState>, files: Disk, sent: seq<Event>)

  /** Every write goes to the file that its record names. */
  function Filed(files: Disk, ws: seq<Event>): Disk {
    if ws == [] then files
    else
      var last := ws[|ws| - 1].state;
      Filed(files, ws[..|ws| - 1])[last.Key() := last]
  }

  /** b after the writes ws of slot k: memory holds the last one, the files and the log have them all. */
  function Recorded(b: Books, k: SlotKey, ws: seq<Event>): Books
    requires k in b.slots
  {
    Books(b.slots[k := After(b.slots[k], ws)], Filed(b.files, ws), b.sent + ws)
  }

  lemma RecordedNothing(b: Books, k: SlotKey)
    requires k in b.slots
    ensures Recorded(b, k, []) == b
  {
    assert b.slots[k := b.slots[k]] == b.slots;
  }

  lemma RecordedSlot(b: Books, k: SlotKey, ws: seq<Event>)
    requires k in b.slots
    ensures Recorded(b, k, ws).slots.Keys == b.slots.Keys && Recorded(b, k, ws).slots[k] == After(b.slots[k], ws)
  {
  }

  lemma FiledOne(files: Disk, e: Event)
    ensures Filed(files, [e]) == files[e.state.Key() := e.state]
  {
    assert [e][..0] == [];
  }

  lemma {:induction false} FiledTwice(files: Disk, ws: seq<Event>, vs: seq<Event>)
    ensures Filed(Filed(files, ws), vs) == Filed(files, ws + vs)
  {
    if vs == [] {
      assert ws + vs == ws;
    } else {
      assert (ws + vs)[..|ws + vs| - 1] == ws + vs[..|vs| - 1];
      FiledTwice(files, ws, vs[..|vs| - 1]);
    }
  }

  lemma RecordedTwice(b: Books, k: SlotKey, ws: seq<Event>, vs: seq<Event>)
    requires k in b.slots
    ensures Recorded(Recorded(b, k, ws), k, vs) == Recorded(b, k, ws + vs)
  {
    var s := b.slots[k];
    FiledTwice(b.files, ws, vs);
    hide Filed;
    assert After(After(s, ws), vs) == After(s, ws + vs);
    assert b.slots[k := After(s, ws)][k := After(s, ws + vs)] == b.slots[k := After(s, ws + vs)];
    ConcatAssoc(b.sent, ws, vs);
  }

  /** An operation on a record writes one file, the one the record names, and leaves its last write there. */
  lemma OperationWritesOneFile(req: Request, dev: Device, env: Env, s: SlotState, files: Disk)
    ensures var ws := Whole(req, dev, env, s).writes;
      Filed(files, ws) == if ws == [] then files else files[s.Key() := After(s, ws)]
  {
    WholeKeepsKey(req, dev, env, s);
    FiledUnderOneName(files, s.Key(), Whole(req, dev, env, s).writes);
  }

  lemma {:induction false} FiledUnderOneName(files: Disk, k: SlotKey, ws: seq<Event>)
    requires forall e <- ws :: e.state.Key() == k
    ensures Filed(files, ws) == if ws == [] then files else files[k := ws[|ws| - 1].state]
  {
    if ws != [] {
      FiledUnderOneName(files, k, ws[..|ws| - 1]);
    }
  }

  class EventBus {
    var sent: seq<Event>

    constructor ()
      ensures sent == []
    {
      sent := [];
    }

    method PublishSlotState(kind: string, state: SlotState)
      modifies this
      ensures sent == old(sent) + [Event(kind, state)]
    {
      sent := sent + [Event(kind, state)];
    }
  }

  class StateStore {
    var files: Disk

    constructor (files: Disk)
      ensures this.files == files
    {
      this.files := files;
    }

    method PersistSlotState(state: SlotState)
      modifies this
      ensures files == old(files)[state.Key() := state]
    {
      files := files[state.Key() := state];
    }

    /** load_slot_states: every device of every project, from its file or by default. */
    method LoadSlotStates(projects: Projects, clock: SlotKey -> Time) returns (cfg: Config,
                          states: map<SlotKey, SlotState>)
      ensures IsConfig(cfg, projects)
      ensures states == Loaded(cfg, files, clock)
      ensures forall k :: k in states <==> k.project in projects && k.device in projects[k.project].devices
      ensures cfg.Keys == states.Keys && forall k <- cfg ::
        var p := projects[k.project];
        cfg[k] == Device(p.devices[k.device].deviceId, p.devices[k.device].runtimeDir, p.startDependencies)
      ensures forall k <- states :: states[k] == if k in files then files[k] else
        var dev := projects[k.project].devices[k.device];
        SlotState(k.project, k.device, dev.deviceId, dev.runtimeDir, Idle, NoPhase, None, map[], [], None, None,
                  clock(k))
    {
      cfg, states := map[], map[];
      assert Loaded(cfg, files, clock) == map[];
      hide Loaded, DefaultSlot;
      var todo := projects.Keys;
      while todo != {}
        invariant todo <= projects.Keys
        invariant Gathered(cfg, projects, todo)
        invariant states == Loaded(cfg, files, clock)
        decreases |todo|
      {
        var p :| p in todo;
        var devices := projects[p].devices;
        var left := devices.Keys;
        hide Gathered, GatheredIn;
        GatheredBounds(cfg, projects, todo, p);
        while left != {}
          invariant left <= devices.Keys
          invariant GatheredIn(cfg, projects, todo, p, left)
          invariant states == Loaded(cfg, files, clock)
          decreases |left|
        {
          var d :| d in left;
          var k := SlotKey(p, d);
          var dev := Device(devices[d].deviceId, devices[d].runtimeDir, projects[p].startDependencies);
          var state := if k in files then files[k] else DefaultSlot(k, dev, clock(k));
          GatheredOne(cfg, projects, todo, p, left, d);
          LoadedOne(cfg, files, clock, k, dev);
          cfg := cfg[k := dev];
          states := states[k := state];
          left := left - {d};
        }
        GatheredBounds(cfg, projects, todo, p);
        todo := todo - {p};
      }
    }
  }

  /** cfg holds the devices of the projects outside todo. */
  ghost predicate Gathered(cfg: Config, projects: Projects, todo: set<string>) {
    && (forall k :: k in cfg <==> Configured(projects, k) && k.project !in todo)
    && forall k <- cfg :: cfg[k] == DeviceOf(projects, k)
  }

  /** ... and those devices of project p that are not left. */
  ghost predicate GatheredIn(cfg: Config, projects: Projects, todo: set<string>, p: string, left: set<string>) {
    && (forall k :: k in cfg <==>
          Configured(projects, k) && (k.project !in todo || (k.project == p && k.device !in left)))
    && forall k <- cfg :: cfg[k] == DeviceOf(projects, k)
  }

  function Loaded(cfg: Config, files: Disk, clock: SlotKey -> Time): map<SlotKey, SlotState> {
    map k | k in cfg :: Load(cfg, files, k, clock(k))
  }

  lemma LoadedOne(cfg: Config, files: Disk, clock: SlotKey -> Time, k: SlotKey, dev: Device)
    requires k !in cfg
    ensures Loaded(cfg[k := dev], files, clock)
         == Loaded(cfg, files, clock)[k := if k in files then files[k] else DefaultSlot(k, dev, clock(k))]
  {
    hide DefaultSlot;
  }

  lemma GatheredBounds(cfg: Config, projects: Projects, todo: set<string>, p: string)
    requires p in todo && p in projects
    ensures Gathered(cfg, projects, todo) ==> GatheredIn(cfg, projects, todo, p, projects[p].devices.Keys)
    ensures GatheredIn(cfg, projects, todo, p, {}) ==> Gathered(cfg, projects, todo - {p})
  {
    if Gathered(cfg, projects, todo) {
      var left := projects[p].devices.Keys;
      forall k
        ensures k in cfg <==> Configured(projects, k) && (k.project !in todo || (k.project == p && k.device !in left))
      {
      }
    }
    if GatheredIn(cfg, projects, todo, p, {}) {
      forall k
        ensures k in cfg <==> Configured(projects, k) && k.project !in todo - {p}
      {
        assert k in cfg <==> Configured(projects, k) && (k.project !in todo || (k.project == p && k.device !in {}));
      }
    }
  }

  lemma GatheredOne(cfg: Config, projects: Projects, todo: set<string>, p: string, left: set<string>, d: string)
    requires p in todo && GatheredIn(cfg, projects, todo, p, left)
    requires Configured(projects, SlotKey(p, d)) && d in left
    ensures SlotKey(p, d) !in cfg
    ensures var k := SlotKey(p, d);
      GatheredIn(cfg[k := DeviceOf(projects, k)], projects, todo, p, left - {d})
  {
  }

  /** The records once the slots in finished have been reconciled. */
  function ReconciledIn(states: map<SlotKey, SlotState>, finished: set<SlotKey>, alive: nat -> bool,
                        clock: SlotKey -> Time)
    : map<SlotKey, SlotState>
  {
    map k | k in states :: if k in finished then Reconciled(states[k], alive, clock(k)) else states[k]
  }

  /** The records among them that had to be rewritten. */
  function RewrittenIn(states: map<SlotKey, SlotState>, finished: set<SlotKey>, alive: nat -> bool,
                       clock: SlotKey -> Time)
    : map<SlotKey, SlotState>
  {
    map k | k in states && k in finished && NeedsReconciling(states[k], alive) :: Reconciled(states[k], alive, clock(k))
  }

  /** The rewriting of record k went to file f, the one the record names. */
  predicate WroteFile(rewritten: map<SlotKey, SlotState>, f: SlotKey, k: SlotKey) {
    k in rewritten && rewritten[k].Key() == f
  }

  /** The sorted map of records is visited by project and then by device. */
  predicate KeyBelow(a: SlotKey, b: SlotKey) {
    if a.project == b.project then StringBelow(a.device, b.device) else StringBelow(a.project, b.project)
  }

  function Keys(): (SlotKey, SlotKey) -> bool {
    (a, b) => KeyBelow(a, b)
  }

  lemma KeysAreOrdered()
    ensures IsOrder(Keys())
  {
    forall a: SlotKey, b: SlotKey
      ensures KeyBelow(a, b) || KeyBelow(b, a)
      ensures KeyBelow(a, b) && KeyBelow(b, a) ==> a == b
    {
      StringsTotal(a.project, b.project);
      StringsTotal(a.device, b.device);
    }
    forall a: SlotKey, b: SlotKey, c: SlotKey | KeyBelow(a, b) && KeyBelow(b, c)
      ensures KeyBelow(a, c)
    {
      KeyTransitive(a, b, c);
    }
  }

  lemma KeyTransitive(a: SlotKey, b: SlotKey, c: SlotKey)
    requires KeyBelow(a, b) && KeyBelow(b, c)
    ensures KeyBelow(a, c)
  {
    if a.project == b.project == c.project {
      StringsTransitive(a.device, b.device, c.device);
    } else if a.project != b.project && b.project != c.project {
      StringsTransitive(a.project, b.project, c.project);
      StringsTotal(a.project, b.project);
    }
  }

  /** Record k is the last of those that were written to file f. */
  ghost predicate WroteLast(rewritten: map<SlotKey, SlotState>, f: SlotKey, k: SlotKey) {
    WroteFile(rewritten, f, k) && forall j :: WroteFile(rewritten, f, j) ==> KeyBelow(j, k)
  }

  /** A file that rewritten records name holds the last of them; any other is as it was. */
  ghost predicate RewroteFile(before: Disk, after: Disk, rewritten: map<SlotKey, SlotState>, f: SlotKey) {
    if exists k :: WroteFile(rewritten, f, k) then
      f in after && exists k :: WroteLast(rewritten, f, k) && after[f] == rewritten[k]
    else
      (f in after <==> f in before) && (f in after ==> after[f] == before[f])
  }

  ghost predicate Rewrote(before: Disk, after: Disk, rewritten: map<SlotKey, SlotState>) {
    forall f :: RewroteFile(before, after, rewritten, f)
  }

  lemma ReconcileOne(states: map<SlotKey, SlotState>, finished: set<SlotKey>, k: SlotKey, alive: nat -> bool,
                     clock: SlotKey -> Time)
    requires k in states && k !in finished
    ensures var s' := Reconciled(states[k], alive, clock(k));
      && ReconciledIn(states, finished + {k}, alive, clock) == ReconciledIn(states, finished, alive, clock)[k := s']
      && RewrittenIn(states, finished + {k}, alive, clock) ==
           (if NeedsReconciling(states[k], alive) then RewrittenIn(states, finished, alive, clock)[k := s']
            else RewrittenIn(states, finished, alive, clock))
      && k !in RewrittenIn(states, finished, alive, clock)
      && (!NeedsReconciling(states[k], alive) ==> s' == states[k])
  {
    hide Reconciled, NeedsReconciling;
    if !NeedsReconciling(states[k], alive) {
      NothingToReconcile(states[k], alive, clock(k));
    }
  }

  /** One more record, and a later one than those before. */
  lemma RewroteOne(before: Disk, after: Disk, rewritten: map<SlotKey, SlotState>, k: SlotKey, s: SlotState)
    requires Rewrote(before, after, rewritten) && k !in rewritten && forall j <- rewritten :: KeyBelow(j, k)
    ensures Rewrote(before, after[s.Key() := s], rewritten[k := s])
  {
    var after', rewritten' := after[s.Key() := s], rewritten[k := s];
    KeysAreOrdered();
    assert Keys()(k, k);
    hide KeyBelow;
    forall f
      ensures RewroteFile(before, after', rewritten', f)
    {
      assert RewroteFile(before, after, rewritten, f);
      if f == s.Key() {
        assert WroteFile(rewritten', f, k) && WroteLast(rewritten', f, k) && after'[f] == rewritten'[k];
      } else {
        assert forall j :: WroteFile(rewritten', f, j) <==> WroteFile(rewritten, f, j);
        if j :| WroteLast(rewritten, f, j) && after[f] == rewritten[j] {
          assert WroteFile(rewritten', f, j) && WroteLast(rewritten', f, j) && after'[f] == rewritten'[j];
        }
      }
    }
  }

  /** Records under their own names: the files are overwritten by the rewritten records. */
  lemma RewroteOwnNames(before: Disk, after: Disk, rewritten: map<SlotKey, SlotState>)
    requires Rewrote(before, after, rewritten) && forall k <- rewritten :: rewritten[k].Key() == k
    ensures after == before + rewritten
  {
    forall f
      ensures f in rewritten ==> f in after && after[f] == rewritten[f]
      ensures f !in rewritten ==> (f in after <==> f in before) && (f in after ==> after[f] == before[f])
    {
      assert RewroteFile(before, after, rewritten, f);
      if f in rewritten {
        assert WroteFile(rewritten, f, f);
      }
    }
  }

  lemma RewrittenNames(states: map<SlotKey, SlotState>, alive: nat -> bool, clock: SlotKey -> Time)
    requires forall k <- states :: states[k].Key() == k
    ensures var rewritten := RewrittenIn(states, states.Keys, alive, clock);
      forall k <- rewritten :: rewritten[k].Key() == k
  {
    forall k <- states ensures Reconciled(states[k], alive, clock(k)).Key() == k {
      ReconcilingKeepsKey(states[k], alive, clock(k));
    }
    hide Reconciled, NeedsReconciling;
  }

  lemma NothingToReconcile(s: SlotState, alive: nat -> bool, now: Time)
    requires !NeedsReconciling(s, alive)
    ensures Reconciled(s, alive, now) == s
  {
  }

  lemma ReconcilingKeepsKey(s: SlotState, alive: nat -> bool, now: Time)
    ensures Reconciled(s, alive, now).Key() == s.Key()
  {
  }

  /** The in-place pass over the records at startup; what changes is persisted. */
  method ReconcileSlotProcesses(store: StateStore, states: map<SlotKey, SlotState>, alive: nat -> bool,
                                clock: SlotKey -> Time)
    returns (states': map<SlotKey, SlotState>)
    modifies store
    ensures states' == ReconciledIn(states, states.Keys, alive, clock)
    ensures states'.Keys == states.Keys && forall k <- states :: Restarted(states[k], alive, clock(k), states'[k])
    ensures Rewrote(old(store.files), store.files, RewrittenIn(states, states.Keys, alive, clock))
  {
    AllRestarted(states, alive, clock);
    hide Restarted;
    states' := states;
    var finished: set<SlotKey> := {};
    NothingRewrote(store.files, states, alive, clock);
    KeysAreOrdered();
    while finished != states.Keys
      invariant finished <= states.Keys
      invariant forall j <- finished, k <- states.Keys - finished :: KeyBelow(j, k)
      invariant states' == ReconciledIn(states, finished, alive, clock)
      invariant Rewrote(old(store.files), store.files, RewrittenIn(states, finished, alive, clock))
      decreases states.Keys - finished
    {
      assert states.Keys - finished != {};
      Least(Keys(), states.Keys - finished);
      var k :| k in states.Keys - finished && IsLeast(Keys(), k, states.Keys - finished);
      assert forall j <- RewrittenIn(states, finished, alive, clock) :: KeyBelow(j, k);
      assert forall j <- states.Keys - finished - {k} :: Keys()(k, j);
      hide KeyBelow, IsOrder;
      ReconcileOne(states, finished, k, alive, clock);
      RewroteOne(old(store.files), store.files, RewrittenIn(states, finished, alive, clock), k,
                 Reconciled(states[k], alive, clock(k)));
      hide ReconciledIn, RewrittenIn, Rewrote;
      var state := states[k];
      var missing := FirstMissing(state.processes, alive);
      if missing.Some? {
        state := state.(status := Failed, phase := NoPhase);
        state := state.(lastError := Some(ErrorRecord("tracked_process_missing", MissingMessage(missing.value))));
        state := state.(updatedAt := clock(k));
        states' := states'[k := state];
        store.PersistSlotState(state);
      } else if MidOperation(state.status) {
        state := state.(status := Failed);
        state := state.(lastError :=
          Some(ErrorRecord("interrupted_runtime", "slot was mid-operation during harness startup")));
        state := state.(updatedAt := clock(k));
        states' := states'[k := state];
        store.PersistSlotState(state);
      } else {
        assert states'[k := state] == states' by {
          KeepsRecord(states, finished, k, alive, clock);
        }
      }
      finished := finished + {k};
    }
  }

  lemma AllRestarted(states: map<SlotKey, SlotState>, alive: nat -> bool, clock: SlotKey -> Time)
    ensures var states' := ReconciledIn(states, states.Keys, alive, clock);
      states'.Keys == states.Keys && forall k <- states :: Restarted(states[k], alive, clock(k), states'[k])
  {
    hide Reconciled, Restarted;
    forall k <- states
      ensures Restarted(states[k], alive, clock(k), ReconciledIn(states, states.Keys, alive, clock)[k])
    {
      ReconciledIsRestarted(states[k], alive, clock(k));
    }
  }

  lemma NothingRewrote(files: Disk, states: map<SlotKey, SlotState>, alive: nat -> bool, clock: SlotKey -> Time)
    ensures Rewrote(files, files, RewrittenIn(states, {}, alive, clock))
    ensures states == ReconciledIn(states, {}, alive, clock)
  {
    hide Reconciled, NeedsReconciling;
  }

  lemma KeepsRecord(states: map<SlotKey, SlotState>, finished: set<SlotKey>, k: SlotKey, alive: nat -> bool,
                    clock: SlotKey -> Time)
    requires k in states && k !in finished
    ensures ReconciledIn(states, finished, alive, clock)[k := states[k]] == ReconciledIn(states, finished, alive, clock)
  {
  }

  /** Loading and reconciling is the startup of the protocol. */
  lemma LoadThenReconcile(cfg: Config, disk: Disk, alive: nat -> bool, clock: SlotKey -> Time,
                          loaded: map<SlotKey, SlotState>)
    requires loaded == Loaded(cfg, disk, clock)
    ensures var w := Startup(cfg, disk, alive, clock);
      && w.slots == ReconciledIn(loaded, loaded.Keys, alive, clock) && w.slots.Keys == cfg.Keys
      && w.disk == disk + RewrittenIn(loaded, loaded.Keys, alive, clock)
      && w.log == []
  {
    hide Reconciled, NeedsReconciling;
  }

  /** Every state file holds the record of the slot it is named after. */
  predicate OwnNames(disk: Disk) {
    forall k <- disk :: disk[k].Key() == k
  }

  lemma LoadedKeys(cfg: Config, disk: Disk, clock: SlotKey -> Time)
    requires OwnNames(disk)
    ensures forall k <- Loaded(cfg, disk, clock) :: Loaded(cfg, disk, clock)[k].Key() == k
  {
  }

  /** One hook in the books: nothing when it may not run, else its two writes. */
  lemma HookRecorded(b: Books, k: SlotKey, h: HookSpec, owner: string, env: Env, t: nat)
    requires k in b.slots
    ensures var s := b.slots[k];
      var run := RunHooks([h], owner, env, t, s);
      var s1 := Entered(s, h.status, h.phase, env.now(t + 1));
      var started := Recorded(b, k, [Event("phase_started", s1)]);
      var e := Applied(h, env.hook(t + 2), env.now(t + 3), s1);
      && Recorded(b, k, []) == b
      && (!env.makesDirs(t) ==> run == Run([], Errored(DirectoryError)))
      && (env.makesDirs(t) && LeaseRefusal(s, owner).Some? ==> run == Run([], Errored(LeaseRefusal(s, owner).value)))
      && (env.makesDirs(t) && LeaseRefusal(s, owner).None? ==>
            && k in started.slots && started.slots[k] == s1 && Recorded(started, k, [e]) == Recorded(b, k, run.writes)
            && run.outcome == Returned(e.state))
  {
    var s := b.slots[k];
    HookLayers([h], owner, env, t, s);
    hide RunHooks, LeaseRefusal, Entered, Applied;
    RecordedNothing(b, k);
    var s1 := Entered(s, h.status, h.phase, env.now(t + 1));
    var e := Applied(h, env.hook(t + 2), env.now(t + 3), s1);
    RecordedSlot(b, k, [Event("phase_started", s1)]);
    RecordedTwice(b, k, [Event("phase_started", s1)], [e]);
    assert [Event("phase_started", s1)] + [e] == [Event("phase_started", s1), e];
    hide Recorded;
  }

  /** ws and then the writes of the first hook. */
  ghost function WithFirst(b: Books, k: SlotKey, ws: seq<Event>, hooks: seq<HookSpec>, owner: string, env: Env,
                           t: nat): seq<Event>
    requires k in b.slots && hooks != []
  {
    ws + RunHooks(hooks[..1], owner, env, t, After(b.slots[k], ws)).writes
  }

  /** ws and then a whole hook sequence is ws with the first hook and then the others. */
  lemma NextHook(b: Books, k: SlotKey, ws: seq<Event>, hooks: seq<HookSpec>, owner: string, env: Env, t: nat)
    requires k in b.slots && |hooks| > 1
    ensures var one := RunHooks(hooks[..1], owner, env, t, After(b.slots[k], ws));
      var all := RunHooks(hooks, owner, env, t, After(b.slots[k], ws));
      var ws' := WithFirst(b, k, ws, hooks, owner, env, t);
      && Recorded(Recorded(b, k, ws), k, one.writes) == Recorded(b, k, ws')
      && (one.outcome.Errored? ==> all == one)
      && (one.outcome.Returned? ==>
            var rest := RunHooks(hooks[1..], owner, env, t + HOOK_TICKS, After(b.slots[k], ws'));
            ws + all.writes == ws' + rest.writes && all.outcome == rest.outcome)
  {
    var s := After(b.slots[k], ws);
    RunHooksSplit(hooks, owner, env, t, s);
    hide RunHooks;
    var one := RunHooks(hooks[..1], owner, env, t, s);
    RecordedTwice(b, k, ws, one.writes);
    assert After(b.slots[k], ws + one.writes) == After(s, one.writes);
    var rest := RunHooks(hooks[1..], owner, env, t + HOOK_TICKS, After(s, one.writes));
    assert ws + (one.writes + rest.writes) == ws + one.writes + rest.writes;
  }

  /** ensure_lease_owner */
  method EnsureLeaseOwner(state: SlotState, owner: string) returns (refused: Option<Why>)
    ensures refused == LeaseRefusal(state, owner)
    ensures refused == if state.lease.None? then Some(NoLease)
                       else if state.lease.value.owner == owner then None else Some(LeasedBy(state.lease.value.owner))
  {
    if state.lease.None? {
      return Some(NoLease);
    }
    if state.lease.value.owner == owner {
      return None;
    }
    return Some(LeasedBy(state.lease.value.owner));
  }

  class HarnessRuntime {
    const cfg: Config
    const store: StateStore
    const events: EventBus
    var slots: map<SlotKey, SlotState>

    ghost predicate Valid()
      reads this
    {
      slots.Keys == cfg.Keys
    }

    /**
     from_parts: load, reconcile, and start with an empty event log. When every state file holds the record
     of the slot it is named after, this is the startup of the protocol; the records in memory are its in any case.
    */
    constructor FromParts(projects: Projects, store: StateStore, alive: nat -> bool, clock: SlotKey -> Time)
      modifies store
      ensures Valid() && IsConfig(cfg, projects) && this.store == store && fresh(events)
      ensures var w := Startup(cfg, old(store.files), alive, clock);
        && slots == w.slots && events.sent == [] == w.log
        && (OwnNames(old(store.files)) ==> store.files == w.disk)
      ensures var loaded := Loaded(cfg, old(store.files), clock);
        Rewrote(old(store.files), store.files, RewrittenIn(loaded, loaded.Keys, alive, clock))
    {
      var loaded: map<SlotKey, SlotState>;
      var c: Config;
      ghost var files := store.files;
      c, loaded := store.LoadSlotStates(projects, clock);
      LoadThenReconcile(c, files, alive, clock, loaded);
      hide Startup, ReconciledIn, RewrittenIn, IsConfig, Rewrote, Loaded;
      var states := ReconcileSlotProcesses(store, loaded, alive, clock);
      if OwnNames(files) {
        LoadedKeys(c, files, clock);
        RewrittenNames(loaded, alive, clock);
        RewroteOwnNames(files, store.files, RewrittenIn(loaded, loaded.Keys, alive, clock));
      }
      hide OwnNames;
      var bus := new EventBus();
      this.cfg := c;
      this.store := store;
      this.events := bus;
      this.slots := states;
    }

    ghost function Now(): Books
      reads this, store, events
    {
      Books(slots, store.files, events.sent)
    }

    /** Records, files, events and answer are those of run, from the books b. */
    ghost predicate Done(b: Books, k: SlotKey, run: Run, r: Outcome)
      requires k in b.slots
      reads this, store, events
    {
      Now() == Recorded(b, k, run.writes) && r == run.outcome
    }

    /** Rewrite the record, persist it, publish it: the shape of every critical section. */
    method Rewrite(k: SlotKey, kind: string, state: SlotState)
      requires Valid() && k in cfg
      modifies this, store, events
      ensures Valid() && Now() == Recorded(old(Now()), k, [Event(kind, state)])
      ensures slots == old(slots)[k := state] && store.files == old(store.files)[state.Key() := state]
      ensures events.sent == old(events.sent) + [Event(kind, state)]
    {
      slots := slots[k := state];
      store.PersistSlotState(state);
      events.PublishSlotState(kind, state);
      FiledOne(old(store.files), Event(kind, state));
    }

    method AcquireLease(k: SlotKey, owner: string, reason: string, expiresAt: Option<Time>,
                        env: Env) returns (r: Outcome)
      requires Valid()
      modifies this, store, events
      ensures Valid()
      ensures k !in cfg ==> r == Errored(UnknownDevice) && Now() == old(Now())
      ensures k in cfg ==>
        Done(old(Now()), k, Whole(Request.AcquireLease(owner, reason, expiresAt), cfg[k], env, old(slots[k])), r)
    {
      if k !in cfg {
        return Errored(UnknownDevice);
      }
      var state := slots[k];
      if state.lease.Some? && state.lease.value.owner != owner {
        RecordedNothing(Now(), k);
        return Errored(AlreadyLeased(state.lease.value.owner));
      }
      state := state.(lease := Some(LeaseRecord(owner, reason, env.now(0), expiresAt)));
      state := state.(updatedAt := env.now(0));
      Rewrite(k, "lease_acquired", state);
      r := Returned(state);
    }

    method ReleaseLease(k: SlotKey, env: Env) returns (r: Outcome)
      requires Valid()
      modifies this, store, events
      ensures Valid()
      ensures k !in cfg ==> r == Errored(UnknownDevice) && Now() == old(Now())
      ensures k in cfg ==>
        Done(old(Now()), k, Whole(Request.ReleaseLease, cfg[k], env, old(slots[k])), r)
    {
      if k !in cfg {
        return Errored(UnknownDevice);
      }
      var state := slots[k].(lease := None);
      state := state.(updatedAt := env.now(0));
      Rewrite(k, "lease_released", state);
      r := Returned(state);
    }

    /** prepare_slot_for_hook: the directories first, then the record. */
    method PrepareSlotForHook(k: SlotKey, owner: string, h: HookSpec, env: Env, t: nat) returns (refused: Option<Why>)
      requires Valid() && k in cfg
      modifies this, store, events
      ensures Valid()
      ensures refused == if env.makesDirs(t) then LeaseRefusal(old(slots[k]), owner) else Some(DirectoryError)
      ensures Now() == Recorded(old(Now()), k, if refused.Some? then [] else
        [Event("phase_started", Entered(old(slots[k]), h.status, h.phase, env.now(t + 1)))])
    {
      RecordedNothing(Now(), k);
      if !env.makesDirs(t) {
        return Some(DirectoryError);
      }
      var state := slots[k];
      refused := EnsureLeaseOwner(state, owner);
      if refused.Some? {
        return;
      }
      state := state.(status := h.status, phase := h.phase);
      state := state.(lastError := None);
      state := state.(updatedAt := env.now(t + 1));
      Rewrite(k, "phase_started", state);
    }

    method ApplyHookSuccess(k: SlotKey, result: HookResult, success: SlotStatus, now: Time) returns (state: SlotState)
      requires Valid() && k in cfg
      modifies this, store, events
      ensures Valid() && state == Succeeded(old(slots[k]), result, success, now)
      ensures Now() == Recorded(old(Now()), k, [Event("phase_finished", state)])
    {
      state := slots[k].(artifacts := slots[k].artifacts + result.artifacts);
      var records := [];
      for i := 0 to |result.processes|
        invariant |records| == i
        invariant forall j :: 0 <= j < i ==> records[j] == Tracked(result.processes, now)[j]
      {
        var p := result.processes[i];
        records := records + [ProcessRecord(p.purpose, p.pid, Some(now), p.expectedCleanup)];
      }
      assert records == Tracked(result.processes, now);
      state := state.(processes := records, status := success);
      state := state.(phase := if success.Ready? then NoPhase else state.phase);
      if success.Ready? {
        state := state.(lastReadyAt := Some(now));
      }
      state := state.(updatedAt := now);
      Rewrite(k, "phase_finished", state);
    }

    method ApplyHookFailure(k: SlotKey, phase: SlotPhase, message: string, now: Time) returns (state: SlotState)
      requires Valid() && k in cfg
      modifies this, store, events
      ensures Valid() && state == HookFailed(old(slots[k]), phase, message, now)
      ensures Now() == Recorded(old(Now()), k, [Event("error", state)])
    {
      state := slots[k].(status := Failed, phase := phase);
      state := state.(lastError := Some(ErrorRecord("hook_failed", message)));
      state := state.(updatedAt := now);
      Rewrite(k, "error", state);
    }

    /** run_hook_for_slot: a failed hook is applied and returned as a record, not as an error. */
    method RunHookForSlot(k: SlotKey, owner: string, h: HookSpec, env: Env, t: nat) returns (r: Outcome)
      requires Valid() && k in cfg
      modifies this, store, events
      ensures Valid()
      ensures Done(old(Now()), k, RunHooks([h], owner, env, t, old(slots[k])), r)
    {
      ghost var b := Now();
      HookRecorded(b, k, h, owner, env, t);
      hide RunHooks, Recorded, LeaseRefusal, Entered, Succeeded, HookFailed;
      var refused := PrepareSlotForHook(k, owner, h, env, t);
      if refused.Some? {
        return Errored(refused.value);
      }
      var state: SlotState;
      match env.hook(t + 2) {
        case HookOk(result) => state := ApplyHookSuccess(k, result, h.success, env.now(t + 3));
        case HookErr(message) => state := ApplyHookFailure(k, h.phase, message, env.now(t + 3));
      }
      r := Returned(state);
    }

    /** ensure_simulator_ready; ws is what it wrote, t' where the hooks take over. */
    method EnsureSimulatorReady(k: SlotKey, owner: string, env: Env, t: nat, ghost hooks: seq<HookSpec>)
      returns (stop: Option<Why>, t': nat, ghost ws: seq<Event>)
      requires Valid() && k in cfg && hooks != []
      modifies this, store, events
      ensures Valid() && Now() == Recorded(old(Now()), k, ws)
      ensures RunBooted(hooks, owner, cfg[k], env, t, old(slots[k])) ==
        if stop.Some? then Run(ws, Errored(stop.value))
        else var rest := RunHooks(hooks, owner, env, t', After(old(slots[k]), ws)); Run(ws + rest.writes, rest.outcome)
    {
      ghost var b := Now();
      hide RunHooks, Recorded;
      ws := [];
      t' := t + 1;
      RecordedNothing(b, k);
      match env.inspect(t) {
        case ProbeError => return Some(SimulatorError), t', ws;
        case Booted => return None, t', ws;
        case NotBooted =>
      }
      var state := slots[k];
      var refused := EnsureLeaseOwner(state, owner);
      if refused.Some? {
        return refused, t', ws;
      }
      state := state.(status := BootingSimulator, phase := BootSimulator);
      state := state.(lastError := None);
      state := state.(updatedAt := env.now(t + 1));
      Rewrite(k, "phase_started", state);
      ws := [Event("phase_started", state)];
      RecordedSlot(b, k, ws);
      t' := t + 4;
      if !env.boots(t + 2) {
        return Some(BootError), t', ws;
      }
      match env.inspect(t + 3) {
        case ProbeError => return Some(SimulatorError), t', ws;
        case Booted => return None, t', ws;
        case NotBooted =>
      }
      var s2 := ApplyHookFailure(k, BootSimulator, NotBootedMessage(cfg[k]), env.now(t + 4));
      RecordedTwice(b, k, ws, [Event("error", s2)]);
      ws := ws + [Event("error", s2)];
      stop := Some(BootUnconfirmed);
    }

    /** run_start_sequence: three hooks, or four when the project has start_dependencies. */
    method RunStartSequence(k: SlotKey, owner: string, env: Env) returns (r: Outcome)
      requires Valid() && k in cfg
      modifies this, store, events
      ensures Valid()
      ensures Done(old(Now()), k, Whole(Request.Start(owner), cfg[k], env, old(slots[k])), r)
    {
      ghost var b := Now();
      ghost var hooks := StartHooks(cfg[k]);
      assert Whole(Request.Start(owner), cfg[k], env, slots[k]) == RunBooted(hooks, owner, cfg[k], env, 0, slots[k]);
      hide RunHooks, Recorded, RunBooted, Whole;
      var stop, t, ws := EnsureSimulatorReady(k, owner, env, 0, hooks);
      if stop.Some? {
        return Errored(stop.value);
      }
      RecordedSlot(b, k, ws);
      RecordedTwice(b, k, ws, RunHooks(hooks, owner, env, t, After(b.slots[k], ws)).writes);
      r := RunStartHooks(k, owner, env, t);
    }

    /** The hooks of run_start_sequence, from prepare_source to check_readiness. */
    method RunStartHooks(k: SlotKey, owner: string, env: Env, t0: nat) returns (r: Outcome)
      requires Valid() && k in cfg
      modifies this, store, events
      ensures Valid()
      ensures Done(old(Now()), k, RunHooks(StartHooks(cfg[k]), owner, env, t0, old(slots[k])), r)
    {
      hide RunHooks, Recorded;
      ghost var b := Now();
      ghost var hooks := StartHooks(cfg[k]);
      ghost var ws: seq<Event> := [];
      var t := t0;
      RecordedNothing(b, k);
      ghost var run := RunHooks(hooks, owner, env, t0, slots[k]);
      assert [] + run.writes == run.writes;
      NextHook(b, k, ws, hooks, owner, env, t);
      r := RunHookForSlot(k, owner, PREPARE_SOURCE, env, t);
      assert hooks[..1] == [PREPARE_SOURCE];
      if r.Errored? {
        return;
      }
      t, ws, hooks := t + HOOK_TICKS, WithFirst(b, k, ws, hooks, owner, env, t), hooks[1..];
      if cfg[k].startDependencies {
        RecordedSlot(b, k, ws);
        NextHook(b, k, ws, hooks, owner, env, t);
        r := RunHookForSlot(k, owner, START_DEPENDENCIES, env, t);
        assert hooks[..1] == [START_DEPENDENCIES];
        if r.Errored? {
          return;
        }
        t, ws, hooks := t + HOOK_TICKS, WithFirst(b, k, ws, hooks, owner, env, t), hooks[1..];
      }
      r := RunLastHooks(k, owner, env, t, b, ws, hooks);
    }

    method RunLastHooks(k: SlotKey, owner: string, env: Env, t: nat,
                        ghost b: Books, ghost ws: seq<Event>, ghost hooks: seq<HookSpec>) returns (r: Outcome)
      requires Valid() && k in cfg && k in b.slots && Now() == Recorded(b, k, ws)
      requires hooks == [START_RUNTIME, CHECK_READINESS]
      modifies this, store, events
      ensures Valid()
      ensures var run := RunHooks(hooks, owner, env, t, After(b.slots[k], ws));
        Now() == Recorded(b, k, ws + run.writes) && r == run.outcome
    {
      RecordedSlot(b, k, ws);
      NextHook(b, k, ws, hooks, owner, env, t);
      hide RunHooks, Recorded;
      r := RunHookForSlot(k, owner, START_RUNTIME, env, t);
      assert hooks[..1] == [START_RUNTIME] && hooks[1..] == [CHECK_READINESS];
      if r.Errored? {
        return;
      }
      ghost var ws' := WithFirst(b, k, ws, hooks, owner, env, t);
      RecordedSlot(b, k, ws');
      RecordedTwice(b, k, ws', RunHooks([CHECK_READINESS], owner, env, t + HOOK_TICKS, After(b.slots[k], ws')).writes);
      r := RunHookForSlot(k, owner, CHECK_READINESS, env, t + HOOK_TICKS);
    }

    method Start(k: SlotKey, owner: string, env: Env) returns (r: Outcome)
      requires Valid()
      modifies this, store, events
      ensures Valid()
      ensures k !in cfg ==> r == Errored(UnknownDevice) && Now() == old(Now())
      ensures k in cfg ==>
        Done(old(Now()), k, Whole(Request.Start(owner), cfg[k], env, old(slots[k])), r)
    {
      if k !in cfg {
        return Errored(UnknownDevice);
      }
      r := RunStartSequence(k, owner, env);
    }

    /** The restart flag is never looked at. */
    method Restart(k: SlotKey, owner: string, env: Env) returns (r: Outcome)
      requires Valid()
      modifies this, store, events
      ensures Valid()
      ensures k !in cfg ==> r == Errored(UnknownDevice) && Now() == old(Now())
      ensures k in cfg ==>
        Done(old(Now()), k, Whole(Request.Restart(owner), cfg[k], env, old(slots[k])), r)
    {
      if k !in cfg {
        return Errored(UnknownDevice);
      }
      r := RunStartSequence(k, owner, env);
    }

    method Teardown(k: SlotKey, owner: string, env: Env) returns (r: Outcome)
      requires Valid()
      modifies this, store, events
      ensures Valid()
      ensures k !in cfg ==> r == Errored(UnknownDevice) && Now() == old(Now())
      ensures k in cfg ==>
        Done(old(Now()), k, Whole(Request.Teardown(owner), cfg[k], env, old(slots[k])), r)
    {
      if k !in cfg {
        return Errored(UnknownDevice);
      }
      r := RunHookForSlot(k, owner, TEARDOWN, env, 0);
    }

    method Command(k: SlotKey, owner: string, env: Env) returns (r: Outcome)
      requires Valid()
      modifies this, store, events
      ensures Valid()
      ensures k !in cfg ==> r == Errored(UnknownDevice) && Now() == old(Now())
      ensures k in cfg ==>
        Done(old(Now()), k, Whole(Request.Command(owner), cfg[k], env, old(slots[k])), r)
    {
      if k !in cfg {
        return Errored(UnknownDevice);
      }
      var refused := EnsureLeaseOwner(slots[k], owner);
      if refused.Some? {
        RecordedNothing(Now(), k);
        return Errored(refused.value);
      }
      ghost var b := Now();
      assert Whole(Request.Command(owner), cfg[k], env, slots[k])
        == RunBooted([EXECUTE_COMMAND], owner, cfg[k], env, 1, slots[k]);
      hide RunHooks, Recorded, RunBooted, Whole;
      var stop, t, ws := EnsureSimulatorReady(k, owner, env, 1, [EXECUTE_COMMAND]);
      if stop.Some? {
        return Errored(stop.value);
      }
      RecordedSlot(b, k, ws);
      RecordedTwice(b, k, ws, RunHooks([EXECUTE_COMMAND], owner, env, t, After(b.slots[k], ws)).writes);
      r := RunHookForSlot(k, owner, EXECUTE_COMMAND, env, t);
    }
  }
}
