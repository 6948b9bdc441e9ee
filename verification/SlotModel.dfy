/**
 The record of one (project, device) slot and the critical sections that rewrite it.
 Every section is a function from the old record to the new one: the class in
 SlotRuntime and the interleaved protocol in SlotProtocol both apply these.
*/
module SlotModel {
  import opened Basics

  type Time = string

  datatype SlotKey = SlotKey(project: string, device: string)

  datatype SlotStatus =
    | Idle | BootingSimulator | Preparing | StartingDependencies | StartingRuntime
    | Ready | Busy | Stopping | Failed

  datatype SlotPhase =
    | NoPhase | BootSimulator | PrepareSource | StartDependencies | StartRuntime
    | CheckReadiness | ExecuteCommand | TeardownPhase

  datatype LeaseRecord = LeaseRecord(owner: string, reason: string, acquiredAt: Time, expiresAt: Option<Time>)

  datatype ProcessRecord =
    ProcessRecord(purpose: string, pid: Option<nat>, startedAt: Option<Time>, expectedCleanup: bool)

  datatype ErrorRecord = ErrorRecord(code: string, message: string)

  datatype SlotState = SlotState(
    projectId: string,
    deviceKey: string,
    deviceId: string,
    runtimeDir: string,
    status: SlotStatus,
    phase: SlotPhase,
    lease: Option<LeaseRecord>,
    artifacts: map<string, string>,
    processes: seq<ProcessRecord>,
    lastError: Option<ErrorRecord>,
    lastReadyAt: Option<Time>,
    updatedAt: Time)
  {
    /** The slot a record belongs to: its file name and its event address come from here. */
    function Key(): SlotKey {
      SlotKey(projectId, deviceKey)
    }
  }

  /** What the configuration says about one device; startDependencies: the optional hook exists. */
  datatype Device = Device(deviceId: string, runtimeDir: string, startDependencies: bool)

  type Config = map<SlotKey, Device>

  datatype Request =
    | AcquireLease(owner: string, reason: string, expiresAt: Option<Time>)
    | ReleaseLease
    | Start(owner: string)
    | Restart(owner: string)
    | Teardown(owner: string)
    | Command(owner: string)

  datatype HookProcess = HookProcess(purpose: string, pid: Option<nat>, expectedCleanup: bool)

  datatype HookResult = HookResult(artifacts: map<string, string>, processes: seq<HookProcess>)

  datatype HookReply = HookOk(result: HookResult) | HookErr(message: string)

  /** One answer of the simulator controller: an error, booted == Some(true), or anything else. */
  datatype Probe = ProbeError | Booted | NotBooted

  /** Why an operation returns an error. */
  datatype Why =
    | NoLease | LeasedBy(owner: string) | AlreadyLeased(owner: string) | UnknownDevice
    | SimulatorError | BootError | BootUnconfirmed | DirectoryError | Cancelled

  datatype Outcome = Returned(state: SlotState) | Errored(why: Why)

  datatype Event = Event(kind: string, state: SlotState)

  /** One hook of an operation: the status and phase while it runs, the status after success. */
  datatype HookSpec = HookSpec(status: SlotStatus, phase: SlotPhase, success: SlotStatus)

  const PREPARE_SOURCE := HookSpec(Preparing, PrepareSource, Preparing)
  const START_DEPENDENCIES := HookSpec(StartingDependencies, StartDependencies, StartingRuntime)
  const START_RUNTIME := HookSpec(StartingRuntime, StartRuntime, StartingRuntime)
  const CHECK_READINESS := HookSpec(StartingRuntime, CheckReadiness, Ready)
  const EXECUTE_COMMAND := HookSpec(Busy, ExecuteCommand, Ready)
  const TEARDOWN := HookSpec(Stopping, TeardownPhase, Idle)

  function StartHooks(dev: Device): seq<HookSpec> {
    [PREPARE_SOURCE] + (if dev.startDependencies then [START_DEPENDENCIES] else [])
    + [START_RUNTIME, CHECK_READINESS]
  }

  /** The hooks a request runs, in order. Restart differs from Start in nothing. */
  function Hooks(req: Request, dev: Device): seq<HookSpec> {
    match req
    case Start(_) => StartHooks(dev)
    case Restart(_) => StartHooks(dev)
    case Teardown(_) => [TEARDOWN]
    case Command(_) => [EXECUTE_COMMAND]
    case _ => []
  }

  // ----- the critical sections -----

  /** ensure_lease_owner: why the caller may not touch the slot, if so. */
  function LeaseRefusal(s: SlotState, owner: string): Option<Why> {
    match s.lease
    case None => Some(NoLease)
    case Some(lease) => if lease.owner == owner then None else Some(LeasedBy(lease.owner))
  }

  /** acquire_lease turns down everyone but the present owner, who refreshes the record. */
  function AcquireRefusal(s: SlotState, owner: string): Option<Why> {
    match s.lease
    case None => None
    case Some(lease) => if lease.owner == owner then None else Some(AlreadyLeased(lease.owner))
  }

  function Leased(s: SlotState, owner: string, reason: string, expiresAt: Option<Time>, now: Time): SlotState {
    s.(lease := Some(LeaseRecord(owner, reason, now, expiresAt)), updatedAt := now)
  }

  function Unleased(s: SlotState, now: Time): SlotState {
    s.(lease := None, updatedAt := now)
  }

  function Entered(s: SlotState, status: SlotStatus, phase: SlotPhase, now: Time): SlotState {
    s.(status := status, phase := phase, lastError := None, updatedAt := now)
  }

  function Tracked(ps: seq<HookProcess>, now: Time): (rs: seq<ProcessRecord>)
    ensures |rs| == |ps|
  {
    seq(|ps|, i requires 0 <= i < |ps| =>
      ProcessRecord(ps[i].purpose, ps[i].pid, Some(now), ps[i].expectedCleanup))
  }

  /** apply_hook_success: artifacts are merged, processes are replaced. */
  function Succeeded(s: SlotState, result: HookResult, success: SlotStatus, now: Time): SlotState {
    s.(artifacts := s.artifacts + result.artifacts,
       processes := Tracked(result.processes, now),
       status := success,
       phase := if success.Ready? then NoPhase else s.phase,
       lastReadyAt := if success.Ready? then Some(now) else s.lastReadyAt,
       updatedAt := now)
  }

  function HookFailed(s: SlotState, phase: SlotPhase, message: string, now: Time): SlotState {
    s.(status := Failed, phase := phase,
       lastError := Some(ErrorRecord("hook_failed", message)), updatedAt := now)
  }

  // ----- startup -----

  function DefaultSlot(k: SlotKey, dev: Device, now: Time): SlotState {
    SlotState(k.project, k.device, dev.deviceId, dev.runtimeDir, Idle, NoPhase, None, map[], [], None, None, now)
  }

  predicate Missing(p: ProcessRecord, alive: nat -> bool) {
    p.pid.Some? && !alive(p.pid.value)
  }

  /** Every process with a pid is alive. */
  predicate AllAlive(s: SlotState, alive: nat -> bool) {
    forall i :: 0 <= i < |s.processes| ==> !Missing(s.processes[i], alive)
  }

  /** The first dead process; the search of reconcile_slot_processes. */
  function FirstMissing(ps: seq<ProcessRecord>, alive: nat -> bool): (r: Option<ProcessRecord>)
    ensures r.None? <==> forall i :: 0 <= i < |ps| ==> !Missing(ps[i], alive)
    ensures r.Some? ==> r.value in ps && Missing(r.value, alive)
  {
    if ps == [] then None
    else if Missing(ps[0], alive) then Some(ps[0])
    else
      var r := FirstMissing(ps[1..], alive);
      assert forall i :: 1 <= i < |ps| ==> ps[i] == ps[1..][i - 1];
      r
  }

  predicate MidOperation(status: SlotStatus) {
    status.BootingSimulator? || status.Preparing? || status.StartingDependencies?
    || status.StartingRuntime? || status.Busy? || status.Stopping?
  }

  function Decimal(n: nat): string {
    var digit := "0123456789"[n % 10];
    if n < 10 then [digit] else Decimal(n / 10) + [digit]
  }

  function MissingMessage(p: ProcessRecord): string {
    "tracked process " + p.purpose + " pid " + Decimal(if p.pid.Some? then p.pid.value else 0)
    + " was not alive during harness startup"
  }

  function Reconciled(s: SlotState, alive: nat -> bool, now: Time): SlotState {
    var missing := FirstMissing(s.processes, alive);
    if missing.Some? then
      s.(status := Failed, phase := NoPhase,
         lastError := Some(ErrorRecord("tracked_process_missing", MissingMessage(missing.value))),
         updatedAt := now)
    else if MidOperation(s.status) then
      s.(status := Failed,
         lastError := Some(ErrorRecord("interrupted_runtime", "slot was mid-operation during harness startup")),
         updatedAt := now)
    else s
  }

  /** Whether reconciliation rewrites (and persists) the record. */
  predicate NeedsReconciling(s: SlotState, alive: nat -> bool) {
    FirstMissing(s.processes, alive).Some? || MidOperation(s.status)
  }

  // ----- what startup leaves -----

  /** Process i is the first that has a pid and is not alive. */
  predicate FirstDead(ps: seq<ProcessRecord>, alive: nat -> bool, i: int) {
    && 0 <= i < |ps| && ps[i].pid.Some? && !alive(ps[i].pid.value)
    && forall j :: 0 <= j < i && ps[j].pid.Some? ==> alive(ps[j].pid.value)
  }

  /**
   What a restart makes of a record: a dead process fails the slot and is named, otherwise an interrupted
   operation fails it in its phase, otherwise nothing changes. Lease, artifacts, processes, the time it was last
   ready and what tells the slot apart stay in any case.
  */
  ghost predicate Restarted(filed: SlotState, alive: nat -> bool, now: Time, s: SlotState) {
    && s.projectId == filed.projectId && s.deviceKey == filed.deviceKey && s.deviceId == filed.deviceId
    && s.runtimeDir == filed.runtimeDir && s.lease == filed.lease && s.artifacts == filed.artifacts
    && s.processes == filed.processes && s.lastReadyAt == filed.lastReadyAt
    && (forall i :: FirstDead(filed.processes, alive, i) ==>
          && s.status == Failed && s.phase == NoPhase && s.updatedAt == now
          && s.lastError == Some(ErrorRecord("tracked_process_missing",
               "tracked process " + filed.processes[i].purpose + " pid " + Decimal(filed.processes[i].pid.value)
               + " was not alive during harness startup")))
    && ((forall i :: !FirstDead(filed.processes, alive, i)) ==>
          if filed.status in {BootingSimulator, Preparing, StartingDependencies, StartingRuntime, Busy, Stopping} then
            && s.status == Failed && s.phase == filed.phase && s.updatedAt == now
            && s.lastError == Some(ErrorRecord("interrupted_runtime", "slot was mid-operation during harness startup"))
          else s == filed)
  }

  lemma {:induction false} FirstMissingIsFirst(ps: seq<ProcessRecord>, alive: nat -> bool)
    ensures var r := FirstMissing(ps, alive);
      && (r.Some? ==> exists i :: FirstDead(ps, alive, i) && ps[i] == r.value)
      && (r.None? ==> forall i :: !FirstDead(ps, alive, i))
  {
    var r := FirstMissing(ps, alive);
    if r.None? {
      assert forall i :: FirstDead(ps, alive, i) ==> Missing(ps[i], alive);
    } else if Missing(ps[0], alive) {
      assert FirstDead(ps, alive, 0);
    } else {
      FirstMissingIsFirst(ps[1..], alive);
      var i :| FirstDead(ps[1..], alive, i) && ps[1..][i] == r.value;
      assert ps[i + 1] == ps[1..][i] && forall j :: 1 <= j < i + 1 ==> ps[j] == ps[1..][j - 1];
      assert FirstDead(ps, alive, i + 1);
    }
  }

  lemma FirstDeadOnce(ps: seq<ProcessRecord>, alive: nat -> bool, i: int, j: int)
    requires FirstDead(ps, alive, i) && FirstDead(ps, alive, j)
    ensures i == j
  {
  }

  lemma ReconciledIsRestarted(s: SlotState, alive: nat -> bool, now: Time)
    ensures Restarted(s, alive, now, Reconciled(s, alive, now))
  {
    FirstMissingIsFirst(s.processes, alive);
    hide FirstMissing, Decimal;
    if i :| FirstDead(s.processes, alive, i) && FirstMissing(s.processes, alive) == Some(s.processes[i]) {
      forall j | FirstDead(s.processes, alive, j)
        ensures j == i
      {
        FirstDeadOnce(s.processes, alive, i, j);
      }
    }
    hide FirstDead;
  }

  /** The number that a string of digits writes. */
  function Number(digits: string): int {
    if digits == "" then 0 else Number(digits[..|digits| - 1]) * 10 + (digits[|digits| - 1] as int - '0' as int)
  }

  /** A pid is printed in decimal, without leading zeros. */
  lemma {:induction false} DecimalReads(n: nat)
    ensures var digits := Decimal(n);
      && Number(digits) == n && digits != "" && (digits[0] == '0' ==> n == 0)
      && forall c <- digits :: '0' <= c <= '9'
  {
    var digit := "0123456789"[n % 10];
    assert digit as int - '0' as int == n % 10;
    if n >= 10 {
      DecimalReads(n / 10);
      assert Decimal(n)[..|Decimal(n)| - 1] == Decimal(n / 10);
    } else {
      assert Decimal(n) == [digit] && [digit][..0] == "" && Number("") == 0;
    }
  }

  // ----- legal records -----

  predicate LegalPair(status: SlotStatus, phase: SlotPhase) {
    match status
    case Idle => phase.NoPhase? || phase.TeardownPhase?
    case BootingSimulator => phase.BootSimulator?
    case Preparing => phase.PrepareSource?
    case StartingDependencies => phase.StartDependencies?
    case StartingRuntime => phase.StartDependencies? || phase.StartRuntime? || phase.CheckReadiness?
    case Ready => phase.NoPhase?
    case Busy => phase.ExecuteCommand?
    case Stopping => phase.TeardownPhase?
    case Failed => true
  }

  predicate Legal(s: SlotState) {
    && LegalPair(s.status, s.phase)
    && (s.status.Failed? <==> s.lastError.Some?)
    && (s.status.Ready? ==> s.lastReadyAt.Some?)
  }
}
