/**
  The phone's LAN discovery manager.  Clients hold leases; the manager keeps one NSD
  listener, two delayed tasks, a multicast lock and a network callback in step with them.
  Every task of the main handler is one step; the platform's answers arrive as later
  tasks, possibly long after the listener they belong to was dropped.
*/
module NsdDiscovery {
  import opened Wrappers

  datatype Lease = UserScan | TrustedReconnect

  type Network = int

  /** Listeners are numbered in the order in which they are created. */
  type Listener = nat

  datatype Device = Device(serviceName: string, endpoint: string)

  /** What the platform does during a step. */
  datatype Platform = Platform(
    startThrows: bool,               // discoverServices
    stopThrows: bool,                // stopServiceDiscovery
    registerThrows: bool,            // registerNetworkCallback
    activeWifi: Option<Network>)

  /** What has been discovered, and the device list that is published. */
  datatype Table = Table(resolving: set<string>, discovered: map<string, Device>, snapshot: set<Device>)

  const NOTHING := Table({}, map[], {})

  datatype Manager = Manager(
    leases: set<Lease>,
    desired: bool,
    listener: Option<Listener>,
    created: nat,                    // listeners created so far
    stopInProgress: bool,
    pendingRestart: bool,
    pendingClear: bool,
    startTimers: nat,                // delayed pendingStartRunnable tasks
    restartTimers: nat,              // delayed restartDiscoveryRunnable tasks
    postedRefreshes: nat,            // refreshes posted by restartDiscoveryRunnable
    lockHeld: bool,
    callbackRegistered: bool,
    wifi: Option<Network>,
    table: Table,
    stopCalled: set<Listener>)       // history: listeners whose stop was requested

  datatype Task =
    | StartDiscovery(lease: Lease)
    | StopDiscovery(lease: Lease)
    | RefreshDiscovery(lease: Lease)
    | Shutdown
    | StartTimer
    | RestartTimer
    | PostedRefresh
    | StartFailed(listener: Listener)
    | StopFailed(listener: Listener)
    | Started(listener: Listener)
    | Stopped(listener: Listener)
    | ServiceFound(name: string)
    | ResolveFailed(name: string)
    | ServiceResolved(name: string, device: Device)
    | ServiceLost(name: string)
    | WifiAvailable(network: Network)
    | WifiLost(network: Network)

  /** For the steps that ask nothing of the platform. */
  function AnyPlatform(): Platform {
    Platform(false, false, false, None)
  }

  const INITIAL := Manager({}, false, None, 0, false, false, false, 0, 0, 0, false, false, None, NOTHING, {})

  // ---------------------------------------------------------------------------
  // What each task does
  // ---------------------------------------------------------------------------

  function Cleared(m: Manager): Manager {
    m.(table := NOTHING)
  }

  function CallbackEnsured(m: Manager, p: Platform): Manager {
    if m.callbackRegistered then m else m.(wifi := p.activeWifi, callbackRegistered := !p.registerThrows)
  }

  function CallbackReleased(m: Manager): Manager {
    if !m.callbackRegistered then m
    else m.(startTimers := 0, restartTimers := 0, callbackRegistered := false, wifi := None)
  }

  /** Discovery through `l` could not start, or ended by itself: retry while it is wanted. */
  function AfterStartFailure(m: Manager, l: Listener): Manager {
    var n := ListenerDropped(m, l).(pendingRestart := m.desired);
    if m.desired then n.(startTimers := 1) else CallbackReleased(n)
  }

  function Prepared(m: Manager, clear: bool, p: Platform): Manager {
    CallbackEnsured((if clear then Cleared(m) else m).(lockHeld := true), p)
  }

  function AfterStart(m: Manager, clear: bool, p: Platform): Manager {
    if !m.desired || m.listener.Some? then m
    else if m.stopInProgress then m.(pendingRestart := true, pendingClear := m.pendingClear || clear)
    else
      var l := m.created;
      var n := Prepared(m, clear, p).(listener := Some(l), created := l + 1);
      if p.startThrows then AfterStartFailure(n, l) else n
  }

  function AfterStop(m: Manager, finalStop: bool, p: Platform): Manager {
    if m.listener.None? then
      var n := m.(stopInProgress := false, lockHeld := false);
      if finalStop then CallbackReleased(n) else n
    else if !p.stopThrows then
      m.(stopInProgress := true, stopCalled := m.stopCalled + {m.listener.value})
    else
      var n := m.(listener := None, stopInProgress := false, lockHeld := false);
      if m.pendingRestart && m.desired then n.(startTimers := m.startTimers + 1)
      else if finalStop then CallbackReleased(n) else n
  }

  function AfterRestart(m: Manager, p: Platform): Manager {
    if !m.desired || !m.pendingRestart || m.stopInProgress || m.listener.Some? then m
    else AfterStart(m.(pendingRestart := false, pendingClear := false), m.pendingClear, p)
  }

  function RestartPlanned(m: Manager, lease: Lease): Manager {
    m.(leases := m.leases + {lease}, desired := true, pendingRestart := true, pendingClear := true)
  }

  function AfterRefresh(m: Manager, lease: Lease, p: Platform): Manager {
    var n := RestartPlanned(m, lease);
    if m.listener.Some? then AfterStop(n, false, p)
    else if !m.stopInProgress then AfterRestart(n, p) else n
  }

  function NoLongerWanted(m: Manager): Manager {
    m.(desired := false, startTimers := 0, restartTimers := 0, pendingRestart := false, pendingClear := false)
  }

  function ListenerDropped(m: Manager, l: Listener): Manager {
    m.(listener := if m.listener == Some(l) then None else m.listener, stopInProgress := false, lockHeld := false)
  }

  function AfterStartTask(m: Manager, lease: Lease, p: Platform): Manager {
    AfterStart(m.(leases := m.leases + {lease}, desired := true), false, p)
  }

  function AfterStopTask(m: Manager, lease: Lease, p: Platform): Manager {
    var n := m.(leases := m.leases - {lease}, desired := m.leases - {lease} != {});
    if n.desired then n else AfterStop(NoLongerWanted(n), true, p)
  }

  function AfterShutdown(m: Manager, p: Platform): Manager {
    AfterStop(NoLongerWanted(m.(leases := {})), true, p)
  }

  function AfterStartTimer(m: Manager, p: Platform): Manager
    requires m.startTimers > 0
  {
    AfterRestart(m.(startTimers := m.startTimers - 1), p)
  }

  function AfterRestartTimer(m: Manager): Manager
    requires m.restartTimers > 0
  {
    var n := m.(restartTimers := m.restartTimers - 1);
    if m.callbackRegistered && m.desired then n.(postedRefreshes := m.postedRefreshes + 1) else n
  }

  function AfterPostedRefresh(m: Manager, p: Platform): Manager
    requires m.postedRefreshes > 0
  {
    AfterRefresh(m.(postedRefreshes := m.postedRefreshes - 1), UserScan, p)
  }

  function AfterStopFailed(m: Manager, l: Listener): Manager {
    var n := ListenerDropped(m, l);
    if m.pendingRestart && m.desired then n.(startTimers := m.startTimers + 1) else CallbackReleased(n)
  }

  function AfterStopped(m: Manager, l: Listener, p: Platform): Manager {
    var n := ListenerDropped(m, l);
    if m.pendingRestart && m.desired then AfterRestart(n, p) else CallbackReleased(n)
  }

  function AfterResolved(t: Table, name: string, device: Device): Table {
    var u := t.(resolving := t.resolving - {name}, discovered := t.discovered[device.serviceName := device]);
    if device.serviceName in t.discovered && t.discovered[device.serviceName] == device then u
    else u.(snapshot := u.discovered.Values)
  }

  function AfterLost(t: Table, name: string): Table {
    var u := t.(resolving := t.resolving - {name});
    if name in t.discovered then
      u.(discovered := t.discovered - {name}, snapshot := (t.discovered - {name}).Values)
    else u
  }

  function AfterWifiAvailable(m: Manager, network: Network, p: Platform): Manager {
    if !m.callbackRegistered then m
    else
      var n := m.(wifi := Some(network));
      if m.wifi.None? then
        if m.desired && m.listener.None? && !m.stopInProgress then AfterStart(n, true, p) else n
      else if m.wifi == Some(network) then n
      else n.(restartTimers := 1)
  }

  function AfterWifiLost(m: Manager, network: Network): Manager {
    if m.wifi != Some(network) then m else Cleared(m.(wifi := None))
  }

  function Step(m: Manager, t: Task, p: Platform): Manager
    requires Enabled(m, t)
  {
    match t
    case StartDiscovery(lease) => AfterStartTask(m, lease, p)
    case StopDiscovery(lease) => AfterStopTask(m, lease, p)
    case RefreshDiscovery(lease) => AfterRefresh(m, lease, p)
    case Shutdown => AfterShutdown(m, p)
    case StartTimer => AfterStartTimer(m, p)
    case RestartTimer => AfterRestartTimer(m)
    case PostedRefresh => AfterPostedRefresh(m, p)
    case StartFailed(l) => AfterStartFailure(m, l)
    case StopFailed(l) => AfterStopFailed(m, l)
    case Started(_) => m.(stopInProgress := false)
    case Stopped(l) => AfterStopped(m, l, p)
    case ServiceFound(name) => m.(table := m.table.(resolving := m.table.resolving + {name}))
    case ResolveFailed(name) => m.(table := m.table.(resolving := m.table.resolving - {name}))
    case ServiceResolved(name, device) => m.(table := AfterResolved(m.table, name, device))
    case ServiceLost(name) => m.(table := AfterLost(m.table, name))
    case WifiAvailable(network) => AfterWifiAvailable(m, network, p)
    case WifiLost(network) => AfterWifiLost(m, network)
  }

  /** A timer task runs only if it is scheduled, a callback only for a listener that exists. */
  predicate Enabled(m: Manager, t: Task) {
    match t
    case StartTimer => m.startTimers > 0
    case RestartTimer => m.restartTimers > 0
    case PostedRefresh => m.postedRefreshes > 0
    case StartFailed(l) => l < m.created
    case StopFailed(l) => l < m.created
    case Started(l) => l < m.created
    case Stopped(l) => l < m.created
    case _ => true
  }

  /** `n` is reached from `m` by the main handler running `tasks` in order. */
  ghost predicate Run(m: Manager, tasks: seq<(Task, Platform)>, n: Manager)
    decreases |tasks|
  {
    if tasks == [] then m == n
    else Enabled(m, tasks[0].0) && Run(Step(m, tasks[0].0, tasks[0].1), tasks[1..], n)
  }

  // ---------------------------------------------------------------------------
  // What every run keeps
  // ---------------------------------------------------------------------------

  /** The flags, the leases and the listener agree. */
  ghost predicate FlagsAgree(m: Manager) {
    && (m.desired <==> m.leases != {})
    && (m.pendingClear ==> m.pendingRestart)
    && (m.pendingRestart ==> m.desired)
    && (m.stopInProgress ==> m.listener.Some?)
    && (m.startTimers > 0 ==> m.desired)
    && (m.restartTimers > 0 ==> m.callbackRegistered)
    && (m.lockHeld ==> m.listener.Some?)
    && (m.listener.Some? ==> m.listener.value < m.created)
    && (forall l <- m.stopCalled :: l < m.created)
    && m.table.snapshot == m.table.discovered.Values
  }

  /** A wanted restart will be carried out by the running listener's end or by a timer. */
  ghost predicate RestartIsCarried(m: Manager) {
    m.pendingRestart ==> m.listener.Some? || m.startTimers > 0
  }

  ghost predicate CallbackNeeded(m: Manager) {
    m.callbackRegistered ==> m.desired || m.listener.Some?
  }

  ghost predicate Invariant(m: Manager) {
    FlagsAgree(m) && RestartIsCarried(m) && CallbackNeeded(m)
  }

  lemma StartKeepsInvariant(m: Manager, clear: bool, p: Platform)
    requires Invariant(m)
    ensures Invariant(AfterStart(m, clear, p))
  {
  }

  lemma StopKeepsInvariant(m: Manager, finalStop: bool, p: Platform)
    requires FlagsAgree(m)
    requires if finalStop then !m.desired else m.desired && m.listener.Some?
    ensures Invariant(AfterStop(m, finalStop, p))
  {
  }

  lemma RestartKeepsInvariant(m: Manager, p: Platform)
    requires FlagsAgree(m) && CallbackNeeded(m)
    ensures Invariant(AfterRestart(m, p))
  {
    if m.desired && m.pendingRestart && m.listener.None? {
      StartKeepsInvariant(m.(pendingRestart := false, pendingClear := false), m.pendingClear, p);
    }
  }

  lemma RefreshKeepsInvariant(m: Manager, lease: Lease, p: Platform)
    requires Invariant(m)
    ensures Invariant(AfterRefresh(m, lease, p))
  {
    var n := RestartPlanned(m, lease);
    if m.listener.Some? { StopKeepsInvariant(n, false, p); } else { RestartKeepsInvariant(n, p); }
  }

  lemma DropKeepsInvariant(m: Manager, l: Listener, p: Platform)
    requires Invariant(m)
    ensures Invariant(AfterStartFailure(m, l))
    ensures Invariant(AfterStopFailed(m, l))
    ensures Invariant(AfterStopped(m, l, p))
  {
    if m.pendingRestart && m.desired { RestartKeepsInvariant(ListenerDropped(m, l), p); }
  }

  lemma TableStaysCurrent(t: Table, name: string, device: Device)
    requires t.snapshot == t.discovered.Values
    ensures AfterResolved(t, name, device).snapshot == AfterResolved(t, name, device).discovered.Values
    ensures AfterLost(t, name).snapshot == AfterLost(t, name).discovered.Values
  {
    if device.serviceName in t.discovered && t.discovered[device.serviceName] == device {
      assert t.discovered[device.serviceName := device] == t.discovered;
    }
  }

  lemma StartTaskKeepsInvariant(m: Manager, lease: Lease, p: Platform)
    requires Invariant(m)
    ensures Invariant(AfterStartTask(m, lease, p))
  {
    StartKeepsInvariant(m.(leases := m.leases + {lease}, desired := true), false, p);
  }

  lemma StopTaskKeepsInvariant(m: Manager, lease: Lease, p: Platform)
    requires Invariant(m)
    ensures Invariant(AfterStopTask(m, lease, p))
    ensures Invariant(AfterShutdown(m, p))
  {
    var n := m.(leases := m.leases - {lease}, desired := m.leases - {lease} != {});
    if !n.desired { StopKeepsInvariant(NoLongerWanted(n), true, p); }
    StopKeepsInvariant(NoLongerWanted(m.(leases := {})), true, p);
  }

  lemma TimerKeepsInvariant(m: Manager, p: Platform)
    requires Invariant(m)
    ensures m.startTimers > 0 ==> Invariant(AfterStartTimer(m, p))
    ensures m.postedRefreshes > 0 ==> Invariant(AfterPostedRefresh(m, p))
    ensures m.restartTimers > 0 ==> Invariant(AfterRestartTimer(m))
  {
    if m.startTimers > 0 { RestartKeepsInvariant(m.(startTimers := m.startTimers - 1), p); }
    if m.postedRefreshes > 0 { RefreshKeepsInvariant(m.(postedRefreshes := m.postedRefreshes - 1), UserScan, p); }
  }

  lemma WifiKeepsInvariant(m: Manager, network: Network, p: Platform)
    requires Invariant(m)
    ensures Invariant(AfterWifiAvailable(m, network, p))
  {
    StartKeepsInvariant(m.(wifi := Some(network)), true, p);
  }

  lemma {:induction false} StepKeepsInvariant(m: Manager, t: Task, p: Platform)
    requires Invariant(m) && Enabled(m, t)
    ensures Invariant(Step(m, t, p))
  {
    match t
    case StartDiscovery(lease) => StartTaskKeepsInvariant(m, lease, p);
    case StopDiscovery(lease) => StopTaskKeepsInvariant(m, lease, p);
    case RefreshDiscovery(lease) => RefreshKeepsInvariant(m, lease, p);
    case Shutdown => StopTaskKeepsInvariant(m, UserScan, p);
    case StartTimer => TimerKeepsInvariant(m, p);
    case RestartTimer => TimerKeepsInvariant(m, p);
    case PostedRefresh => TimerKeepsInvariant(m, p);
    case StartFailed(l) => DropKeepsInvariant(m, l, p);
    case StopFailed(l) => DropKeepsInvariant(m, l, p);
    case Stopped(l) => DropKeepsInvariant(m, l, p);
    case WifiAvailable(network) => WifiKeepsInvariant(m, network, p);
    case Started(_) =>
    case ServiceResolved(name, device) => TableStaysCurrent(m.table, name, device);
    case ServiceLost(name) => TableStaysCurrent(m.table, name, Device("", ""));
    case _ =>
  }

  lemma {:induction false} RunKeepsInvariant(m: Manager, tasks: seq<(Task, Platform)>, n: Manager)
    requires Invariant(m) && Run(m, tasks, n)
    ensures Invariant(n)
    decreases |tasks|
  {
    if tasks != [] {
      StepKeepsInvariant(m, tasks[0].0, tasks[0].1);
      RunKeepsInvariant(Step(m, tasks[0].0, tasks[0].1), tasks[1..], n);
    }
  }

  /**
    In every run, late answers from dropped listeners included: a pending clear implies a
    pending restart, a pending restart is wanted and has a listener or a timer to carry it
    out, discovery is wanted exactly while a lease is held, a stop in progress has its
    listener, and the published list is what has been discovered.
   */
  lemma RestartIsNeverStranded(tasks: seq<(Task, Platform)>, m: Manager)
    requires Run(INITIAL, tasks, m)
    ensures m.pendingClear ==> m.pendingRestart
    ensures m.pendingRestart ==> m.desired && (m.listener.Some? || m.startTimers > 0)
    ensures m.desired <==> m.leases != {}
    ensures m.stopInProgress ==> m.listener.Some?
    ensures m.table.snapshot == m.table.discovered.Values
  {
    RunKeepsInvariant(INITIAL, tasks, m);
  }

  /**
    In every run, with no lease and no listener left neither the lock nor the callback is
    held and no delayed task is scheduled.  A refresh that was already posted may remain.
   */
  lemma NothingLeaks(tasks: seq<(Task, Platform)>, m: Manager)
    requires Run(INITIAL, tasks, m) && m.leases == {} && m.listener.None?
    ensures !m.lockHeld && !m.callbackRegistered && m.startTimers == 0 && m.restartTimers == 0
    ensures !m.desired && !m.pendingRestart && !m.pendingClear && !m.stopInProgress
  {
    RunKeepsInvariant(INITIAL, tasks, m);
  }

  /** A task by which a client asks for discovery. */
  predicate Asks(t: Task) {
    t.StartDiscovery? || t.RefreshDiscovery?
  }

  ghost predicate NobodyAsks(tasks: seq<(Task, Platform)>) {
    forall i :: 0 <= i < |tasks| ==> !Asks(tasks[i].0)
  }

  /** No lease and no posted refresh. */
  predicate AtRest(m: Manager) {
    m.leases == {} && m.postedRefreshes == 0
  }

  lemma StepStaysAtRest(m: Manager, t: Task, p: Platform)
    requires Invariant(m) && Enabled(m, t) && AtRest(m) && !Asks(t)
    ensures AtRest(Step(m, t, p))
  {
  }

  lemma {:induction false} RunStaysAtRest(m: Manager, tasks: seq<(Task, Platform)>, n: Manager)
    requires Invariant(m) && AtRest(m) && Run(m, tasks, n) && NobodyAsks(tasks)
    ensures AtRest(n)
    decreases |tasks|
  {
    if tasks != [] {
      var (t, p) := tasks[0];
      assert !Asks(t);
      StepStaysAtRest(m, t, p);
      StepKeepsInvariant(m, t, p);
      forall i | 0 <= i < |tasks[1..]| ensures !Asks(tasks[1..][i].0) { assert tasks[1..][i] == tasks[i + 1]; }
      RunStaysAtRest(Step(m, t, p), tasks[1..], n);
    }
  }

  /**
    Exactly when discovery stays off once no lease is held: in every continuation in which
    no client asks for it, there is no lease if and only if no refresh has been posted.
   */
  lemma StaysOffExactly(before: seq<(Task, Platform)>, m: Manager)
    requires Run(INITIAL, before, m) && m.leases == {}
    ensures (forall tasks, n :: Run(m, tasks, n) && NobodyAsks(tasks) ==> n.leases == {}) <==> m.postedRefreshes == 0
  {
    RunKeepsInvariant(INITIAL, before, m);
    if m.postedRefreshes == 0 {
      forall tasks, n | Run(m, tasks, n) && NobodyAsks(tasks) ensures n.leases == {} {
        RunStaysAtRest(m, tasks, n);
      }
    } else {
      var p := AnyPlatform();
      var n := Step(m, PostedRefresh, p);
      OneStepRun(m, PostedRefresh, p);
      assert NobodyAsks([(PostedRefresh, p)]);
      assert UserScan in n.leases;
    }
  }

  lemma OneStepRun(m: Manager, t: Task, p: Platform)
    requires Enabled(m, t)
    ensures Run(m, [(t, p)], Step(m, t, p))
  {
    assert [(t, p)][1..] == [];
    assert Run(Step(m, t, p), [], Step(m, t, p));
  }

  lemma {:induction false} RunThen(m: Manager, tasks: seq<(Task, Platform)>, n: Manager, t: Task, p: Platform)
    requires Run(m, tasks, n) && Enabled(n, t)
    ensures Run(m, tasks + [(t, p)], Step(n, t, p))
    decreases |tasks|
  {
    if tasks == [] {
      OneStepRun(m, t, p);
      assert [] + [(t, p)] == [(t, p)];
    } else {
      RunThen(Step(m, tasks[0].0, tasks[0].1), tasks[1..], n, t, p);
      assert (tasks + [(t, p)])[1..] == tasks[1..] + [(t, p)];
    }
  }

  /**
    The exception does occur: a change of network posts a refresh, the only client stops
    discovery and NSD reports its end, and then the refresh starts discovery again on a
    lease that nobody holds.
   */
  lemma PostedRefreshRevives(old_: Network, new_: Network, p: Platform)
    returns (before: seq<(Task, Platform)>, m: Manager, after: Manager)
    requires !p.startThrows && !p.stopThrows && !p.registerThrows && p.activeWifi == Some(old_) && old_ != new_
    ensures Run(INITIAL, before, m) && m.leases == {} && m.listener.None? && m.postedRefreshes == 1
    ensures after == Step(m, PostedRefresh, p)
    ensures after.leases == {UserScan} && after.listener.Some? && after.lockHeld && after.callbackRegistered
  {
    before, m := [], INITIAL;
    before, m := Next(before, m, StartDiscovery(TrustedReconnect), p);
    before, m := Next(before, m, WifiAvailable(new_), p);
    before, m := Next(before, m, RestartTimer, p);
    before, m := Next(before, m, StopDiscovery(TrustedReconnect), p);
    before, m := Next(before, m, Stopped(0), p);
    after := Step(m, PostedRefresh, p);
  }

  lemma Next(before: seq<(Task, Platform)>, m: Manager, t: Task, p: Platform)
    returns (longer: seq<(Task, Platform)>, n: Manager)
    requires Run(INITIAL, before, m) && Enabled(m, t)
    ensures n == Step(m, t, p) && Run(INITIAL, longer, n)
  {
    longer, n := before + [(t, p)], Step(m, t, p);
    RunThen(INITIAL, before, m, t, p);
  }

  /** The branch of AfterStart that defers a start behind a stop in progress is never taken. */
  lemma DeferralIsDead(tasks: seq<(Task, Platform)>, m: Manager, lease: Lease, p: Platform)
    requires Run(INITIAL, tasks, m)
    ensures !(m.listener.None? && m.stopInProgress)
    ensures m.listener.None? && !p.startThrows ==> Step(m, StartDiscovery(lease), p).listener == Some(m.created)
    ensures m.listener.Some? ==>
              Step(m, StartDiscovery(lease), p) == m.(leases := m.leases + {lease}, desired := true)
  {
    RunKeepsInvariant(INITIAL, tasks, m);
  }

  // ---------------------------------------------------------------------------
  // Progress
  // ---------------------------------------------------------------------------

  /** Wanted discovery is running or will be restarted. */
  ghost predicate Progress(m: Manager) {
    m.desired && m.listener.None? ==> m.pendingRestart
  }

  /** The listener is being stopped for good. */
  predicate FinalStopOutstanding(m: Manager) {
    m.listener.Some? && m.listener.value in m.stopCalled && !m.pendingRestart
  }

  /** NSD reports the end of a scan only after a stop, and no start arrives during a final stop. */
  predicate Orderly(m: Manager, t: Task) {
    && Enabled(m, t)
    && (t.Stopped? || t.StopFailed? ==> t.listener in m.stopCalled)
    && (t.StartDiscovery? ==> !FinalStopOutstanding(m))
  }

  ghost predicate OrderlyRun(m: Manager, tasks: seq<(Task, Platform)>, n: Manager)
    decreases |tasks|
  {
    if tasks == [] then m == n
    else Orderly(m, tasks[0].0) && OrderlyRun(Step(m, tasks[0].0, tasks[0].1), tasks[1..], n)
  }

  ghost predicate StopsForRestart(m: Manager) {
    m.desired && m.listener.Some? && m.listener.value in m.stopCalled ==> m.pendingRestart
  }

  ghost predicate Progressing(m: Manager) {
    Invariant(m) && Progress(m) && StopsForRestart(m)
  }

  /** Starting always ends with a listener or with a pending restart. */
  lemma StartProgresses(m: Manager, clear: bool, p: Platform)
    requires FlagsAgree(m) && StopsForRestart(m)
    ensures Progress(AfterStart(m, clear, p)) && StopsForRestart(AfterStart(m, clear, p))
  {
  }

  lemma RestartProgresses(m: Manager, p: Platform)
    requires FlagsAgree(m) && Progress(m) && StopsForRestart(m)
    ensures Progress(AfterRestart(m, p)) && StopsForRestart(AfterRestart(m, p))
  {
    if m.desired && m.pendingRestart && m.listener.None? {
      StartProgresses(m.(pendingRestart := false, pendingClear := false), m.pendingClear, p);
    }
  }

  lemma RefreshProgresses(m: Manager, lease: Lease, p: Platform)
    requires FlagsAgree(m)
    ensures Progress(AfterRefresh(m, lease, p)) && StopsForRestart(AfterRefresh(m, lease, p))
  {
    var n := RestartPlanned(m, lease);
    if m.listener.None? { RestartProgresses(n, p); }
  }

  lemma DropProgresses(m: Manager, l: Listener, p: Platform)
    requires Progressing(m)
    ensures Progress(AfterStartFailure(m, l)) && StopsForRestart(AfterStartFailure(m, l))
    ensures l in m.stopCalled ==> Progress(AfterStopFailed(m, l)) && StopsForRestart(AfterStopFailed(m, l))
    ensures l in m.stopCalled ==> Progress(AfterStopped(m, l, p)) && StopsForRestart(AfterStopped(m, l, p))
  {
    if l in m.stopCalled { RestartProgresses(ListenerDropped(m, l), p); }
  }

  lemma StartTaskProgresses(m: Manager, lease: Lease, p: Platform)
    requires Progressing(m) && !FinalStopOutstanding(m)
    ensures Progress(AfterStartTask(m, lease, p)) && StopsForRestart(AfterStartTask(m, lease, p))
  {
    StartProgresses(m.(leases := m.leases + {lease}, desired := true), false, p);
  }

  lemma TimerProgresses(m: Manager, p: Platform)
    requires Progressing(m)
    ensures m.startTimers > 0 ==> Progress(AfterStartTimer(m, p)) && StopsForRestart(AfterStartTimer(m, p))
    ensures m.postedRefreshes > 0 ==> Progress(AfterPostedRefresh(m, p)) && StopsForRestart(AfterPostedRefresh(m, p))
  {
    if m.startTimers > 0 { RestartProgresses(m.(startTimers := m.startTimers - 1), p); }
    if m.postedRefreshes > 0 { RefreshProgresses(m.(postedRefreshes := m.postedRefreshes - 1), UserScan, p); }
  }

  /** A stop leaves the scan running for another lease, or wanted no more. */
  lemma StopTaskProgresses(m: Manager, lease: Lease, p: Platform)
    requires Progressing(m)
    ensures Progress(AfterStopTask(m, lease, p)) && StopsForRestart(AfterStopTask(m, lease, p))
    ensures Progress(AfterShutdown(m, p)) && StopsForRestart(AfterShutdown(m, p))
  {
  }

  lemma WifiProgresses(m: Manager, network: Network, p: Platform)
    requires Progressing(m)
    ensures Progress(AfterWifiAvailable(m, network, p)) && StopsForRestart(AfterWifiAvailable(m, network, p))
  {
    StartProgresses(m.(wifi := Some(network)), true, p);
  }

  /** The tasks that neither start nor stop a scan. */
  lemma OtherTasksProgress(m: Manager, t: Task, p: Platform)
    requires Progressing(m) && Enabled(m, t)
    requires t.RestartTimer? || t.Started? || t.ServiceFound? || t.ResolveFailed? || t.ServiceResolved? || t.ServiceLost? || t.WifiLost?
    ensures Progress(Step(m, t, p)) && StopsForRestart(Step(m, t, p))
  {
  }

  lemma TaskProgresses(m: Manager, t: Task, p: Platform)
    requires Progressing(m) && Orderly(m, t)
    ensures Progress(Step(m, t, p)) && StopsForRestart(Step(m, t, p))
  {
    match t
    case StartDiscovery(lease) => StartTaskProgresses(m, lease, p);
    case StopDiscovery(lease) => StopTaskProgresses(m, lease, p);
    case RefreshDiscovery(lease) => RefreshProgresses(m, lease, p);
    case Shutdown => StopTaskProgresses(m, UserScan, p);
    case StartTimer => TimerProgresses(m, p);
    case PostedRefresh => TimerProgresses(m, p);
    case StartFailed(l) => DropProgresses(m, l, p);
    case StopFailed(l) => DropProgresses(m, l, p);
    case Stopped(l) => DropProgresses(m, l, p);
    case WifiAvailable(network) => WifiProgresses(m, network, p);
    case _ => OtherTasksProgress(m, t, p);
  }

  lemma {:induction false} StepKeepsProgressing(m: Manager, t: Task, p: Platform)
    requires Progressing(m) && Orderly(m, t)
    ensures Progressing(Step(m, t, p))
  {
    StepKeepsInvariant(m, t, p);
    TaskProgresses(m, t, p);
  }

  lemma {:induction false} OrderlyRunKeepsProgressing(m: Manager, tasks: seq<(Task, Platform)>, n: Manager)
    requires Progressing(m) && OrderlyRun(m, tasks, n)
    ensures Progressing(n)
    decreases |tasks|
  {
    if tasks != [] {
      StepKeepsProgressing(m, tasks[0].0, tasks[0].1);
      OrderlyRunKeepsProgressing(Step(m, tasks[0].0, tasks[0].1), tasks[1..], n);
    }
  }

  /** In every orderly run wanted discovery has a listener or a pending restart. */
  lemma WantedDiscoveryResumes(tasks: seq<(Task, Platform)>, m: Manager)
    requires OrderlyRun(INITIAL, tasks, m)
    ensures m.desired && m.listener.None? ==> m.pendingRestart && m.startTimers > 0
  {
    OrderlyRunKeepsProgressing(INITIAL, tasks, m);
  }

  /** Every orderly continuation keeps wanted discovery going. */
  ghost predicate KeepsGoing(m: Manager) {
    forall tasks, n :: OrderlyRun(m, tasks, n) ==> Progress(n)
  }

  /**
    Exactly when a start is safe: after a start in a state of an orderly run, every orderly
    continuation keeps discovery going if and only if no final stop is outstanding.
   */
  lemma StartIsSafeExactly(before: seq<(Task, Platform)>, m: Manager, lease: Lease, p: Platform)
    requires OrderlyRun(INITIAL, before, m)
    ensures KeepsGoing(Step(m, StartDiscovery(lease), p)) <==> !FinalStopOutstanding(m)
  {
    OrderlyRunKeepsProgressing(INITIAL, before, m);
    var s := Step(m, StartDiscovery(lease), p);
    if FinalStopOutstanding(m) {
      var stopped := Stopped(m.listener.value);
      var n := Step(s, stopped, p);
      assert OrderlyRun(n, [], n);
      assert [(stopped, p)][1..] == [];
      assert OrderlyRun(s, [(stopped, p)], n);
      assert !Progress(n);
      assert !KeepsGoing(s);
    } else {
      StepKeepsProgressing(m, StartDiscovery(lease), p);
      forall after, n | OrderlyRun(s, after, n) ensures Progress(n) {
        OrderlyRunKeepsProgressing(s, after, n);
      }
    }
  }

  /** The unsafe case does occur: start, stop, start again before NSD has stopped. */
  lemma FinalStopCanBeOutstanding(p: Platform) returns (m: Manager)
    requires !p.startThrows && !p.stopThrows
    ensures OrderlyRun(INITIAL, [(StartDiscovery(UserScan), p), (StopDiscovery(UserScan), p)], m)
    ensures FinalStopOutstanding(m)
  {
    var a, b := (StartDiscovery(UserScan), p), (StopDiscovery(UserScan), p);
    var s := Step(INITIAL, a.0, p);
    m := Step(s, b.0, p);
    assert OrderlyRun(m, [], m);
    assert [b][1..] == [];
    assert OrderlyRun(s, [b], m);
    assert [a, b][1..] == [b];
  }

  // ---------------------------------------------------------------------------
  // The lock and the callback of a running scan
  // ---------------------------------------------------------------------------

  /** A scan has its multicast lock and its network callback. */
  predicate Equipped(m: Manager) {
    m.listener.Some? ==> m.lockHeld && m.callbackRegistered
  }

  /** An answer of a listener that was dropped while another one runs. */
  predicate IsLate(m: Manager, t: Task) {
    (t.StartFailed? || t.StopFailed? || t.Stopped?) && m.listener.Some? && t.listener != m.listener.value
  }

  lemma RestartIsEquipped(m: Manager, p: Platform)
    requires Equipped(m) && !p.registerThrows
    ensures Equipped(AfterRestart(m, p))
  {
  }

  /** The answers of a listener take away the lock, whoever has it. */
  lemma AnswerIsEquippedExactly(m: Manager, t: Task, p: Platform)
    requires Invariant(m) && Equipped(m) && Enabled(m, t) && !p.registerThrows
    requires t.StartFailed? || t.StopFailed? || t.Stopped?
    ensures Equipped(Step(m, t, p)) <==> !IsLate(m, t)
  {
    if t.Stopped? && !IsLate(m, t) { RestartIsEquipped(ListenerDropped(m, t.listener), p); }
  }

  lemma OtherTasksAreEquipped(m: Manager, t: Task, p: Platform)
    requires Invariant(m) && Equipped(m) && Enabled(m, t) && !p.registerThrows
    requires !t.StartFailed? && !t.StopFailed? && !t.Stopped?
    ensures Equipped(Step(m, t, p))
  {
    match t
    case StartTimer => RestartIsEquipped(m.(startTimers := m.startTimers - 1), p);
    case RefreshDiscovery(lease) => RestartIsEquipped(RestartPlanned(m, lease), p);
    case PostedRefresh => RestartIsEquipped(RestartPlanned(m.(postedRefreshes := m.postedRefreshes - 1), UserScan), p);
    case _ =>
  }

  /** Every task comes before any late answer, and registering the callback works. */
  ghost predicate PromptRun(m: Manager, tasks: seq<(Task, Platform)>, n: Manager)
    decreases |tasks|
  {
    if tasks == [] then m == n
    else
      && Enabled(m, tasks[0].0) && !IsLate(m, tasks[0].0) && !tasks[0].1.registerThrows
      && PromptRun(Step(m, tasks[0].0, tasks[0].1), tasks[1..], n)
  }

  lemma {:induction false} PromptRunIsEquipped(m: Manager, tasks: seq<(Task, Platform)>, n: Manager)
    requires Invariant(m) && Equipped(m) && PromptRun(m, tasks, n)
    ensures Invariant(n) && Equipped(n)
    decreases |tasks|
  {
    if tasks != [] {
      var (t, p) := tasks[0];
      StepKeepsInvariant(m, t, p);
      if t.StartFailed? || t.StopFailed? || t.Stopped? { AnswerIsEquippedExactly(m, t, p); }
      else { OtherTasksAreEquipped(m, t, p); }
      PromptRunIsEquipped(Step(m, t, p), tasks[1..], n);
    }
  }

  /**
    Exactly when a scan keeps its lock and its callback: in every run without late answers
    a listener has both, and the next task leaves it so if and only if it is not one.
   */
  lemma ScanIsEquippedExactly(tasks: seq<(Task, Platform)>, m: Manager, t: Task, p: Platform)
    requires PromptRun(INITIAL, tasks, m) && Enabled(m, t) && !p.registerThrows
    ensures Equipped(m)
    ensures Equipped(Step(m, t, p)) <==> !IsLate(m, t)
  {
    PromptRunIsEquipped(INITIAL, tasks, m);
    if t.StartFailed? || t.StopFailed? || t.Stopped? { AnswerIsEquippedExactly(m, t, p); }
    else { OtherTasksAreEquipped(m, t, p); }
  }

  /**
    A late answer does occur: the stop for a refresh is reported failed, the retry starts
    another listener, and then the first one is reported stopped after all.
   */
  lemma LateAnswerStripsScan(p: Platform) returns (tasks: seq<(Task, Platform)>, m: Manager)
    requires !p.startThrows && !p.stopThrows && !p.registerThrows
    ensures Run(INITIAL, tasks, m)
    ensures m.desired && m.listener == Some(1) && !m.stopInProgress && !m.lockHeld && !m.callbackRegistered
  {
    tasks, m := [], INITIAL;
    tasks, m := Next(tasks, m, StartDiscovery(UserScan), p);
    tasks, m := Next(tasks, m, RefreshDiscovery(UserScan), p);
    tasks, m := Next(tasks, m, StopFailed(0), p);
    tasks, m := Next(tasks, m, StartTimer, p);
    tasks, m := Next(tasks, m, Stopped(0), p);
  }

  // ---------------------------------------------------------------------------
  // What each task achieves
  // ---------------------------------------------------------------------------

  /** A scan has been started, or its retry is scheduled. */
  predicate UnderWay(m: Manager) {
    m.listener.Some? || (m.pendingRestart && m.startTimers > 0)
  }

  /** Neither the lock nor the callback is held and no delayed task is scheduled. */
  predicate Released(m: Manager) {
    !m.lockHeld && !m.callbackRegistered && m.startTimers == 0 && m.restartTimers == 0
  }

  /** The same, except that a start may be scheduled while it is wanted. */
  predicate LetGo(m: Manager) {
    !m.lockHeld && !m.callbackRegistered && m.restartTimers == 0 && (m.startTimers > 0 ==> m.desired)
  }

  /** The listener is gone, or its stop has been requested. */
  predicate Ending(m: Manager) {
    if m.listener.Some? then m.stopInProgress && m.listener.value in m.stopCalled else Released(m)
  }

  lemma StartMeans(m: Manager, clear: bool, p: Platform)
    requires Invariant(m) && m.desired
    ensures var n := AfterStart(m, clear, p);
      && UnderWay(n) && n.leases == m.leases && n.desired
      && (m.listener.Some? ==> n == m)
      && (m.listener.None? && !p.startThrows ==>
            n.listener == Some(m.created) && n.lockHeld && (n.callbackRegistered || p.registerThrows))
      && (m.listener.None? && clear ==> n.table == NOTHING)
  {
  }

  lemma StartTimerMeans(m: Manager, p: Platform)
    requires Invariant(m) && m.startTimers > 0
    ensures m.pendingRestart ==> UnderWay(AfterStartTimer(m, p))
  {
    if m.pendingRestart && m.listener.None? {
      StartMeans(m.(startTimers := m.startTimers - 1, pendingRestart := false, pendingClear := false), m.pendingClear, p);
    }
  }

  /** The caller's lease is held; a running scan is not disturbed, and otherwise one is under way. */
  ghost predicate ScanWanted(m: Manager, n: Manager, lease: Lease, p: Platform) {
    && n.leases == m.leases + {lease} && n.desired && UnderWay(n)
    && (m.listener.Some? ==> n == m.(leases := n.leases, desired := true))
    && (m.listener.None? && !p.startThrows ==>
          n.listener == Some(m.created) && n.lockHeld && (n.callbackRegistered || p.registerThrows))
  }

  lemma StartTaskMeans(m: Manager, lease: Lease, p: Platform)
    requires Invariant(m)
    ensures ScanWanted(m, AfterStartTask(m, lease, p), lease, p)
  {
    StartMeans(m.(leases := m.leases + {lease}, desired := true), false, p);
  }

  /** While leases remain nothing else changes; with the last one nothing is planned and the scan is ending. */
  ghost predicate GivenUp(m: Manager, n: Manager, leases: set<Lease>) {
    && n.leases == leases
    && if leases != {} then n == m.(leases := leases)
       else !n.desired && !n.pendingRestart && n.startTimers == 0 && n.restartTimers == 0 && Ending(n)
  }

  lemma StopTaskMeans(m: Manager, lease: Lease, p: Platform)
    requires Invariant(m)
    ensures GivenUp(m, AfterStopTask(m, lease, p), m.leases - {lease})
    ensures GivenUp(m, AfterShutdown(m, p), {})
  {
    if m.leases - {lease} != {} { assert m.leases != {}; }
  }

  /** A scan is under way or being stopped for a restart, and old results are gone or will be cleared. */
  ghost predicate Refreshed(m: Manager, n: Manager, lease: Lease, p: Platform) {
    && n.leases == m.leases + {lease} && n.desired && UnderWay(n)
    && (n.table == NOTHING || n.pendingClear)
    && (m.listener.None? && !p.startThrows ==> n.listener == Some(m.created) && !n.pendingRestart)
    && (m.listener.Some? && !p.stopThrows ==> n.pendingRestart && n.listener.Some? && Ending(n))
  }

  lemma RefreshMeans(m: Manager, lease: Lease, p: Platform)
    requires Invariant(m)
    ensures Refreshed(m, AfterRefresh(m, lease, p), lease, p)
  {
    var n := RestartPlanned(m, lease);
    if m.listener.None? { StartMeans(n.(pendingRestart := false, pendingClear := false), true, p); }
  }

  /** The listener is dropped and its lock free; wanted discovery is retried, and else the callback is released. */
  ghost predicate StartGivenUp(m: Manager, n: Manager, l: Listener) {
    && n.leases == m.leases && n.listener != Some(l) && !n.lockHeld && !n.stopInProgress
    && (if m.desired then n.pendingRestart && n.startTimers == 1 else Released(n))
  }

  lemma StartFailedMeans(m: Manager, l: Listener)
    requires Invariant(m)
    ensures StartGivenUp(m, AfterStartFailure(m, l), l)
  {
  }

  /** The listener is dropped and its lock free; a pending restart gets one more timer, and else the callback is released. */
  ghost predicate StopGivenUp(m: Manager, n: Manager, l: Listener) {
    && n.leases == m.leases && n.listener != Some(l) && !n.lockHeld && !n.stopInProgress
    && (if m.pendingRestart then n.pendingRestart && n.startTimers == m.startTimers + 1 else LetGo(n))
  }

  lemma StopFailedMeans(m: Manager, l: Listener)
    requires Invariant(m)
    ensures StopGivenUp(m, AfterStopFailed(m, l), l)
  {
  }

  /** The listener is dropped; a pending restart is carried out unless another scan runs, and else lock and callback are free. */
  ghost predicate ScanEnded(m: Manager, n: Manager, l: Listener, p: Platform) {
    && n.leases == m.leases && n.listener != Some(l)
    && (if !m.pendingRestart then LetGo(n)
        else
          && UnderWay(n)
          && (m.listener.None? || m.listener == Some(l) ==>
                && (n.listener == Some(m.created) || p.startThrows)
                && !n.pendingClear && (m.pendingClear ==> n.table == NOTHING)))
  }

  lemma StoppedMeans(m: Manager, l: Listener, p: Platform)
    requires Invariant(m) && l < m.created
    ensures ScanEnded(m, AfterStopped(m, l, p), l, p)
  {
    var n := ListenerDropped(m, l);
    if m.pendingRestart && n.listener.None? {
      StartMeans(n.(pendingRestart := false, pendingClear := false), m.pendingClear, p);
    }
  }

  /** The first network starts wanted discovery, the same one nothing, another one a single debounced restart. */
  ghost predicate WifiSeen(m: Manager, n: Manager, network: Network) {
    && n.leases == m.leases
    && (!m.callbackRegistered ==> n == m)
    && (m.callbackRegistered ==>
          && (n.wifi == Some(network) || !n.desired)
          && (m.wifi.None? && m.desired ==> UnderWay(n))
          && (m.wifi == Some(network) ==> n == m)
          && (m.wifi.Some? && m.wifi != Some(network) ==> n == m.(wifi := Some(network), restartTimers := 1)))
  }

  lemma WifiAvailableMeans(m: Manager, network: Network, p: Platform)
    requires Invariant(m)
    ensures WifiSeen(m, AfterWifiAvailable(m, network, p), network)
  {
    if m.desired { StartMeans(m.(wifi := Some(network)), true, p); }
  }

  /** The device is listed under its name, every other device as before, and the published list is current. */
  ghost predicate Listed(t: Table, u: Table, name: string, device: Device) {
    && u.discovered.Keys == t.discovered.Keys + {device.serviceName}
    && u.discovered[device.serviceName] == device
    && (forall k <- t.discovered :: k != device.serviceName ==> u.discovered[k] == t.discovered[k])
    && u.snapshot == u.discovered.Values && name !in u.resolving
  }

  lemma ResolvedMeans(t: Table, name: string, device: Device)
    requires t.snapshot == t.discovered.Values
    ensures Listed(t, AfterResolved(t, name, device), name, device)
  {
    TableStaysCurrent(t, name, device);
  }

  // ---------------------------------------------------------------------------
  // The manager object
  // ---------------------------------------------------------------------------

  /** The manager with its fields; each method is one task of the main handler, or part of one. */
  class NsdDiscoveryManager {
    var leases: set<Lease>
    var desired: bool
    var listener: Option<Listener>
    var created: nat
    var stopInProgress: bool
    var pendingRestart: bool
    var pendingClear: bool
    var startTimers: nat
    var restartTimers: nat
    var postedRefreshes: nat
    var lockHeld: bool
    var callbackRegistered: bool
    var wifi: Option<Network>
    var table: Table
    ghost var stopCalled: set<Listener>

    ghost function View(): Manager
      reads this
    {
      Manager(leases, desired, listener, created, stopInProgress, pendingRestart, pendingClear,
              startTimers, restartTimers, postedRefreshes, lockHeld, callbackRegistered, wifi,
              table, stopCalled)
    }

    ghost predicate Valid()
      reads this
    {
      Invariant(View())
    }

    constructor ()
      ensures Valid() && View() == INITIAL
    {
      leases, desired, listener, created := {}, false, None, 0;
      stopInProgress, pendingRestart, pendingClear := false, false, false;
      startTimers, restartTimers, postedRefreshes := 0, 0, 0;
      lockHeld, callbackRegistered, wifi := false, false, None;
      table, stopCalled := NOTHING, {};
    }

    method TakeLease(lease: Lease)
      modifies this
      ensures View() == old(View()).(leases := old(leases) + {lease}, desired := true)
    {
      leases := leases + {lease};
      desired := true;
    }

    method OnStartDiscovery(lease: Lease, p: Platform)
      requires Valid()
      modifies this
      ensures Valid() && View() == AfterStartTask(old(View()), lease, p)
      ensures ScanWanted(old(View()), View(), lease, p)
    {
      StartTaskKeepsInvariant(View(), lease, p);
      StartTaskMeans(View(), lease, p);
      TakeLease(lease);
      StartDiscoveryLocked(false, p);
    }

    method OnStopDiscovery(lease: Lease, p: Platform)
      requires Valid()
      modifies this
      ensures Valid() && View() == AfterStopTask(old(View()), lease, p)
      ensures GivenUp(old(View()), View(), old(leases) - {lease})
    {
      StopTaskKeepsInvariant(View(), lease, p);
      StopTaskMeans(View(), lease, p);
      leases := leases - {lease};
      desired := leases != {};
      if desired { return; }
      NotWanted();
      StopDiscoveryLocked(true, p);
    }

    /** Cancels the timers and forgets a pending restart. */
    method NotWanted()
      requires !desired
      modifies this
      ensures View() == NoLongerWanted(old(View()))
    {
      startTimers, restartTimers := 0, 0;
      pendingRestart, pendingClear := false, false;
    }

    method OnRefreshDiscovery(lease: Lease, p: Platform)
      requires Valid()
      modifies this
      ensures Valid() && View() == AfterRefresh(old(View()), lease, p)
      ensures Refreshed(old(View()), View(), lease, p)
    {
      RefreshKeepsInvariant(View(), lease, p);
      RefreshMeans(View(), lease, p);
      PlanRestart(lease);
      if listener.Some? {
        StopDiscoveryLocked(false, p);
      } else if !stopInProgress {
        FinishPendingRestart(p);
      }
    }

    method PlanRestart(lease: Lease)
      modifies this
      ensures View() == RestartPlanned(old(View()), lease)
    {
      leases := leases + {lease};
      desired := true;
      pendingRestart, pendingClear := true, true;
    }

    method OnShutdown(p: Platform)
      requires Valid()
      modifies this
      ensures Valid() && View() == AfterShutdown(old(View()), p)
      ensures GivenUp(old(View()), View(), {})
    {
      StopTaskKeepsInvariant(View(), UserScan, p);
      StopTaskMeans(View(), UserScan, p);
      leases := {};
      desired := false;
      NotWanted();
      assert View() == NoLongerWanted(old(View()).(leases := {}));
      StopDiscoveryLocked(true, p);
    }

    method OnStartTimer(p: Platform)
      requires Valid() && startTimers > 0
      modifies this
      ensures Valid() && View() == AfterStartTimer(old(View()), p)
      ensures old(pendingRestart) ==> UnderWay(View())
    {
      TimerKeepsInvariant(View(), p);
      StartTimerMeans(View(), p);
      startTimers := startTimers - 1;
      assert View() == old(View()).(startTimers := startTimers);
      FinishPendingRestart(p);
    }

    method OnRestartTimer()
      requires Valid() && restartTimers > 0
      modifies this
      ensures Valid() && View() == AfterRestartTimer(old(View()))
      ensures postedRefreshes == old(postedRefreshes) + if old(desired) then 1 else 0
    {
      TimerKeepsInvariant(View(), AnyPlatform());
      restartTimers := restartTimers - 1;
      if callbackRegistered && desired { postedRefreshes := postedRefreshes + 1; }
    }

    method OnPostedRefresh(p: Platform)
      requires Valid() && postedRefreshes > 0
      modifies this
      ensures Valid() && View() == AfterPostedRefresh(old(View()), p)
      ensures UserScan in leases && UnderWay(View())
    {
      TimerKeepsInvariant(View(), p);
      postedRefreshes := postedRefreshes - 1;
      assert View() == old(View()).(postedRefreshes := postedRefreshes);
      OnRefreshDiscovery(UserScan, p);
    }

    method OnStartFailed(l: Listener)
      requires Valid() && l < created
      modifies this
      ensures Valid() && View() == AfterStartFailure(old(View()), l)
      ensures StartGivenUp(old(View()), View(), l)
    {
      DropKeepsInvariant(View(), l, AnyPlatform());
      StartFailedMeans(View(), l);
      StartHasFailed(l);
    }

    method OnStopFailed(l: Listener)
      requires Valid() && l < created
      modifies this
      ensures Valid() && View() == AfterStopFailed(old(View()), l)
      ensures StopGivenUp(old(View()), View(), l)
    {
      DropKeepsInvariant(View(), l, AnyPlatform());
      StopFailedMeans(View(), l);
      DropListener(l);
      if pendingRestart && desired {
        startTimers := startTimers + 1;
      } else {
        ReleaseNetworkCallback();
      }
    }

    method OnStarted()
      requires Valid()
      modifies this
      ensures Valid() && View() == old(View()).(stopInProgress := false)
    {
      stopInProgress := false;
    }

    method OnStopped(l: Listener, p: Platform)
      requires Valid() && l < created
      modifies this
      ensures Valid() && View() == AfterStopped(old(View()), l, p)
      ensures ScanEnded(old(View()), View(), l, p)
    {
      DropKeepsInvariant(View(), l, p);
      StoppedMeans(View(), l, p);
      DropListener(l);
      if pendingRestart && desired {
        FinishPendingRestart(p);
      } else {
        ReleaseNetworkCallback();
      }
    }

    method OnServiceFound(name: string) returns (resolve: bool)
      requires Valid()
      modifies this`table
      ensures Valid() && table == old(table).(resolving := old(table).resolving + {name})
      ensures resolve == (name !in old(table).resolving)
    {
      resolve := name !in table.resolving;
      table := table.(resolving := table.resolving + {name});
    }

    method OnResolveFailed(name: string)
      requires Valid()
      modifies this`table
      ensures Valid() && table == old(table).(resolving := old(table).resolving - {name})
    {
      table := table.(resolving := table.resolving - {name});
    }

    method OnServiceResolved(name: string, device: Device)
      requires Valid()
      modifies this`table
      ensures Valid() && table == AfterResolved(old(table), name, device)
      ensures Listed(old(table), table, name, device)
    {
      ResolvedMeans(table, name, device);
      table := table.(resolving := table.resolving - {name});
      var same := device.serviceName in table.discovered && table.discovered[device.serviceName] == device;
      table := table.(discovered := table.discovered[device.serviceName := device]);
      if !same { EmitSnapshot(); }
    }

    method OnServiceLost(name: string)
      requires Valid()
      modifies this`table
      ensures Valid() && table == AfterLost(old(table), name)
      ensures table.discovered == old(table.discovered) - {name} && table.snapshot == table.discovered.Values
    {
      TableStaysCurrent(table, name, Device(name, ""));
      table := table.(resolving := table.resolving - {name});
      if name in table.discovered {
        table := table.(discovered := table.discovered - {name});
        EmitSnapshot();
      }
    }

    method OnWifiAvailable(network: Network, p: Platform)
      requires Valid()
      modifies this
      ensures Valid() && View() == AfterWifiAvailable(old(View()), network, p)
      ensures WifiSeen(old(View()), View(), network)
    {
      WifiKeepsInvariant(View(), network, p);
      WifiAvailableMeans(View(), network, p);
      if !callbackRegistered { return; }
      var previous := wifi;
      wifi := Some(network);
      if previous.None? {
        if desired && listener.None? && !stopInProgress { StartDiscoveryLocked(true, p); }
        return;
      }
      if previous == Some(network) { return; }
      restartTimers := 1;
    }

    method OnWifiLost(network: Network)
      requires Valid()
      modifies this
      ensures Valid() && View() == AfterWifiLost(old(View()), network)
      ensures old(wifi) == Some(network) ==> wifi == None && table == NOTHING
    {
      if wifi != Some(network) { return; }
      wifi := None;
      Clear();
    }

    method StartDiscoveryLocked(clearFirst: bool, p: Platform)
      modifies this
      ensures View() == AfterStart(old(View()), clearFirst, p)
    {
      if !desired { return; }
      if listener.Some? { return; }
      if stopInProgress {
        pendingRestart := true;
        pendingClear := pendingClear || clearFirst;
        return;
      }
      Prepare(clearFirst, p);
      var l := created;
      created := created + 1;
      listener := Some(l);
      if p.startThrows { StartHasFailed(l); }
    }

    method Prepare(clearFirst: bool, p: Platform)
      modifies this
      ensures View() == Prepared(old(View()), clearFirst, p)
    {
      if clearFirst { Clear(); }
      lockHeld := true;
      EnsureNetworkCallback(p);
    }

    method EnsureNetworkCallback(p: Platform)
      modifies this
      ensures View() == CallbackEnsured(old(View()), p)
    {
      if callbackRegistered { return; }
      wifi := p.activeWifi;
      if !p.registerThrows { callbackRegistered := true; }
    }

    method DropListener(l: Listener)
      modifies this
      ensures View() == ListenerDropped(old(View()), l)
    {
      if listener == Some(l) { listener := None; }
      stopInProgress := false;
      lockHeld := false;
    }

    method StartHasFailed(l: Listener)
      modifies this
      ensures View() == AfterStartFailure(old(View()), l)
    {
      DropListener(l);
      pendingRestart := desired;
      if desired {
        startTimers := 1;
      } else {
        ReleaseNetworkCallback();
      }
    }

    method StopDiscoveryLocked(finalStop: bool, p: Platform)
      requires FlagsAgree(View())
      requires if finalStop then !desired && startTimers == 0 && restartTimers == 0 else desired && listener.Some?
      modifies this
      ensures Valid() && View() == AfterStop(old(View()), finalStop, p)
      ensures finalStop ==> Ending(View())
      ensures !finalStop && pendingRestart ==> UnderWay(View())
    {
      StopKeepsInvariant(View(), finalStop, p);
      if listener.None? {
        stopInProgress := false;
        lockHeld := false;
        if finalStop { ReleaseNetworkCallback(); }
        return;
      }
      stopInProgress := true;
      if !p.stopThrows {
        stopCalled := stopCalled + {listener.value};
        return;
      }
      listener := None;
      stopInProgress := false;
      lockHeld := false;
      if pendingRestart && desired {
        startTimers := startTimers + 1;
      } else if finalStop {
        ReleaseNetworkCallback();
      }
    }

    method FinishPendingRestart(p: Platform)
      requires FlagsAgree(View()) && CallbackNeeded(View())
      modifies this
      ensures Valid() && View() == AfterRestart(old(View()), p)
      ensures old(pendingRestart) ==> UnderWay(View())
    {
      RestartKeepsInvariant(View(), p);
      if !desired || !pendingRestart || stopInProgress || listener.Some? { return; }
      var clear := pendingClear;
      pendingRestart := false;
      pendingClear := false;
      StartDiscoveryLocked(clear, p);
    }

    method ReleaseNetworkCallback()
      modifies this
      ensures View() == CallbackReleased(old(View()))
    {
      if !callbackRegistered { return; }
      startTimers, restartTimers := 0, 0;
      callbackRegistered := false;
      wifi := None;
    }

    method Clear()
      modifies this`table
      ensures View() == Cleared(old(View()))
    {
      table := table.(discovered := map[], resolving := {});
      EmitSnapshot();
    }

    method EmitSnapshot()
      modifies this`table
      ensures table == old(table).(snapshot := old(table).discovered.Values)
    {
      if table.snapshot != table.discovered.Values {
        table := table.(snapshot := table.discovered.Values);
      }
    }
  }
}
