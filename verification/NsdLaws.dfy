/**
  Laws of the discovery manager that speak of what clients ask, what NSD reports, and what
  becomes of the leases and of the published devices.
 */
module NsdLaws {
  import opened Wrappers
  import opened NsdDiscovery

  // ---------------------------------------------------------------------------
  // What one task changes
  // ---------------------------------------------------------------------------

  /** Leases come and go as clients ask, but for the user scan of a posted refresh. */
  predicate HoldsLease(m: Manager, t: Task, lease: Lease) {
    || t == StartDiscovery(lease) || t == RefreshDiscovery(lease)
    || (t == PostedRefresh && lease == UserScan)
    || (lease in m.leases && t != StopDiscovery(lease) && t != Shutdown)
  }

  /** A scan is started when one is asked for, a restart is pending or the first network is seen, and none runs. */
  predicate Starts(m: Manager, t: Task) {
    match t
    case StartDiscovery(_) => m.listener.None?
    case RefreshDiscovery(_) => m.listener.None?
    case PostedRefresh => m.listener.None?
    case StartTimer => m.pendingRestart && m.listener.None?
    case Stopped(l) => m.pendingRestart && (m.listener.None? || m.listener == Some(l))
    case WifiAvailable(_) => m.callbackRegistered && m.wifi.None? && m.desired && m.listener.None?
    case _ => false
  }

  /** The end of a running scan is asked for when the last lease goes, by a shutdown and by a refresh. */
  predicate AsksToStop(m: Manager, t: Task) {
    && m.listener.Some?
    && match t
       case StopDiscovery(lease) => m.leases - {lease} == {}
       case Shutdown => true
       case RefreshDiscovery(_) => true
       case PostedRefresh => true
       case _ => false
  }

  /** The old results are thrown away with the network, and for a scan that starts afresh. */
  predicate Clears(m: Manager, t: Task) {
    match t
    case WifiLost(network) => m.wifi == Some(network)
    case StartTimer => m.pendingClear && Starts(m, t)
    case Stopped(_) => m.pendingClear && Starts(m, t)
    case RefreshDiscovery(_) => Starts(m, t)
    case PostedRefresh => Starts(m, t)
    case WifiAvailable(_) => Starts(m, t)
    case _ => false
  }

  /** What is listed after a task, and what is being resolved. */
  function Listing(m: Manager, t: Task): map<string, Device> {
    if Clears(m, t) then map[]
    else if t.ServiceResolved? then m.table.discovered[t.device.serviceName := t.device]
    else if t.ServiceLost? then m.table.discovered - {t.name}
    else m.table.discovered
  }

  function Resolving(m: Manager, t: Task): set<string> {
    if Clears(m, t) then {}
    else if t.ServiceFound? then m.table.resolving + {t.name}
    else if t.ServiceResolved? || t.ResolveFailed? || t.ServiceLost? then m.table.resolving - {t.name}
    else m.table.resolving
  }

  /** What every task does to the leases, the listener and the results. */
  ghost predicate LeasesLawful(m: Manager, t: Task, n: Manager) {
    forall lease :: lease in n.leases <==> HoldsLease(m, t, lease)
  }

  ghost predicate ScanLawful(m: Manager, t: Task, p: Platform, n: Manager) {
    && n.created == m.created + (if Starts(m, t) then 1 else 0)
    && (Starts(m, t) ==> n.listener == if p.startThrows then None else Some(m.created))
    && n.stopCalled == (if AsksToStop(m, t) && !p.stopThrows then m.stopCalled + {m.listener.value} else m.stopCalled)
    && (!Starts(m, t) ==>
          n.listener == if AsksToStop(m, t) && p.stopThrows then None
                        else if EndsListener(t) && m.listener == Some(t.listener) then None
                        else m.listener)
  }

  ghost predicate ResultsLawful(m: Manager, t: Task, n: Manager) {
    && n.table.discovered == Listing(m, t) && n.table.snapshot == Listing(m, t).Values
    && n.table.resolving == Resolving(m, t)
    && (m.pendingClear ==> n.pendingClear || n.table == NOTHING || !n.desired)
  }

  /** The last lease goes, or all of them at once. */
  predicate GivesUp(m: Manager, t: Task) {
    t == Shutdown || (t.StopDiscovery? && m.leases - {t.lease} == {})
  }

  /** NSD is done with a listener, in one way or another. */
  predicate EndsListener(t: Task) {
    t.StartFailed? || t.StopFailed? || t.Stopped?
  }

  /** A task that carries out a restart, and does not just start. */
  predicate Restarts(t: Task) {
    t.RefreshDiscovery? || t.PostedRefresh? || t.StartTimer? || t.Stopped?
  }

  predicate Replans(m: Manager, t: Task) {
    (t.RefreshDiscovery? || t.PostedRefresh?) && m.listener.Some?
  }

  ghost predicate FlagsLawful(m: Manager, t: Task, p: Platform, n: Manager) {
    && n.stopInProgress == (if AsksToStop(m, t) then !p.stopThrows
                            else if EndsListener(t) || t.Started? || Starts(m, t) then false
                            else m.stopInProgress)
    && n.pendingRestart == (if GivesUp(m, t) then false
                            else if Replans(m, t) then true
                            else if Starts(m, t) && p.startThrows then true
                            else if Starts(m, t) && Restarts(t) then false
                            else if t.StartFailed? then m.desired
                            else m.pendingRestart)
    && n.pendingClear == (if GivesUp(m, t) then false
                          else if Replans(m, t) then true
                          else if Starts(m, t) && Restarts(t) then false
                          else m.pendingClear)
  }

  /** Nobody needs the callback any more: the last scan ended, or discovery was given up without one. */
  predicate LetsGo(m: Manager, t: Task, p: Platform) {
    m.callbackRegistered &&
    match t
    case StartFailed(_) => !m.desired
    case StopFailed(_) => !m.pendingRestart
    case Stopped(_) => !m.pendingRestart
    case _ => GivesUp(m, t) && (m.listener.None? || p.stopThrows)
  }

  ghost predicate PlatformLawful(m: Manager, t: Task, p: Platform, n: Manager) {
    && n.lockHeld == (if Starts(m, t) then !p.startThrows
                      else if EndsListener(t) || (AsksToStop(m, t) && p.stopThrows) then false
                      else m.lockHeld)
    && n.callbackRegistered == (if LetsGo(m, t, p) then false
                                else if Starts(m, t) && !m.callbackRegistered then !p.registerThrows
                                else m.callbackRegistered)
    && n.wifi == (if LetsGo(m, t, p) then None
                  else if Starts(m, t) && !m.callbackRegistered then p.activeWifi
                  else if t.WifiAvailable? && m.callbackRegistered then Some(t.network)
                  else if t.WifiLost? && m.wifi == Some(t.network) then None
                  else m.wifi)
  }

  ghost predicate TimersLawful(m: Manager, t: Task, p: Platform, n: Manager) {
    && n.startTimers == (if GivesUp(m, t) || LetsGo(m, t, p) then 0
                         else if Starts(m, t) && p.startThrows then 1
                         else if t.StartFailed? then if m.desired then 1 else 0
                         else if t.StopFailed? && m.pendingRestart then m.startTimers + 1
                         else if Replans(m, t) && p.stopThrows then m.startTimers + 1
                         else if t.StartTimer? then m.startTimers - 1
                         else m.startTimers)
    && n.restartTimers == (if GivesUp(m, t) || LetsGo(m, t, p) then 0
                           else if t.WifiAvailable? && m.callbackRegistered && m.wifi.Some? && m.wifi != Some(t.network) then 1
                           else if t.RestartTimer? then m.restartTimers - 1
                           else m.restartTimers)
    && n.postedRefreshes == m.postedRefreshes
         + (if t.RestartTimer? && m.callbackRegistered && m.desired then 1 else if t.PostedRefresh? then -1 else 0)
  }

  /**
    A second account of the manager, cause by cause: it says of each field what the task,
    the platform and the state before give it, and not how the code gets there.
   */
  ghost predicate StepLawful(m: Manager, t: Task, p: Platform, n: Manager) {
    WorkLawful(m, t, p, n) && UpkeepLawful(m, t, p, n)
  }

  ghost predicate WorkLawful(m: Manager, t: Task, p: Platform, n: Manager) {
    LeasesLawful(m, t, n) && ScanLawful(m, t, p, n) && ResultsLawful(m, t, n)
  }

  ghost predicate UpkeepLawful(m: Manager, t: Task, p: Platform, n: Manager) {
    FlagsLawful(m, t, p, n) && PlatformLawful(m, t, p, n) && TimersLawful(m, t, p, n)
  }

  /** The state after a start that is needed. */
  function Begun(m: Manager, clear: bool, p: Platform): Manager {
    m.(listener := if p.startThrows then None else Some(m.created),
       created := m.created + 1,
       stopInProgress := m.stopInProgress && !p.startThrows,
       pendingRestart := m.pendingRestart || p.startThrows,
       startTimers := if p.startThrows then 1 else m.startTimers,
       lockHeld := !p.startThrows,
       callbackRegistered := m.callbackRegistered || !p.registerThrows,
       wifi := if m.callbackRegistered then m.wifi else p.activeWifi,
       table := if clear then NOTHING else m.table)
  }

  lemma StartIsLawful(m: Manager, clear: bool, p: Platform)
    requires FlagsAgree(m)
    ensures AfterStart(m, clear, p) == if m.desired && m.listener.None? then Begun(m, clear, p) else m
  {
  }

  lemma RestartIsLawful(m: Manager, p: Platform)
    requires FlagsAgree(m)
    ensures AfterRestart(m, p)
         == if m.desired && m.pendingRestart && m.listener.None?
            then Begun(m.(pendingRestart := false, pendingClear := false), m.pendingClear, p) else m
  {
    if m.desired && m.pendingRestart && m.listener.None? {
      StartIsLawful(m.(pendingRestart := false, pendingClear := false), m.pendingClear, p);
    }
  }

  /** The state after a refresh for `lease`. */
  function Renewing(m: Manager, lease: Lease, p: Platform): Manager {
    var n := RestartPlanned(m, lease);
    if m.listener.None? then Begun(n.(pendingRestart := false, pendingClear := false), true, p)
    else if p.stopThrows then n.(listener := None, stopInProgress := false, lockHeld := false, startTimers := m.startTimers + 1)
    else n.(stopInProgress := true, stopCalled := m.stopCalled + {m.listener.value})
  }

  lemma RefreshIsLawful(m: Manager, lease: Lease, p: Platform)
    requires Invariant(m)
    ensures AfterRefresh(m, lease, p) == Renewing(m, lease, p)
  {
    if m.listener.None? { RestartIsLawful(RestartPlanned(m, lease), p); }
  }

  /** The state after discovery has been given up. */
  function Abandoned(m: Manager, p: Platform): Manager {
    var n := m.(leases := {}, desired := false, startTimers := 0, restartTimers := 0, pendingRestart := false, pendingClear := false);
    if m.listener.Some? && !p.stopThrows then
      n.(stopInProgress := true, stopCalled := m.stopCalled + {m.listener.value})
    else
      n.(listener := None, stopInProgress := false, lockHeld := false, callbackRegistered := false,
         wifi := if m.callbackRegistered then None else m.wifi)
  }

  lemma GivingUpIsLawful(m: Manager, lease: Lease, p: Platform)
    requires Invariant(m)
    ensures AfterShutdown(m, p) == Abandoned(m, p)
    ensures AfterStopTask(m, lease, p)
         == if m.leases - {lease} == {} then Abandoned(m, p) else m.(leases := m.leases - {lease})
  {
  }

  /** The state after the listener has been dropped and a pending restart carried out. */
  function Concluded(m: Manager, l: Listener, p: Platform): Manager {
    var n := m.(listener := if m.listener == Some(l) then None else m.listener, stopInProgress := false, lockHeld := false);
    if !m.pendingRestart then Freed(n)
    else if n.listener.None? then Begun(n.(pendingRestart := false, pendingClear := false), m.pendingClear, p)
    else n
  }

  /** The state without the callback and what hangs on it. */
  function Freed(m: Manager): Manager {
    if m.callbackRegistered then m.(startTimers := 0, restartTimers := 0, callbackRegistered := false, wifi := None) else m
  }

  lemma EndIsLawful(m: Manager, l: Listener, p: Platform)
    requires Invariant(m)
    ensures AfterStopped(m, l, p) == Concluded(m, l, p)
  {
    RestartIsLawful(ListenerDropped(m, l), p);
  }

  lemma StartWork(m: Manager, lease: Lease, p: Platform, n: Manager)
    requires Invariant(m)
    requires n == var k := m.(leases := m.leases + {lease}, desired := true);
      if m.listener.None? then Begun(k, false, p) else k
    ensures WorkLawful(m, StartDiscovery(lease), p, n)
  {
  }

  lemma StartUpkeep(m: Manager, lease: Lease, p: Platform, n: Manager)
    requires Invariant(m)
    requires n == var k := m.(leases := m.leases + {lease}, desired := true);
      if m.listener.None? then Begun(k, false, p) else k
    ensures UpkeepLawful(m, StartDiscovery(lease), p, n)
  {
  }

  lemma RefreshWork(m: Manager, lease: Lease, p: Platform, n: Manager)
    requires Invariant(m)
    requires n == Renewing(m, lease, p)
    ensures WorkLawful(m, RefreshDiscovery(lease), p, n)
  {
  }

  lemma RefreshUpkeep(m: Manager, lease: Lease, p: Platform, n: Manager)
    requires Invariant(m)
    requires n == Renewing(m, lease, p)
    ensures UpkeepLawful(m, RefreshDiscovery(lease), p, n)
  {
  }

  lemma PostedRefreshWork(m: Manager, p: Platform, n: Manager)
    requires Invariant(m) && m.postedRefreshes > 0
    requires n == Renewing(m.(postedRefreshes := m.postedRefreshes - 1), UserScan, p)
    ensures WorkLawful(m, PostedRefresh, p, n)
  {
  }

  lemma PostedRefreshUpkeep(m: Manager, p: Platform, n: Manager)
    requires Invariant(m) && m.postedRefreshes > 0
    requires n == Renewing(m.(postedRefreshes := m.postedRefreshes - 1), UserScan, p)
    ensures UpkeepLawful(m, PostedRefresh, p, n)
  {
  }

  lemma StopWork(m: Manager, lease: Lease, p: Platform, n: Manager)
    requires Invariant(m)
    requires n == if m.leases - {lease} == {} then Abandoned(m, p) else m.(leases := m.leases - {lease})
    ensures WorkLawful(m, StopDiscovery(lease), p, n)
  {
  }

  lemma StopUpkeep(m: Manager, lease: Lease, p: Platform, n: Manager)
    requires Invariant(m)
    requires n == if m.leases - {lease} == {} then Abandoned(m, p) else m.(leases := m.leases - {lease})
    ensures UpkeepLawful(m, StopDiscovery(lease), p, n)
  {
  }

  lemma ShutdownWork(m: Manager, p: Platform, n: Manager)
    requires Invariant(m)
    requires n == Abandoned(m, p)
    ensures WorkLawful(m, Shutdown, p, n)
  {
  }

  lemma ShutdownUpkeep(m: Manager, p: Platform, n: Manager)
    requires Invariant(m)
    requires n == Abandoned(m, p)
    ensures UpkeepLawful(m, Shutdown, p, n)
  {
  }

  lemma StartTimerWork(m: Manager, p: Platform, n: Manager)
    requires Invariant(m) && m.startTimers > 0
    requires n == var k := m.(startTimers := m.startTimers - 1);
      if m.pendingRestart && m.listener.None? then Begun(k.(pendingRestart := false, pendingClear := false), m.pendingClear, p) else k
    ensures WorkLawful(m, StartTimer, p, n)
  {
  }

  lemma StartTimerUpkeep(m: Manager, p: Platform, n: Manager)
    requires Invariant(m) && m.startTimers > 0
    requires n == var k := m.(startTimers := m.startTimers - 1);
      if m.pendingRestart && m.listener.None? then Begun(k.(pendingRestart := false, pendingClear := false), m.pendingClear, p) else k
    ensures UpkeepLawful(m, StartTimer, p, n)
  {
  }

  lemma StartFailedWork(m: Manager, l: Listener, p: Platform, n: Manager)
    requires Invariant(m) && l < m.created
    requires n == AfterStartFailure(m, l)
    ensures WorkLawful(m, StartFailed(l), p, n)
  {
  }

  lemma StartFailedUpkeep(m: Manager, l: Listener, p: Platform, n: Manager)
    requires Invariant(m) && l < m.created
    requires n == AfterStartFailure(m, l)
    ensures UpkeepLawful(m, StartFailed(l), p, n)
  {
  }

  lemma StopFailedWork(m: Manager, l: Listener, p: Platform, n: Manager)
    requires Invariant(m) && l < m.created
    requires n == AfterStopFailed(m, l)
    ensures WorkLawful(m, StopFailed(l), p, n)
  {
  }

  lemma StopFailedUpkeep(m: Manager, l: Listener, p: Platform, n: Manager)
    requires Invariant(m) && l < m.created
    requires n == AfterStopFailed(m, l)
    ensures UpkeepLawful(m, StopFailed(l), p, n)
  {
  }

  lemma StoppedWork(m: Manager, l: Listener, p: Platform, n: Manager)
    requires Invariant(m) && l < m.created
    requires n == Concluded(m, l, p)
    ensures WorkLawful(m, Stopped(l), p, n)
  {
  }

  lemma StoppedUpkeep(m: Manager, l: Listener, p: Platform, n: Manager)
    requires Invariant(m) && l < m.created
    requires n == Concluded(m, l, p)
    ensures UpkeepLawful(m, Stopped(l), p, n)
  {
  }

  lemma WifiAvailableWork(m: Manager, network: Network, p: Platform, n: Manager)
    requires Invariant(m)
    requires n == var k := m.(wifi := Some(network));
      if !m.callbackRegistered then m
      else if m.wifi.None? then if m.desired && m.listener.None? then Begun(k, true, p) else k
      else if m.wifi == Some(network) then k
      else k.(restartTimers := 1)
    ensures WorkLawful(m, WifiAvailable(network), p, n)
  {
  }

  lemma WifiAvailableUpkeep(m: Manager, network: Network, p: Platform, n: Manager)
    requires Invariant(m)
    requires n == var k := m.(wifi := Some(network));
      if !m.callbackRegistered then m
      else if m.wifi.None? then if m.desired && m.listener.None? then Begun(k, true, p) else k
      else if m.wifi == Some(network) then k
      else k.(restartTimers := 1)
    ensures UpkeepLawful(m, WifiAvailable(network), p, n)
  {
  }

  lemma WifiLostWork(m: Manager, network: Network, p: Platform, n: Manager)
    requires Invariant(m)
    requires n == AfterWifiLost(m, network)
    ensures WorkLawful(m, WifiLost(network), p, n)
  {
  }

  lemma WifiLostUpkeep(m: Manager, network: Network, p: Platform, n: Manager)
    requires Invariant(m)
    requires n == AfterWifiLost(m, network)
    ensures UpkeepLawful(m, WifiLost(network), p, n)
  {
  }

  lemma StartTaskIsLawful(m: Manager, lease: Lease, p: Platform)
    requires Invariant(m)
    ensures StepLawful(m, StartDiscovery(lease), p, AfterStartTask(m, lease, p))
  {
    StartIsLawful(m.(leases := m.leases + {lease}, desired := true), false, p);
    StartWork(m, lease, p, AfterStartTask(m, lease, p));
    StartUpkeep(m, lease, p, AfterStartTask(m, lease, p));
  }

  lemma RefreshTaskIsLawful(m: Manager, lease: Lease, p: Platform)
    requires Invariant(m)
    ensures StepLawful(m, RefreshDiscovery(lease), p, AfterRefresh(m, lease, p))
  {
    RefreshIsLawful(m, lease, p);
    RefreshWork(m, lease, p, AfterRefresh(m, lease, p));
    RefreshUpkeep(m, lease, p, AfterRefresh(m, lease, p));
  }

  lemma PostedRefreshTaskIsLawful(m: Manager, p: Platform)
    requires Invariant(m) && m.postedRefreshes > 0
    ensures StepLawful(m, PostedRefresh, p, AfterPostedRefresh(m, p))
  {
    RefreshIsLawful(m.(postedRefreshes := m.postedRefreshes - 1), UserScan, p);
    PostedRefreshWork(m, p, AfterPostedRefresh(m, p));
    PostedRefreshUpkeep(m, p, AfterPostedRefresh(m, p));
  }

  lemma StopTaskIsLawful(m: Manager, lease: Lease, p: Platform)
    requires Invariant(m)
    ensures StepLawful(m, StopDiscovery(lease), p, AfterStopTask(m, lease, p))
  {
    GivingUpIsLawful(m, lease, p);
    StopWork(m, lease, p, AfterStopTask(m, lease, p));
    StopUpkeep(m, lease, p, AfterStopTask(m, lease, p));
  }

  lemma ShutdownTaskIsLawful(m: Manager, p: Platform)
    requires Invariant(m)
    ensures StepLawful(m, Shutdown, p, AfterShutdown(m, p))
  {
    GivingUpIsLawful(m, UserScan, p);
    ShutdownWork(m, p, AfterShutdown(m, p));
    ShutdownUpkeep(m, p, AfterShutdown(m, p));
  }

  lemma StartTimerTaskIsLawful(m: Manager, p: Platform)
    requires Invariant(m) && m.startTimers > 0
    ensures StepLawful(m, StartTimer, p, AfterStartTimer(m, p))
  {
    RestartIsLawful(m.(startTimers := m.startTimers - 1), p);
    StartTimerWork(m, p, AfterStartTimer(m, p));
    StartTimerUpkeep(m, p, AfterStartTimer(m, p));
  }

  lemma StartFailedTaskIsLawful(m: Manager, l: Listener, p: Platform)
    requires Invariant(m) && l < m.created
    ensures StepLawful(m, StartFailed(l), p, AfterStartFailure(m, l))
  {
    StartFailedWork(m, l, p, AfterStartFailure(m, l));
    StartFailedUpkeep(m, l, p, AfterStartFailure(m, l));
  }

  lemma StopFailedTaskIsLawful(m: Manager, l: Listener, p: Platform)
    requires Invariant(m) && l < m.created
    ensures StepLawful(m, StopFailed(l), p, AfterStopFailed(m, l))
  {
    StopFailedWork(m, l, p, AfterStopFailed(m, l));
    StopFailedUpkeep(m, l, p, AfterStopFailed(m, l));
  }

  lemma StoppedTaskIsLawful(m: Manager, l: Listener, p: Platform)
    requires Invariant(m) && l < m.created
    ensures StepLawful(m, Stopped(l), p, AfterStopped(m, l, p))
  {
    EndIsLawful(m, l, p);
    StoppedWork(m, l, p, AfterStopped(m, l, p));
    StoppedUpkeep(m, l, p, AfterStopped(m, l, p));
  }

  lemma WifiAvailableTaskIsLawful(m: Manager, network: Network, p: Platform)
    requires Invariant(m)
    ensures StepLawful(m, WifiAvailable(network), p, AfterWifiAvailable(m, network, p))
  {
    StartIsLawful(m.(wifi := Some(network)), true, p);
    WifiAvailableWork(m, network, p, AfterWifiAvailable(m, network, p));
    WifiAvailableUpkeep(m, network, p, AfterWifiAvailable(m, network, p));
  }

  lemma WifiLostTaskIsLawful(m: Manager, network: Network, p: Platform)
    requires Invariant(m)
    ensures StepLawful(m, WifiLost(network), p, AfterWifiLost(m, network))
  {
    WifiLostWork(m, network, p, AfterWifiLost(m, network));
    WifiLostUpkeep(m, network, p, AfterWifiLost(m, network));
  }

  lemma RestOfTasksLawful(m: Manager, t: Task, p: Platform)
    requires Invariant(m) && Enabled(m, t) && (t.RestartTimer? || t.Started?)
    ensures StepLawful(m, t, p, Step(m, t, p))
  {
  }

  lemma ServicesLawful(m: Manager, t: Task, p: Platform)
    requires Invariant(m) && (t.ServiceFound? || t.ResolveFailed?)
    ensures StepLawful(m, t, p, Step(m, t, p))
  {
  }

  lemma ServiceResolvedIsLawful(m: Manager, t: Task, p: Platform)
    requires Invariant(m) && t.ServiceResolved?
    ensures StepLawful(m, t, p, Step(m, t, p))
  {
    TableStaysCurrent(m.table, t.name, t.device);
  }

  lemma ServiceLostIsLawful(m: Manager, t: Task, p: Platform)
    requires Invariant(m) && t.ServiceLost?
    ensures StepLawful(m, t, p, Step(m, t, p))
  {
    if t.name !in m.table.discovered { assert m.table.discovered - {t.name} == m.table.discovered; }
  }

  /**
    From every state of a run each task does to the leases, the scan and the results what
    clients, the platform and NSD have given cause for, and nothing else.
   */
  lemma TasksAreLawful(m: Manager, t: Task, p: Platform)
    requires Invariant(m) && Enabled(m, t)
    ensures StepLawful(m, t, p, Step(m, t, p))
  {
    match t
    case StartDiscovery(lease) => StartTaskIsLawful(m, lease, p);
    case RefreshDiscovery(lease) => RefreshTaskIsLawful(m, lease, p);
    case PostedRefresh => PostedRefreshTaskIsLawful(m, p);
    case StopDiscovery(lease) => StopTaskIsLawful(m, lease, p);
    case Shutdown => ShutdownTaskIsLawful(m, p);
    case StartTimer => StartTimerTaskIsLawful(m, p);
    case StartFailed(l) => StartFailedTaskIsLawful(m, l, p);
    case StopFailed(l) => StopFailedTaskIsLawful(m, l, p);
    case Stopped(l) => StoppedTaskIsLawful(m, l, p);
    case WifiAvailable(network) => WifiAvailableTaskIsLawful(m, network, p);
    case WifiLost(network) => WifiLostTaskIsLawful(m, network, p);
    case RestartTimer => RestOfTasksLawful(m, t, p);
    case Started(_) => RestOfTasksLawful(m, t, p);
    case ServiceResolved(_, _) => ServiceResolvedIsLawful(m, t, p);
    case ServiceLost(_) => ServiceLostIsLawful(m, t, p);
    case _ => ServicesLawful(m, t, p);
  }

  // ---------------------------------------------------------------------------
  // Old results go
  // ---------------------------------------------------------------------------

  /** Discovery is wanted in every state of the run. */
  ghost predicate WantedThroughout(m: Manager, tasks: seq<(Task, Platform)>)
    decreases |tasks|
  {
    && m.desired
    && (tasks != [] && Enabled(m, tasks[0].0) ==> WantedThroughout(Step(m, tasks[0].0, tasks[0].1), tasks[1..]))
  }

  /** The run resolves a device of that name. */
  ghost predicate Resolves(tasks: seq<(Task, Platform)>, name: string) {
    exists i :: 0 <= i < |tasks| && tasks[i].0.ServiceResolved? && tasks[i].0.device.serviceName == name
  }

  /** Either a clear is pending or `found` covers everything listed. */
  ghost predicate Renewed(m: Manager, found: set<string>) {
    m.pendingClear || m.table.discovered.Keys <= found
  }

  lemma StepKeepsRenewed(m: Manager, t: Task, p: Platform, found: set<string>)
    requires Invariant(m) && Enabled(m, t) && Renewed(m, found) && Step(m, t, p).desired
    ensures Renewed(Step(m, t, p), found + if t.ServiceResolved? then {t.device.serviceName} else {})
  {
    TasksAreLawful(m, t, p);
  }

  lemma {:induction false} RunKeepsRenewed(m: Manager, tasks: seq<(Task, Platform)>, n: Manager, found: set<string>, name: string)
    requires Invariant(m) && Renewed(m, found) && Run(m, tasks, n) && WantedThroughout(m, tasks)
    ensures n.pendingClear || (name in n.table.discovered ==> name in found || Resolves(tasks, name))
    decreases |tasks|
  {
    if tasks != [] {
      var (t, p) := tasks[0];
      var more := if t.ServiceResolved? then {t.device.serviceName} else {};
      StepKeepsInvariant(m, t, p);
      StepKeepsRenewed(m, t, p, found);
      RunKeepsRenewed(Step(m, t, p), tasks[1..], n, found + more, name);
      if Resolves(tasks[1..], name) {
        var i :| 0 <= i < |tasks[1..]| && tasks[1..][i].0.ServiceResolved? && tasks[1..][i].0.device.serviceName == name;
        assert tasks[i + 1] == tasks[1..][i];
      }
    }
  }

  /**
    After a refresh, for as long as discovery stays wanted: once no restart is pending, every
    device listed has been resolved since the refresh.
   */
  lemma OldResultsGo(before: seq<(Task, Platform)>, m: Manager, lease: Lease, p: Platform,
                     tasks: seq<(Task, Platform)>, n: Manager, name: string)
    requires Run(INITIAL, before, m)
    requires var u := Step(m, RefreshDiscovery(lease), p); Run(u, tasks, n) && WantedThroughout(u, tasks)
    ensures !n.pendingRestart && name in n.table.discovered ==> Resolves(tasks, name)
  {
    RunKeepsInvariant(INITIAL, before, m);
    var u := Step(m, RefreshDiscovery(lease), p);
    StepKeepsInvariant(m, RefreshDiscovery(lease), p);
    RefreshMeans(m, lease, p);
    RunKeepsRenewed(u, tasks, n, {}, name);
    RunKeepsInvariant(u, tasks, n);
  }
}
