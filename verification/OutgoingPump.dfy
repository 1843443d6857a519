/**
  The desktop's outgoing command path: producer threads put requests on seventeen FIFO
  queues and release one permit of a shared counting semaphore for each; the pump thread
  of the current session takes a permit, then polls every queue once.  Connection
  handlers start and stop pumps and add permits of their own.

  Every interleaving of the threads is a sequence of the atomic actions below.
*/
module OutgoingPump {

  /** Seventeen request kinds, in the order in which one round polls them. */
  const KINDS: nat := 17

  /** A queued request; only its identity matters here. */
  type Request = int

  /** Where a pump thread is. */
  datatype PumpPhase =
    | Blocked                              // about to acquire a permit
    | Checking                             // permit acquired, stop event not yet tested
    | Waiting                              // waiting for the first heartbeat
    | TimedOut                             // the wait timed out, stop event not yet tested
    | Polling(kind: nat)                   // about to poll queue `kind`
    | Writing(written: nat, request: Request)  // `request` taken from queue `written`, not yet written
    | Exited

  /** Where the connection handler of a session is. */
  datatype HandlerPhase =
    | Serving                              // in the read loop
    | HeartbeatSet                         // first heartbeat seen, its permit not yet released
    | StopSet                              // stop event set, its permit not yet released
    | Joining                              // joining the pump thread, with a timeout
    | Done                                 // the session registry is free again

  datatype Session = Session(
    handler: HandlerPhase,
    ready: bool,                           // transport_ready
    stop: bool,                            // stop_outgoing
    pump: PumpPhase,
    sent: seq<seq<Request>>)               // requests written to this session's channel, by kind

  datatype State = State(
    queues: seq<seq<Request>>,
    permits: nat,
    between: nat,                          // producers between their put and their release
    sessions: seq<Session>,                // sessions of one server, oldest first
    timeouts: nat,                         // joins that gave up on a live pump
    puts: seq<seq<Request>>,               // history: everything ever put, by kind
    taken: seq<seq<(nat, Request)>>)       // history: everything ever taken, with the taking session

  datatype Action =
    | Put(kind: nat, request: Request)
    | Release
    | OpenSession
    | Heartbeat
    | HeartbeatRelease
    | Close
    | CloseRelease
    | JoinDone
    | JoinTimeout
    | PumpStep(session: nat, writeOk: bool)

  ghost predicate AllEmpty(queues: seq<seq<Request>>) {
    forall k :: 0 <= k < |queues| ==> queues[k] == []
  }

  /** A server whose queues already hold `queued` when it starts. */
  function Init(queued: seq<seq<Request>>): State
    requires |queued| == KINDS
  {
    State(queued, 0, 0, [], 0, queued, seq(KINDS, _ => []))
  }

  predicate WellFormed(s: State) {
    && |s.queues| == |s.puts| == |s.taken| == KINDS
    && (forall i :: 0 <= i < |s.sessions| ==>
          && |s.sessions[i].sent| == KINDS
          && (s.sessions[i].pump.Polling? ==> s.sessions[i].pump.kind < KINDS)
          && (s.sessions[i].pump.Writing? ==> s.sessions[i].pump.written < KINDS))
  }

  function Last(s: State): Session
    requires s.sessions != []
  {
    s.sessions[|s.sessions| - 1]
  }

  /** Handlers run one at a time: a session opens only when the registry is free. */
  predicate Enabled(s: State, a: Action)
    requires WellFormed(s)
  {
    match a
    case Put(k, _) => k < KINDS
    case Release => s.between > 0
    case OpenSession => s.sessions == [] || Last(s).handler.Done?
    case Heartbeat => s.sessions != [] && Last(s).handler.Serving? && !Last(s).ready
    case HeartbeatRelease => s.sessions != [] && Last(s).handler.HeartbeatSet?
    case Close => s.sessions != [] && Last(s).handler.Serving?
    case CloseRelease => s.sessions != [] && Last(s).handler.StopSet?
    case JoinDone => s.sessions != [] && Last(s).handler.Joining? && Last(s).pump.Exited?
    case JoinTimeout => s.sessions != [] && Last(s).handler.Joining? && !Last(s).pump.Exited?
    case PumpStep(i, _) =>
      && i < |s.sessions|
      && !s.sessions[i].pump.Exited?
      && (s.sessions[i].pump.Blocked? ==> s.permits > 0)
  }

  function SetLast(s: State, session: Session): State
    requires s.sessions != []
  {
    s.(sessions := s.sessions[|s.sessions| - 1 := session])
  }

  function SetPump(s: State, i: nat, phase: PumpPhase): State
    requires i < |s.sessions|
  {
    s.(sessions := s.sessions[i := s.sessions[i].(pump := phase)])
  }

  /** After queue `k` comes the next one, and after the last one the next permit. */
  function NextPoll(k: nat): PumpPhase {
    if k + 1 < KINDS then Polling(k + 1) else Blocked
  }

  /** The next atomic step of pump `i`. */
  function StepPump(s: State, i: nat, writeOk: bool): State
    requires WellFormed(s) && Enabled(s, PumpStep(i, writeOk))
  {
    var me := s.sessions[i];
    match me.pump
    case Blocked => SetPump(s, i, Checking).(permits := s.permits - 1)
    case Checking => SetPump(s, i, if me.stop then Exited else Waiting)
    case Waiting => SetPump(s, i, if me.ready then Polling(0) else TimedOut)
    case TimedOut => SetPump(s, i, if me.stop then Exited else Waiting)
    case Polling(k) =>
      if s.queues[k] == [] then SetPump(s, i, NextPoll(k))
      else
        var r := s.queues[k][0];
        SetPump(s, i, Writing(k, r)).(
          queues := s.queues[k := s.queues[k][1..]],
          taken := s.taken[k := s.taken[k] + [(i, r)]])
    case Writing(k, r) =>
      if writeOk then
        s.(sessions := s.sessions[i := me.(pump := NextPoll(k), sent := me.sent[k := me.sent[k] + [r]])])
      else SetPump(s, i, Exited)
  }

  function Step(s: State, a: Action): State
    requires WellFormed(s) && Enabled(s, a)
  {
    match a
    case Put(k, r) =>
      s.(queues := s.queues[k := s.queues[k] + [r]],
         puts := s.puts[k := s.puts[k] + [r]],
         between := s.between + 1)
    case Release => s.(between := s.between - 1, permits := s.permits + 1)
    case OpenSession =>
      s.(sessions := s.sessions + [Session(Serving, false, false, Blocked, seq(KINDS, _ => []))])
    case Heartbeat => SetLast(s, Last(s).(ready := true, handler := HeartbeatSet))
    case HeartbeatRelease => SetLast(s, Last(s).(handler := Serving)).(permits := s.permits + 1)
    case Close => SetLast(s, Last(s).(stop := true, handler := StopSet))
    case CloseRelease => SetLast(s, Last(s).(handler := Joining)).(permits := s.permits + 1)
    case JoinDone => SetLast(s, Last(s).(handler := Done))
    case JoinTimeout => SetLast(s, Last(s).(handler := Done)).(timeouts := s.timeouts + 1)
    case PumpStep(i, ok) => StepPump(s, i, ok)
  }

  lemma StepKeepsWellFormed(s: State, a: Action)
    requires WellFormed(s) && Enabled(s, a)
    ensures WellFormed(Step(s, a))
  {
  }

  /** `t` is reached from `s` by performing `actions` in order. */
  ghost predicate Run(s: State, actions: seq<Action>, t: State)
    requires WellFormed(s)
    decreases |actions|
  {
    if actions == [] then s == t
    else
      && Enabled(s, actions[0])
      && (StepKeepsWellFormed(s, actions[0]); Run(Step(s, actions[0]), actions[1..], t))
  }

  // ---------------------------------------------------------------------------
  // No lost wake-up
  // ---------------------------------------------------------------------------

  /** A live pump sleeps, nothing is about to wake it, and yet a request is queued. */
  ghost predicate Stranded(s: State) {
    && (exists i :: 0 <= i < |s.sessions| && !s.sessions[i].stop && s.sessions[i].pump.Blocked?)
    && s.permits == 0 && s.between == 0
    && !AllEmpty(s.queues)
  }

  /** Requests waiting in the first `n` queues. */
  ghost function Backlog(queues: seq<seq<Request>>, n: nat): nat
    requires n <= |queues|
  {
    if n == 0 then 0 else Backlog(queues, n - 1) + |queues[n - 1]|
  }

  lemma {:induction false} BacklogUpdate(queues: seq<seq<Request>>, k: nat, q: seq<Request>, n: nat)
    requires k < |queues| && n <= |queues|
    ensures Backlog(queues[k := q], n) == Backlog(queues, n) + if k < n then |q| - |queues[k]| else 0
  {
    if n > 0 { BacklogUpdate(queues, k, q, n - 1); }
  }

  lemma {:induction false} BacklogBound(queues: seq<seq<Request>>, k: nat, n: nat)
    requires k < n <= |queues|
    ensures |queues[k]| <= Backlog(queues, n)
  {
    if k < n - 1 { BacklogBound(queues, k, n - 1); }
  }

  lemma {:induction false} BacklogEmpty(queues: seq<seq<Request>>, n: nat)
    requires n <= |queues| && AllEmpty(queues)
    ensures Backlog(queues, n) == 0
  {
    if n > 0 { BacklogEmpty(queues, n - 1); }
  }

  /** Permits that exist or are certain to be released. */
  ghost function Supply(s: State): nat {
    s.permits + s.between + if s.sessions != [] && Last(s).handler.StopSet? then 1 else 0
  }

  /** A pump in a round will still poll every queue from its position on. */
  ghost function Credit(session: Session, n: nat): nat {
    match session.pump
    case Checking => if !session.stop && n > 0 then 1 else 0
    case Waiting => if n > 0 then 1 else 0
    case TimedOut => if n > 0 then 1 else 0
    case Polling(k) => if k < n then 1 else 0
    case _ => 0
  }

  /** A stopped pump that has not acquired the permit of its own exit yet. */
  ghost function ExitDebt(session: Session): nat {
    if session.stop && !session.pump.Exited? && !session.pump.Checking? then 1 else 0
  }

  ghost function CreditOf(s: State, n: nat): nat {
    if s.sessions == [] then 0 else Credit(Last(s), n)
  }

  ghost function DebtOf(s: State): nat {
    if s.sessions == [] then 0 else ExitDebt(Last(s))
  }

  /** The first `n` queues are covered by the permits and by the round under way. */
  ghost predicate CoveredTo(s: State, n: nat)
    requires WellFormed(s) && n <= KINDS
  {
    Backlog(s.queues, n) + DebtOf(s) <= Supply(s) + CreditOf(s, n)
  }

  /** Only the newest session can have a live pump, and the stop event follows its handler. */
  ghost predicate OnePump(s: State) {
    && (forall i :: 0 <= i < |s.sessions| - 1 ==> s.sessions[i].pump.Exited? && s.sessions[i].stop)
    && (s.sessions != [] ==>
          && (Last(s).stop <==> Last(s).handler in {StopSet, Joining, Done})
          && (Last(s).handler.Done? ==> Last(s).pump.Exited?))
  }

  ghost predicate Covered(s: State)
    requires WellFormed(s)
  {
    OnePump(s) && forall n :: 0 <= n <= KINDS ==> CoveredTo(s, n)
  }

  lemma PollKeepsCoveredTo(s: State, i: nat, k: nat, ok: bool, n: nat)
    requires WellFormed(s) && Enabled(s, PumpStep(i, ok)) && Covered(s) && n <= KINDS
    requires s.sessions[i].pump == Polling(k)
    ensures var t := StepPump(s, i, ok); WellFormed(t) && CoveredTo(t, n)
  {
    assert i == |s.sessions| - 1;
    assert CoveredTo(s, n);
    if s.queues[k] == [] {
      assert CoveredTo(s, k);
    } else {
      BacklogUpdate(s.queues, k, s.queues[k][1..], n);
    }
  }

  lemma PumpKeepsCoveredTo(s: State, i: nat, ok: bool, n: nat)
    requires WellFormed(s) && Enabled(s, PumpStep(i, ok)) && Covered(s) && n <= KINDS
    ensures var t := StepPump(s, i, ok); WellFormed(t) && CoveredTo(t, n)
  {
    assert i == |s.sessions| - 1;
    assert CoveredTo(s, n);
    match s.sessions[i].pump
    case Polling(k) => PollKeepsCoveredTo(s, i, k, ok, n);
    case _ =>
  }

  /** A producer's put is matched by the release that it still owes. */
  lemma PutKeepsCoveredTo(s: State, k: nat, r: Request, n: nat)
    requires WellFormed(s) && Enabled(s, Put(k, r)) && n <= KINDS && CoveredTo(s, n)
    ensures var t := Step(s, Put(k, r)); WellFormed(t) && CoveredTo(t, n)
  {
    BacklogUpdate(s.queues, k, s.queues[k] + [r], n);
  }

  /** A handler or a release moves permits only from those that are certain to come. */
  lemma HandlerKeepsCoveredTo(s: State, a: Action, n: nat)
    requires WellFormed(s) && Enabled(s, a) && OnePump(s) && n <= KINDS && CoveredTo(s, n)
    requires !a.Put? && !a.PumpStep? && !a.JoinTimeout?
    ensures WellFormed(Step(s, a)) && CoveredTo(Step(s, a), n)
  {
  }

  lemma StepKeepsOnePump(s: State, a: Action)
    requires WellFormed(s) && Enabled(s, a) && OnePump(s) && !a.JoinTimeout?
    ensures OnePump(Step(s, a))
  {
  }

  lemma StepKeepsCovered(s: State, a: Action)
    requires WellFormed(s) && Enabled(s, a) && Covered(s) && !a.JoinTimeout?
    ensures WellFormed(Step(s, a)) && Covered(Step(s, a))
  {
    StepKeepsWellFormed(s, a);
    StepKeepsOnePump(s, a);
    forall n | 0 <= n <= KINDS ensures CoveredTo(Step(s, a), n) {
      assert CoveredTo(s, n);
      if a.PumpStep? { PumpKeepsCoveredTo(s, a.session, a.writeOk, n); }
      else if a.Put? { PutKeepsCoveredTo(s, a.kind, a.request, n); }
      else { HandlerKeepsCoveredTo(s, a, n); }
    }
  }

  lemma {:induction false} RunKeepsCovered(s: State, actions: seq<Action>, t: State)
    requires WellFormed(s) && Run(s, actions, t)
    ensures WellFormed(t) && s.timeouts <= t.timeouts
    ensures Covered(s) && t.timeouts == s.timeouts ==> Covered(t)
    decreases |actions|
  {
    if actions != [] {
      StepKeepsWellFormed(s, actions[0]);
      RunKeepsCovered(Step(s, actions[0]), actions[1..], t);
      if Covered(s) && !actions[0].JoinTimeout? { StepKeepsCovered(s, actions[0]); }
    }
  }

  ghost predicate Reaches(s: State, t: State)
    requires WellFormed(s)
  {
    exists actions :: Run(s, actions, t)
  }

  /** With empty queues at the start and no join that gave up, a sleeping pump has nothing to send. */
  lemma NoLostWakeUp(queued: seq<seq<Request>>, t: State)
    requires |queued| == KINDS && AllEmpty(queued)
    requires Reaches(Init(queued), t) && t.timeouts == 0
    ensures !Stranded(t)
  {
    var s := Init(queued);
    var actions :| Run(s, actions, t);
    forall n | 0 <= n <= KINDS ensures CoveredTo(s, n) { BacklogEmpty(queued, n); }
    RunKeepsCovered(s, actions, t);
    if Stranded(t) {
      assert CoveredTo(t, KINDS);
      var k :| 0 <= k < KINDS && t.queues[k] != [];
      BacklogBound(t.queues, k, KINDS);
      assert false;
    }
  }

  // ---------------------------------------------------------------------------
  // The two ways in which a wake-up is lost
  // ---------------------------------------------------------------------------

  lemma {:induction false} RunThen(s: State, actions: seq<Action>, t: State, a: Action)
    requires WellFormed(s) && Run(s, actions, t) && WellFormed(t) && Enabled(t, a)
    ensures Run(s, actions + [a], Step(t, a))
    decreases |actions|
  {
    if actions == [] {
      assert [a][1..] == [];
      StepKeepsWellFormed(t, a);
      assert Run(Step(t, a), [], Step(t, a));
      assert actions + [a] == [a];
    } else {
      StepKeepsWellFormed(s, actions[0]);
      RunThen(Step(s, actions[0]), actions[1..], t, a);
      assert (actions + [a])[1..] == actions[1..] + [a];
    }
  }

  lemma Then(s: State, t: State, a: Action) returns (u: State)
    requires WellFormed(s) && Reaches(s, t) && WellFormed(t) && Enabled(t, a)
    ensures u == Step(t, a) && WellFormed(u) && Reaches(s, u)
  {
    u := Step(t, a);
    StepKeepsWellFormed(t, a);
    var actions :| Run(s, actions, t);
    RunThen(s, actions, t, a);
  }

  /** A round over empty queues uses up its permit and sends nothing. */
  lemma {:induction false} EmptyRound(s: State, t: State, i: nat, k: nat) returns (u: State)
    requires WellFormed(s) && Reaches(s, t) && WellFormed(t) && AllEmpty(t.queues)
    requires k < KINDS && i < |t.sessions| && t.sessions[i].pump == Polling(k)
    ensures u == SetPump(t, i, Blocked) && WellFormed(u) && Reaches(s, u)
    decreases KINDS - k
  {
    u := Then(s, t, PumpStep(i, true));
    if k + 1 < KINDS { u := EmptyRound(s, u, i, k + 1); }
    assert u.sessions == SetPump(t, i, Blocked).sessions;
  }

  /** A pump that wakes to empty queues spends one permit and goes back to sleep. */
  lemma WastedRound(s: State, t: State, i: nat) returns (u: State)
    requires WellFormed(s) && Reaches(s, t) && WellFormed(t) && AllEmpty(t.queues)
    requires i < |t.sessions| && t.sessions[i].pump.Blocked? && t.sessions[i].ready && !t.sessions[i].stop
    requires t.permits > 0
    ensures u == t.(permits := t.permits - 1) && WellFormed(u) && Reaches(s, u)
  {
    u := Then(s, t, PumpStep(i, true));
    u := Then(s, u, PumpStep(i, true));
    u := Then(s, u, PumpStep(i, true));
    u := EmptyRound(s, u, i, 0);
    assert u.sessions == t.sessions;
  }

  /** A session closes, its join gives up, and the next session starts. */
  lemma TwoPumps(queued: seq<seq<Request>>) returns (t: State)
    requires |queued| == KINDS && AllEmpty(queued)
    ensures WellFormed(t) && Reaches(Init(queued), t)
    ensures t.queues == queued && t.permits == 1 && t.between == 0 && t.timeouts == 1
    ensures |t.sessions| == 2
    ensures t.sessions[0].pump.Blocked? && t.sessions[0].stop
    ensures t.sessions[1].pump.Blocked? && !t.sessions[1].stop && !t.sessions[1].ready
    ensures t.sessions[1].handler.Serving?
  {
    var s := Init(queued);
    assert Run(s, [], s);
    t := Then(s, s, OpenSession);
    t := Then(s, t, Close);
    t := Then(s, t, CloseRelease);
    t := Then(s, t, JoinTimeout);
    t := Then(s, t, OpenSession);
  }

  /** The pump of a closed session that outlives its join takes the permit of a later request. */
  lemma TimedOutJoinLosesWakeUp(queued: seq<seq<Request>>) returns (t: State)
    requires |queued| == KINDS && AllEmpty(queued)
    ensures Reaches(Init(queued), t) && t.timeouts == 1 && Stranded(t)
  {
    var s := Init(queued);
    t := TwoPumps(queued);
    t := Then(s, t, Heartbeat);
    t := Then(s, t, HeartbeatRelease);
    t := WastedRound(s, t, 1);
    t := WastedRound(s, t, 1);
    t := StolenPermit(s, t);
  }

  lemma StolenPermit(s: State, t: State) returns (u: State)
    requires WellFormed(s) && Reaches(s, t) && WellFormed(t)
    requires t.permits == 0 && t.between == 0 && |t.sessions| == 2
    requires t.sessions[0].pump.Blocked? && t.sessions[0].stop
    requires t.sessions[1].pump.Blocked? && !t.sessions[1].stop
    ensures Reaches(s, u) && u.timeouts == t.timeouts && Stranded(u)
  {
    u := Then(s, t, Put(0, 7));
    u := Then(s, u, Release);
    u := Then(s, u, PumpStep(0, true));
    u := Then(s, u, PumpStep(0, true));
    assert u.queues[0] == t.queues[0] + [7];
    assert !u.sessions[1].stop && u.sessions[1].pump.Blocked?;
  }

  /** Requests queued before the server starts have no permit: the first session sleeps on them. */
  lemma QueuedBeforeStartLosesWakeUp(queued: seq<seq<Request>>) returns (t: State)
    requires |queued| == KINDS && !AllEmpty(queued)
    ensures Reaches(Init(queued), t) && t.timeouts == 0 && Stranded(t)
  {
    var s := Init(queued);
    assert Run(s, [], s);
    t := Then(s, s, OpenSession);
    assert !t.sessions[0].stop && t.sessions[0].pump.Blocked?;
  }

  /**
    Exactly when no wake-up is lost, over all runs of one server with at most `n` joins
    that give up: the queues are empty when it starts and every join waits for its pump.
   */
  lemma NoLostWakeUpExactly(queued: seq<seq<Request>>, n: nat)
    requires |queued| == KINDS
    ensures (forall t :: Reaches(Init(queued), t) && t.timeouts <= n ==> !Stranded(t))
        <==> (AllEmpty(queued) && n == 0)
  {
    if !AllEmpty(queued) {
      var t := QueuedBeforeStartLosesWakeUp(queued);
    } else if n > 0 {
      var t := TimedOutJoinLosesWakeUp(queued);
    } else {
      forall t | Reaches(Init(queued), t) && t.timeouts <= 0 ensures !Stranded(t) {
        NoLostWakeUp(queued, t);
      }
    }
  }

  // ---------------------------------------------------------------------------
  // Order and multiplicity
  // ---------------------------------------------------------------------------

  ghost function Requests(log: seq<(nat, Request)>): seq<Request> {
    seq(|log|, i requires 0 <= i < |log| => log[i].1)
  }

  /** The requests that session `i` took, in order. */
  ghost function TakenBy(log: seq<(nat, Request)>, i: nat): seq<Request>
    decreases |log|
  {
    if log == [] then []
    else
      TakenBy(log[..|log| - 1], i) + if log[|log| - 1].0 == i then [log[|log| - 1].1] else []
  }

  /**
    Everything put on a queue is, in order, what was taken from it followed by what is
    still queued, and a session writes what it took in that order, all of it except the
    request being written or the one whose write ended its pump.
   */
  ghost predicate Conserved(s: State)
    requires WellFormed(s)
  {
    forall k :: 0 <= k < KINDS ==> ConservedAt(s, k)
  }

  ghost predicate ConservedAt(s: State, k: nat)
    requires WellFormed(s) && k < KINDS
  {
    QueueInOrder(s, k) && forall i :: 0 <= i < |s.sessions| ==> SentInOrder(s, i, k)
  }

  ghost predicate QueueInOrder(s: State, k: nat)
    requires WellFormed(s) && k < KINDS
  {
    && s.puts[k] == Requests(s.taken[k]) + s.queues[k]
    && forall j :: 0 <= j < |s.taken[k]| ==> s.taken[k][j].0 < |s.sessions|
  }

  /** What a session took of kind `k` and what it wrote, by where its pump is. */
  ghost predicate Follows(mine: seq<Request>, sent: seq<Request>, pump: PumpPhase, k: nat) {
    if pump.Writing? && pump.written == k then mine == sent + [pump.request]
    else if pump.Exited? then mine == sent || (mine != [] && mine[..|mine| - 1] == sent)
    else mine == sent
  }

  ghost predicate SentInOrder(s: State, i: nat, k: nat)
    requires WellFormed(s) && i < |s.sessions| && k < KINDS
  {
    Follows(TakenBy(s.taken[k], i), s.sessions[i].sent[k], s.sessions[i].pump, k)
  }

  lemma {:induction false} TakenByNobody(log: seq<(nat, Request)>, i: nat)
    requires forall j :: 0 <= j < |log| ==> log[j].0 < i
    ensures TakenBy(log, i) == []
    decreases |log|
  {
    if log != [] { TakenByNobody(log[..|log| - 1], i); }
  }

  /** What a step of pump `p` adds to the record of what session `i` took. */
  lemma PumpTakes(s: State, p: nat, ok: bool, i: nat, k: nat)
    requires WellFormed(s) && Enabled(s, PumpStep(p, ok)) && k < KINDS
    ensures var t := StepPump(s, p, ok);
      && WellFormed(t)
      && TakenBy(t.taken[k], i) == TakenBy(s.taken[k], i) +
           if p == i && s.sessions[p].pump == Polling(k) && s.queues[k] != [] then [s.queues[k][0]] else []
  {
    var t := StepPump(s, p, ok);
    if t.taken[k] != s.taken[k] {
      assert t.taken[k][..|t.taken[k]| - 1] == s.taken[k];
    }
  }

  lemma OwnPumpKeepsSentInOrder(s: State, i: nat, ok: bool, k: nat)
    requires WellFormed(s) && Enabled(s, PumpStep(i, ok)) && k < KINDS
    requires SentInOrder(s, i, k)
    ensures var t := StepPump(s, i, ok); WellFormed(t) && SentInOrder(t, i, k)
  {
    PumpTakes(s, i, ok, i, k);
    var mine, sent := TakenBy(s.taken[k], i), s.sessions[i].sent[k];
    if s.sessions[i].pump.Writing? { assert (sent + [s.sessions[i].pump.request])[..|sent|] == sent; }
  }

  lemma PumpKeepsSentInOrder(s: State, p: nat, ok: bool, i: nat, k: nat)
    requires WellFormed(s) && Enabled(s, PumpStep(p, ok)) && i < |s.sessions| && k < KINDS
    requires SentInOrder(s, i, k)
    ensures var t := StepPump(s, p, ok); WellFormed(t) && SentInOrder(t, i, k)
  {
    if p == i { OwnPumpKeepsSentInOrder(s, i, ok, k); } else { OtherPumpKeepsSentInOrder(s, p, ok, i, k); }
  }

  lemma OtherPumpKeepsSentInOrder(s: State, p: nat, ok: bool, i: nat, k: nat)
    requires WellFormed(s) && Enabled(s, PumpStep(p, ok)) && i < |s.sessions| && k < KINDS && p != i
    requires SentInOrder(s, i, k)
    ensures var t := StepPump(s, p, ok); WellFormed(t) && SentInOrder(t, i, k)
  {
    PumpTakes(s, p, ok, i, k);
    assert StepPump(s, p, ok).sessions[i] == s.sessions[i];
    var mine := TakenBy(s.taken[k], i);
    assert mine + [] == mine;
  }

  lemma StepKeepsSentInOrder(s: State, a: Action, i: nat, k: nat)
    requires WellFormed(s) && Enabled(s, a) && k < KINDS && ConservedAt(s, k)
    ensures var t := Step(s, a); WellFormed(t) && (i < |t.sessions| ==> SentInOrder(t, i, k))
  {
    StepKeepsWellFormed(s, a);
    if i >= |s.sessions| {
      TakenByNobody(s.taken[k], i);
    } else if a.PumpStep? {
      assert SentInOrder(s, i, k);
      PumpKeepsSentInOrder(s, a.session, a.writeOk, i, k);
    } else {
      assert SentInOrder(s, i, k);
    }
  }

  lemma RequestsPush(log: seq<(nat, Request)>, x: (nat, Request), rest: seq<Request>)
    ensures Requests(log + [x]) + rest == Requests(log) + ([x.1] + rest)
  {
    assert Requests(log + [x]) == Requests(log) + [x.1];
  }

  /** Taking the head of a queue moves it from what is queued to what was taken. */
  lemma HeadIsTaken(log: seq<(nat, Request)>, q: seq<Request>, i: nat)
    requires q != []
    ensures Requests(log) + q == Requests(log + [(i, q[0])]) + q[1..]
  {
    assert q == [q[0]] + q[1..];
    RequestsPush(log, (i, q[0]), q[1..]);
  }

  /** The other steps of a pump leave the queues alone. */
  lemma PumpLeavesQueue(s: State, i: nat, ok: bool, k: nat)
    requires WellFormed(s) && Enabled(s, PumpStep(i, ok)) && k < KINDS
    requires s.sessions[i].pump == Polling(k) ==> s.queues[k] == []
    ensures var t := StepPump(s, i, ok);
      && WellFormed(t) && |t.sessions| == |s.sessions|
      && t.puts[k] == s.puts[k] && t.taken[k] == s.taken[k] && t.queues[k] == s.queues[k]
  {
  }

  lemma PumpTakesHead(s: State, i: nat, ok: bool, k: nat)
    requires WellFormed(s) && Enabled(s, PumpStep(i, ok)) && k < KINDS
    requires s.sessions[i].pump == Polling(k) && s.queues[k] != []
    ensures var t := StepPump(s, i, ok);
      && WellFormed(t) && |t.sessions| == |s.sessions|
      && t.puts[k] == s.puts[k] && t.taken[k] == s.taken[k] + [(i, s.queues[k][0])] && t.queues[k] == s.queues[k][1..]
  {
  }

  lemma PumpKeepsQueueOrder(s: State, i: nat, ok: bool, k: nat)
    requires WellFormed(s) && Enabled(s, PumpStep(i, ok)) && k < KINDS && QueueInOrder(s, k)
    ensures var t := StepPump(s, i, ok); WellFormed(t) && QueueInOrder(t, k)
  {
    if s.sessions[i].pump == Polling(k) && s.queues[k] != [] {
      PumpTakesHead(s, i, ok, k);
      HeadIsTaken(s.taken[k], s.queues[k], i);
    } else {
      PumpLeavesQueue(s, i, ok, k);
    }
  }

  lemma PutKeepsQueueOrder(s: State, kind: nat, r: Request, k: nat)
    requires WellFormed(s) && Enabled(s, Put(kind, r)) && k < KINDS && QueueInOrder(s, k)
    ensures var t := Step(s, Put(kind, r)); WellFormed(t) && QueueInOrder(t, k)
  {
    assert Requests(s.taken[k]) + s.queues[k] + [r] == Requests(s.taken[k]) + (s.queues[k] + [r]);
  }

  lemma HandlerKeepsQueueOrder(s: State, a: Action, k: nat)
    requires WellFormed(s) && Enabled(s, a) && k < KINDS && QueueInOrder(s, k) && !a.Put? && !a.PumpStep?
    ensures var t := Step(s, a); WellFormed(t) && QueueInOrder(t, k)
  {
  }

  lemma StepKeepsQueueOrder(s: State, a: Action, k: nat)
    requires WellFormed(s) && Enabled(s, a) && k < KINDS && QueueInOrder(s, k)
    ensures var t := Step(s, a); WellFormed(t) && QueueInOrder(t, k)
  {
    if a.PumpStep? { PumpKeepsQueueOrder(s, a.session, a.writeOk, k); }
    else if a.Put? { PutKeepsQueueOrder(s, a.kind, a.request, k); }
    else { HandlerKeepsQueueOrder(s, a, k); }
  }

  lemma StepKeepsConservedAt(s: State, a: Action, k: nat)
    requires WellFormed(s) && Enabled(s, a) && k < KINDS && ConservedAt(s, k)
    ensures var t := Step(s, a); WellFormed(t) && ConservedAt(t, k)
  {
    StepKeepsQueueOrder(s, a, k);
    forall i | 0 <= i < |Step(s, a).sessions| ensures SentInOrder(Step(s, a), i, k) {
      StepKeepsSentInOrder(s, a, i, k);
    }
  }

  lemma StepKeepsConserved(s: State, a: Action)
    requires WellFormed(s) && Enabled(s, a) && Conserved(s)
    ensures WellFormed(Step(s, a)) && Conserved(Step(s, a))
  {
    StepKeepsWellFormed(s, a);
    forall k | 0 <= k < KINDS ensures ConservedAt(Step(s, a), k) {
      assert ConservedAt(s, k);
      StepKeepsConservedAt(s, a, k);
    }
  }

  lemma {:induction false} RunKeepsConserved(s: State, actions: seq<Action>, t: State)
    requires WellFormed(s) && Run(s, actions, t) && Conserved(s)
    ensures WellFormed(t) && Conserved(t)
    decreases |actions|
  {
    if actions != [] {
      StepKeepsConserved(s, actions[0]);
      RunKeepsConserved(Step(s, actions[0]), actions[1..], t);
    }
  }

  /**
    In every run, even with pumps that outlive their joins: each queue hands out its
    requests first in, first out, each to one session, and a session writes the requests of
    a kind in that order, each at most once, missing at most the last one it took.
   */
  lemma FifoAtMostOnce(queued: seq<seq<Request>>, t: State, k: nat, i: nat)
    requires |queued| == KINDS && Reaches(Init(queued), t)
    requires k < KINDS
    ensures WellFormed(t)
    ensures t.puts[k] == Requests(t.taken[k]) + t.queues[k]
    ensures i < |t.sessions| ==>
              && t.sessions[i].sent[k] <= TakenBy(t.taken[k], i)
              && |TakenBy(t.taken[k], i)| <= |t.sessions[i].sent[k]| + 1
              && (t.sessions[i].pump.Blocked? ==> t.sessions[i].sent[k] == TakenBy(t.taken[k], i))
  {
    var s := Init(queued);
    var actions :| Run(s, actions, t);
    assert Conserved(s) by {
      forall k | 0 <= k < KINDS ensures ConservedAt(s, k) {
        assert Requests([]) == [];
      }
    }
    RunKeepsConserved(s, actions, t);
    assert ConservedAt(t, k);
    if i < |t.sessions| { assert SentInOrder(t, i, k); }
  }

  // ---------------------------------------------------------------------------
  // Rounds
  // ---------------------------------------------------------------------------

  /** The request kinds in the order of one round. */
  const POLL_ORDER: seq<string> := [
    "send file", "ring phone", "call control", "notification reply", "notification action", "dial",
    "telephony diagnostics", "bluetooth status", "shared app launch", "phone file list", "phone file pull", "contacts",
    "recent contacts", "camera capability", "camera start", "camera ack", "camera stop"]

  lemma OneQueueForEachKind()
    ensures |POLL_ORDER| == KINDS
  {
  }

  /** A queue after a round that polls from queue `k` on. */
  function Served(q: seq<Request>, polled: bool): seq<Request> {
    if polled && q != [] then q[1..] else q
  }

  function Written(q: seq<Request>, sent: seq<Request>, polled: bool): seq<Request> {
    if polled && q != [] then sent + [q[0]] else sent
  }

  /** From queue `k` on every queue has lost its head to the session, and the others are as before. */
  ghost predicate ServedFrom(t: State, u: State, i: nat, k: nat)
    requires WellFormed(t) && WellFormed(u) && i < |t.sessions|
  {
    && |u.sessions| == |t.sessions|
    && u.permits == t.permits && u.between == t.between && u.timeouts == t.timeouts
    && u.sessions[i].ready == t.sessions[i].ready && u.sessions[i].stop == t.sessions[i].stop
    && (forall j :: 0 <= j < KINDS ==> u.queues[j] == Served(t.queues[j], j >= k))
    && (forall j :: 0 <= j < KINDS ==> u.sessions[i].sent[j] == Written(t.queues[j], t.sessions[i].sent[j], j >= k))
  }

  /** Polling one queue and writing what it gives. */
  lemma PollOne(s: State, t: State, i: nat, k: nat) returns (u: State)
    requires WellFormed(s) && Reaches(s, t) && WellFormed(t)
    requires k < KINDS && i < |t.sessions| && t.sessions[i].pump == Polling(k)
    ensures WellFormed(u) && Reaches(s, u)
    ensures |u.sessions| == |t.sessions| && u.sessions[i].pump == NextPoll(k)
    ensures u.permits == t.permits && u.between == t.between && u.timeouts == t.timeouts
    ensures u.sessions[i].ready == t.sessions[i].ready && u.sessions[i].stop == t.sessions[i].stop
    ensures u.queues == t.queues[k := Served(t.queues[k], true)]
    ensures u.sessions[i].sent == t.sessions[i].sent[k := Written(t.queues[k], t.sessions[i].sent[k], true)]
  {
    u := Then(s, t, PumpStep(i, true));
    if t.queues[k] == [] {
      assert t.queues[k := t.queues[k]] == t.queues;
      assert t.sessions[i].sent[k := t.sessions[i].sent[k]] == t.sessions[i].sent;
    } else {
      u := Then(s, u, PumpStep(i, true));
    }
  }

  lemma {:induction false} RoundFrom(s: State, t: State, i: nat, k: nat) returns (u: State)
    requires WellFormed(s) && Reaches(s, t) && WellFormed(t)
    requires k < KINDS && i < |t.sessions| && t.sessions[i].pump == Polling(k)
    ensures WellFormed(u) && Reaches(s, u) && ServedFrom(t, u, i, k) && u.sessions[i].pump.Blocked?
    decreases KINDS - k
  {
    u := PollOne(s, t, i, k);
    if k + 1 < KINDS { u := RoundFrom(s, u, i, k + 1); }
  }

  /**
    One permit lets a ready session write the head of every queue that is not empty, when
    its writes succeed and nobody comes in between.
   */
  lemma RoundServesEveryQueue(s: State, t: State, i: nat) returns (u: State)
    requires WellFormed(s) && Reaches(s, t) && WellFormed(t)
    requires i < |t.sessions| && t.sessions[i].pump.Blocked? && t.sessions[i].ready && !t.sessions[i].stop && t.permits > 0
    ensures WellFormed(u) && Reaches(s, u)
    ensures ServedFrom(t.(permits := t.permits - 1), u, i, 0) && u.sessions[i].pump.Blocked?
  {
    u := Then(s, t, PumpStep(i, true));
    u := Then(s, u, PumpStep(i, true));
    u := Then(s, u, PumpStep(i, true));
    u := RoundFrom(s, u, i, 0);
  }

  // ---------------------------------------------------------------------------
  // Before the heartbeat and after the stop
  // ---------------------------------------------------------------------------

  /** A session that has seen no heartbeat has not polled. */
  ghost predicate Quiet(session: Session) {
    !session.ready ==>
      && !session.pump.Polling? && !session.pump.Writing?
      && forall k :: 0 <= k < |session.sent| ==> session.sent[k] == []
  }

  lemma StepKeepsQuiet(s: State, a: Action, i: nat)
    requires WellFormed(s) && Enabled(s, a) && forall j :: 0 <= j < |s.sessions| ==> Quiet(s.sessions[j])
    ensures var t := Step(s, a); i < |t.sessions| ==> Quiet(t.sessions[i])
  {
  }

  lemma {:induction false} RunKeepsQuiet(s: State, actions: seq<Action>, t: State)
    requires WellFormed(s) && Run(s, actions, t) && forall j :: 0 <= j < |s.sessions| ==> Quiet(s.sessions[j])
    ensures forall j :: 0 <= j < |t.sessions| ==> Quiet(t.sessions[j])
    decreases |actions|
  {
    if actions != [] {
      StepKeepsWellFormed(s, actions[0]);
      forall j | 0 <= j < |Step(s, actions[0]).sessions| ensures Quiet(Step(s, actions[0]).sessions[j]) {
        StepKeepsQuiet(s, actions[0], j);
      }
      RunKeepsQuiet(Step(s, actions[0]), actions[1..], t);
    }
  }

  /** In every run nothing is written in a session before its first heartbeat. */
  lemma NothingBeforeHeartbeat(queued: seq<seq<Request>>, t: State, i: nat, k: nat)
    requires |queued| == KINDS && Reaches(Init(queued), t) && i < |t.sessions| && k < |t.sessions[i].sent|
    ensures !t.sessions[i].ready ==> t.sessions[i].sent[k] == []
  {
    var actions :| Run(Init(queued), actions, t);
    RunKeepsQuiet(Init(queued), actions, t);
    assert Quiet(t.sessions[i]);
  }

  /** A pump that is told to stop and is not in a round. */
  predicate Stopping(session: Session) {
    session.stop && session.pump in {Blocked, Checking, TimedOut, Exited}
  }

  lemma StepKeepsStopping(s: State, a: Action, i: nat)
    requires WellFormed(s) && Enabled(s, a) && i < |s.sessions| && Stopping(s.sessions[i])
    ensures var t := Step(s, a);
      i < |t.sessions| && Stopping(t.sessions[i]) && t.sessions[i].sent == s.sessions[i].sent
  {
  }

  /** In every run it writes nothing more. */
  lemma {:induction false} StoppedPumpWritesNothing(s: State, actions: seq<Action>, t: State, i: nat)
    requires WellFormed(s) && Run(s, actions, t) && i < |s.sessions| && Stopping(s.sessions[i])
    ensures i < |t.sessions| && t.sessions[i].sent == s.sessions[i].sent
    decreases |actions|
  {
    if actions != [] {
      StepKeepsWellFormed(s, actions[0]);
      StepKeepsStopping(s, actions[0], i);
      StoppedPumpWritesNothing(Step(s, actions[0]), actions[1..], t, i);
    }
  }

  /** And it exits as soon as it gets to run: with the next permit, or at once if it has one. */
  lemma StoppedPumpExits(s: State, i: nat, ok: bool)
    requires WellFormed(s) && i < |s.sessions| && s.sessions[i].stop
    ensures s.sessions[i].pump in {Checking, TimedOut} ==> Step(s, PumpStep(i, ok)).sessions[i].pump.Exited?
    ensures s.sessions[i].pump.Blocked? && s.permits > 0 ==>
              var t := Step(s, PumpStep(i, ok));
              t.permits == s.permits - 1 && WellFormed(t) && Step(t, PumpStep(i, ok)).sessions[i].pump.Exited?
  {
    if s.sessions[i].pump.Blocked? && s.permits > 0 { StepKeepsWellFormed(s, PumpStep(i, ok)); }
  }
}
