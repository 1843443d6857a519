/**
  Connection handlers of the desktop server.  Every accepted connection runs in its own
  thread; the threads share the trust store, the one-session registry and the sets of
  manually disconnected devices.  The user interface changes those sets and the store at
  any time.  Every interleaving is a sequence of the atomic actions below.
*/
module SessionEngine {
  import opened Wrappers
  import opened Bytes
  import opened SessionSignature

  type DeviceId = bytes
  type Key = bytes

  // ---------------------------------------------------------------------------
  // The registry
  // ---------------------------------------------------------------------------

  datatype Registry = Registry(device: Option<DeviceId>, token: Option<string>)

  const FREE := Registry(None, None)

  function Acquired(r: Registry, device: DeviceId, token: string): Registry {
    if r.device.Some? then r else Registry(Some(device), Some(token))
  }

  function Released(r: Registry, token: string): Registry {
    if r.token != Some(token) then r else FREE
  }

  /** The registry object; every method runs under its lock. */
  class ActiveSessionRegistry {
    var device: Option<DeviceId>
    var token: Option<string>

    ghost function View(): Registry
      reads this
    {
      Registry(device, token)
    }

    constructor ()
      ensures View() == FREE
    {
      device, token := None, None;
    }

    method Acquire(deviceId: DeviceId, fresh_: string) returns (result: Option<string>)
      modifies this
      ensures View() == Acquired(old(View()), deviceId, fresh_)
      ensures result == if old(View()).device.Some? then None else Some(fresh_)
    {
      if device.Some? { return None; }
      device := Some(deviceId);
      token := Some(fresh_);
      return Some(fresh_);
    }

    method Release(old_: string)
      modifies this
      ensures View() == Released(old(View()), old_)
    {
      if token != Some(old_) { return; }
      device := None;
      token := None;
    }
  }

  // ---------------------------------------------------------------------------
  // State and actions
  // ---------------------------------------------------------------------------

  /** Where a connection thread is; each name is the step it has completed. */
  datatype Phase =
    // a pairing connection
    | PairingRequested
    | WindowOpen
    | UserConfirmed
    | CodeMatched
    | ConfirmMatched
    | ProofValid
    | ConfirmSent
    // a session connection
    | InitReceived
    | LookedUp
    | ReconnectAllowed
    | TimestampFresh
    | InitValid
    | SessionAcquired
    | AckSent
    | LoopTop
    | Reading
    | Handling
    | Leaving
    | MarkedClosed
    // either
    | Finished

  /** What a peer presents, and what the desktop compares it with. */
  datatype Evidence = Evidence(
    descriptor: Descriptor,
    // pairing
    pairingNonce: bytes,
    challengeNonce: bytes,
    typed: string,             // the code the user typed
    transcriptHash: bytes,     // in the peer's confirmation
    // session
    ephemeralKey: bytes,
    issuedAtMs: int64,
    checkedAtMs: int,          // the desktop's clock when it tested the time
    // either: of the confirmation or of the session init
    signature: bytes)

  datatype Conn = Conn(
    pairing: bool,
    device: DeviceId,          // claimed by the peer
    key: Key,                  // claimed by the peer
    evidence: Evidence,
    phase: Phase,
    token: string,
    lookupAt: nat,             // length of the store history when the record was looked up
    passed: set<Phase>,        // history: the phases this connection has been in
    received: nat)             // history: encrypted envelopes read

  /** The desktop's identity, and the primitives its checks use. */
  datatype Desktop = Desktop(
    id: DeviceId,
    key: Key,
    maxSkewMs: nat,
    deriveCode: (bytes, bytes, Key, Key, nat) -> string,             // nonces, both keys, length
    hashTranscript: (bytes, bytes, DeviceId, DeviceId, string) -> bytes,  // nonces, both ids, code
    verify: (Key, bytes, bytes) -> bool)                             // key, payload, signature

  const CODE_LENGTH: nat := 6

  /** The code both devices derive from what they exchanged. */
  function ExpectedCode(d: Desktop, c: Conn): string {
    d.deriveCode(c.evidence.pairingNonce, c.evidence.challengeNonce, c.key, d.key, CODE_LENGTH)
  }

  function Transcript(d: Desktop, c: Conn): bytes {
    d.hashTranscript(c.evidence.pairingNonce, c.evidence.challengeNonce, c.device, d.id, ExpectedCode(d, c))
  }

  predicate IsFresh(d: Desktop, issuedAtMs: int, nowMs: int) {
    nowMs - issuedAtMs <= d.maxSkewMs && issuedAtMs - nowMs <= d.maxSkewMs
  }

  /** The statement that a session init asks the desktop to believe. */
  function InitStatement(c: Conn): Statement {
    Statement(SESSION_INIT_LABEL, c.evidence.descriptor, c.evidence.ephemeralKey, c.evidence.issuedAtMs)
  }

  /** Its payload can be built, and the signature over it verifies. */
  predicate InitIsSigned(d: Desktop, c: Conn) {
    && Fit(TextFields(InitStatement(c)), 0x1_0000_0000)
    && d.verify(c.key, DesktopPayload(InitStatement(c)), c.evidence.signature)
  }

  datatype StoreEvent =
    | Upsert(device: DeviceId, key: Key, pairedBy: nat)
    | Remove(device: DeviceId)

  datatype Ack = Ack(conn: nat, device: DeviceId, key: Key)

  datatype State = State(
    desktop: Desktop,
    store: map<DeviceId, Key>,
    registry: Registry,
    manual: set<DeviceId>,             // unpaired: reconnect is blocked
    disconnect: set<DeviceId>,         // the running session is to end
    conns: seq<Conn>,
    history: seq<StoreEvent>,          // history of the trust store
    acks: seq<Ack>)                    // history of SessionAck messages

  /** Whether the peer, the user or the network goes along. */
  datatype Outcome = Good | Bad | Expired

  /** What a step takes in; each step uses the part it asks for. */
  datatype Input = Input(
    token: string, challengeNonce: bytes, typed: string, transcriptHash: bytes, signature: bytes, nowMs: int)

  datatype Action =
    | ConnectPairing(descriptor: Descriptor, nonce: bytes)
    | ConnectSession(descriptor: Descriptor, ephemeralKey: bytes, issuedAtMs: int64, signature: bytes)
    | StepConn(conn: nat, outcome: Outcome, input: Input)
    | Unpair(device: DeviceId)
    | Disconnect(device: DeviceId)
    | AllowReconnect(device: DeviceId)
    | Forget(device: DeviceId)          // clears the two sets
    | RemoveTrust(device: DeviceId)     // forgetting goes on to remove the record

  function Init(desktop: Desktop, store: map<DeviceId, Key>): State {
    State(desktop, store, FREE, {}, {}, [], [], [])
  }

  predicate Enabled(s: State, a: Action) {
    a.StepConn? ==> a.conn < |s.conns| && !s.conns[a.conn].phase.Finished?
  }

  function Enter(c: Conn, phase: Phase): Conn {
    c.(phase := phase, passed := c.passed + {phase})
  }

  function Check(c: Conn, ok: bool, next: Phase): Conn {
    Enter(c, if ok then next else Finished)
  }

  /** The evidence after the step has read, asked or looked at the clock. */
  function Noted(e: Evidence, phase: Phase, input: Input): Evidence {
    match phase
    case WindowOpen => e.(challengeNonce := input.challengeNonce)
    case UserConfirmed => e.(typed := input.typed)
    case CodeMatched => e.(transcriptHash := input.transcriptHash, signature := input.signature)
    case ReconnectAllowed => e.(checkedAtMs := input.nowMs)
    case _ => e
  }

  /** The check that the step makes on the evidence. */
  predicate Passes(d: Desktop, c: Conn) {
    match c.phase
    case UserConfirmed => c.evidence.typed == ExpectedCode(d, c)
    case CodeMatched => c.evidence.transcriptHash == Transcript(d, c)
    case ConfirmMatched => d.verify(c.key, Transcript(d, c), c.evidence.signature)
    case ReconnectAllowed => IsFresh(d, c.evidence.issuedAtMs, c.evidence.checkedAtMs)
    case TimestampFresh => InitIsSigned(d, c)
    case _ => true
  }

  /** Where a connection goes next; `ok` when its peer, the user and its check agree. */
  function Moved(s: State, me: Conn, outcome: Outcome, ok: bool): Conn {
    match me.phase
    case PairingRequested => Check(me, ok, WindowOpen)
    case WindowOpen => Check(me, ok, UserConfirmed)
    case UserConfirmed => Check(me, ok, CodeMatched)
    case CodeMatched => Check(me, ok, ConfirmMatched)
    case ConfirmMatched => Check(me, ok, ProofValid)
    case ProofValid => Check(me, ok, ConfirmSent)
    case ConfirmSent => Enter(me, Finished)
    case InitReceived =>
      Check(me.(lookupAt := |s.history|), me.device in s.store && s.store[me.device] == me.key, LookedUp)
    case LookedUp => Check(me, me.device !in s.manual && ok, ReconnectAllowed)
    case ReconnectAllowed => Check(me, ok, TimestampFresh)
    case TimestampFresh => Check(me, ok, InitValid)
    case InitValid => Check(me, s.registry.device.None?, SessionAcquired)
    case SessionAcquired => Enter(me, if ok then AckSent else Leaving)
    case AckSent => Enter(me, if ok then LoopTop else Leaving)
    case LoopTop =>
      Enter(me, if me.device in s.manual || me.device in s.disconnect then Leaving else Reading)
    case Reading =>
      (match outcome
       case Good => Enter(me.(received := me.received + 1), Handling)
       case Expired => Enter(me, LoopTop)
       case Bad => Enter(me, Leaving))
    case Handling => Enter(me, if ok then LoopTop else Leaving)
    case Leaving => Enter(me, MarkedClosed)
    case MarkedClosed => Enter(me, Finished)
    case Finished => me
  }

  function WithInput(me: Conn, input: Input): Conn {
    me.(evidence := Noted(me.evidence, me.phase, input), token := if me.phase.InitValid? then input.token else me.token)
  }

  /** What the next atomic step of a connection does to the connection itself. */
  function NextConn(s: State, me: Conn, outcome: Outcome, input: Input): Conn {
    var c := WithInput(me, input);
    Moved(s, c, outcome, outcome.Good? && Passes(s.desktop, c))
  }

  /** The next atomic step of connection `i`, with its effect on what the threads share. */
  function StepThread(s: State, i: nat, outcome: Outcome, input: Input): State
    requires i < |s.conns|
  {
    var me := s.conns[i];
    var t := s.(conns := s.conns[i := NextConn(s, me, outcome, input)]);
    match me.phase
    case ConfirmSent =>
      t.(store := s.store[me.device := me.key], history := s.history + [Upsert(me.device, me.key, i)])
    case InitValid => t.(registry := Acquired(s.registry, me.device, input.token))
    case SessionAcquired =>
      if outcome.Good? then t.(acks := s.acks + [Ack(i, me.device, me.key)]) else t
    case Leaving => t.(disconnect := s.disconnect - {me.device})
    case MarkedClosed => t.(registry := Released(s.registry, me.token))
    case _ => t
  }

  function NewConn(pairing: bool, e: Evidence): Conn {
    var phase := if pairing then PairingRequested else InitReceived;
    Conn(pairing, e.descriptor.fingerprint, e.descriptor.identityKey, e, phase, "", 0, {phase}, 0)
  }

  function Step(s: State, a: Action): State
    requires Enabled(s, a)
  {
    match a
    case ConnectPairing(d, nonce) =>
      s.(conns := s.conns + [NewConn(true, Evidence(d, nonce, [], "", [], [], 0, 0, []))])
    case ConnectSession(d, ephemeralKey, issuedAt, signature) =>
      s.(conns := s.conns + [NewConn(false, Evidence(d, [], [], "", [], ephemeralKey, issuedAt, 0, signature))])
    case StepConn(i, outcome, input) => StepThread(s, i, outcome, input)
    case Unpair(d) => s.(manual := s.manual + {d}, disconnect := s.disconnect + {d})
    case Disconnect(d) => s.(disconnect := s.disconnect + {d})
    case AllowReconnect(d) => s.(manual := s.manual - {d}, disconnect := s.disconnect - {d})
    case Forget(d) => s.(manual := s.manual - {d}, disconnect := s.disconnect - {d})
    case RemoveTrust(d) =>
      if d in s.store then s.(store := s.store - {d}, history := s.history + [Remove(d)]) else s
  }

  /** `t` is reached from `s` by performing `actions` in order. */
  ghost predicate Run(s: State, actions: seq<Action>, t: State)
    decreases |actions|
  {
    if actions == [] then s == t
    else Enabled(s, actions[0]) && Run(Step(s, actions[0]), actions[1..], t)
  }

  // ---------------------------------------------------------------------------
  // One session at a time
  // ---------------------------------------------------------------------------

  /** Between acquiring the registry and releasing it. */
  predicate Holding(c: Conn) {
    c.phase in {SessionAcquired, AckSent, LoopTop, Reading, Handling, Leaving, MarkedClosed}
  }

  /** Connection `i` holds the registry and no other connection does. */
  ghost predicate SoleHolder(s: State, i: nat)
    requires i < |s.conns|
  {
    && Holding(s.conns[i])
    && s.registry == Registry(Some(s.conns[i].device), Some(s.conns[i].token))
    && forall j :: 0 <= j < |s.conns| && j != i ==> !Holding(s.conns[j])
  }

  ghost predicate NoHolder(s: State) {
    s.registry == FREE && forall j :: 0 <= j < |s.conns| ==> !Holding(s.conns[j])
  }

  ghost predicate OneHolder(s: State) {
    NoHolder(s) || exists i :: 0 <= i < |s.conns| && SoleHolder(s, i)
  }

  /** A holder keeps its device and token until it lets go after marking itself closed. */
  lemma HolderNext(s: State, c: Conn, outcome: Outcome, input: Input)
    requires Holding(c)
    ensures var n := NextConn(s, c, outcome, input);
      && n.device == c.device && n.token == c.token
      && (Holding(n) <==> !c.phase.MarkedClosed?)
  {
  }

  lemma StepWithHolder(s: State, a: Action, i: nat)
    requires Enabled(s, a) && i < |s.conns| && SoleHolder(s, i)
    ensures var t := Step(s, a); i < |t.conns| && if Holding(t.conns[i]) then SoleHolder(t, i) else NoHolder(t)
  {
    if a.StepConn? {
      if a.conn == i {
        HolderNext(s, s.conns[i], a.outcome, a.input);
      } else {
        assert !Holding(s.conns[a.conn]);
        OtherNext(s, s.conns[a.conn], a.outcome, a.input);
      }
    }
  }

  /** Nobody else gets to hold the registry while it is held. */
  lemma OtherNext(s: State, c: Conn, outcome: Outcome, input: Input)
    requires !Holding(c) && !c.phase.Finished?
    ensures Holding(NextConn(s, c, outcome, input)) <==> c.phase.InitValid? && s.registry.device.None?
  {
  }

  lemma StepWithoutHolder(s: State, a: Action)
    requires Enabled(s, a) && NoHolder(s)
    ensures var t := Step(s, a);
      if a.StepConn? && Holding(t.conns[a.conn]) then SoleHolder(t, a.conn) else NoHolder(t)
  {
    if a.StepConn? { assert !Holding(s.conns[a.conn]); }
  }

  lemma StepKeepsOneHolder(s: State, a: Action)
    requires Enabled(s, a) && OneHolder(s)
    ensures OneHolder(Step(s, a))
  {
    if NoHolder(s) {
      StepWithoutHolder(s, a);
    } else {
      var i :| 0 <= i < |s.conns| && SoleHolder(s, i);
      StepWithHolder(s, a, i);
    }
  }

  lemma {:induction false} RunKeepsOneHolder(s: State, actions: seq<Action>, t: State)
    requires OneHolder(s) && Run(s, actions, t)
    ensures OneHolder(t)
    decreases |actions|
  {
    if actions != [] {
      StepKeepsOneHolder(s, actions[0]);
      RunKeepsOneHolder(Step(s, actions[0]), actions[1..], t);
    }
  }

  /**
    In every run at most one connection is between acquiring and releasing the registry,
    and the registry is free exactly when there is none.
   */
  lemma SessionsAreExclusive(desktop: Desktop, store: map<DeviceId, Key>, actions: seq<Action>, t: State)
    requires Run(Init(desktop, store), actions, t)
    ensures forall i, j :: 0 <= i < |t.conns| && 0 <= j < |t.conns| && Holding(t.conns[i]) && Holding(t.conns[j]) ==> i == j
    ensures t.registry == FREE <==> (forall i :: 0 <= i < |t.conns| ==> !Holding(t.conns[i]))
  {
    RunKeepsOneHolder(Init(desktop, store), actions, t);
  }

  // ---------------------------------------------------------------------------
  // Who is acknowledged
  // ---------------------------------------------------------------------------

  ghost predicate Untouched(history: seq<StoreEvent>, lo: nat, hi: nat, d: DeviceId)
    requires hi <= |history|
  {
    forall n :: lo <= n < hi ==> history[n].device != d
  }

  /**
    After the first `at` store events `d` is trusted with key `k`: the pair was there from
    the start or came from a pairing, and nothing has removed or replaced it since.
   */
  ghost predicate TrustedAt(initial: map<DeviceId, Key>, history: seq<StoreEvent>, at: nat, d: DeviceId, k: Key)
    requires at <= |history|
  {
    || (d in initial && initial[d] == k && Untouched(history, 0, at, d))
    || (exists j :: 0 <= j < at && PairedSince(history, j, at, d, k))
  }

  /** Event `j` paired `d` with `k`, and no later event before `at` concerns `d`. */
  ghost predicate PairedSince(history: seq<StoreEvent>, j: nat, at: nat, d: DeviceId, k: Key)
    requires j < at <= |history|
  {
    history[j].Upsert? && history[j].device == d && history[j].key == k && Untouched(history, j + 1, at, d)
  }

  lemma TrustedAtPrefix(initial: map<DeviceId, Key>, h: seq<StoreEvent>, e: StoreEvent, at: nat, d: DeviceId, k: Key)
    requires at <= |h|
    ensures TrustedAt(initial, h + [e], at, d, k) == TrustedAt(initial, h, at, d, k)
  {
    assert forall n :: 0 <= n < at ==> (h + [e])[n] == h[n];
    forall j | 0 <= j < at ensures PairedSince(h + [e], j, at, d, k) == PairedSince(h, j, at, d, k) {}
  }

  /** One more event decides trust in its own device and leaves the others as they were. */
  lemma TrustedAfter(initial: map<DeviceId, Key>, h: seq<StoreEvent>, e: StoreEvent, d: DeviceId, k: Key)
    ensures TrustedAt(initial, h + [e], |h| + 1, d, k)
        <==> if e.device == d then e.Upsert? && e.key == k else TrustedAt(initial, h, |h|, d, k)
  {
    var h' := h + [e];
    var at := |h|;
    assert h'[at] == e;
    TrustedAtPrefix(initial, h, e, at, d, k);
    assert PairedSince(h', at, at + 1, d, k) <==> e.Upsert? && e.device == d && e.key == k;
    forall j | 0 <= j < at
      ensures PairedSince(h', j, at + 1, d, k) <==> PairedSince(h', j, at, d, k) && e.device != d
    {}
    assert Untouched(h', 0, at + 1, d) <==> Untouched(h', 0, at, d) && e.device != d;
    if TrustedAt(initial, h', at + 1, d, k) && e.device != d {
      assert !PairedSince(h', at, at + 1, d, k);
      if !Untouched(h', 0, at, d) || d !in initial || initial[d] != k {
        var j :| 0 <= j < at + 1 && PairedSince(h', j, at + 1, d, k);
        assert PairedSince(h', j, at, d, k);
      }
    }
  }

  const PAIRING_CHECKS: set<Phase> := {WindowOpen, UserConfirmed, CodeMatched, ConfirmMatched, ProofValid, ConfirmSent}

  const SESSION_CHECKS: set<Phase> := {LookedUp, ReconnectAllowed, TimestampFresh, InitValid, SessionAcquired}

  /** The phase that must come before `phase`, or `phase` itself when none must. */
  function Before(phase: Phase): Phase {
    match phase
    case WindowOpen => PairingRequested
    case UserConfirmed => WindowOpen
    case CodeMatched => UserConfirmed
    case ConfirmMatched => CodeMatched
    case ProofValid => ConfirmMatched
    case ConfirmSent => ProofValid
    case LookedUp => InitReceived
    case ReconnectAllowed => LookedUp
    case TimestampFresh => ReconnectAllowed
    case InitValid => TimestampFresh
    case SessionAcquired => InitValid
    case AckSent => SessionAcquired
    case LoopTop => AckSent
    case Reading => LoopTop
    case Handling => Reading
    case Leaving => SessionAcquired
    case MarkedClosed => Leaving
    case _ => phase
  }

  ghost predicate InOrder(passed: set<Phase>) {
    forall p <- passed :: Before(p) in passed
  }

  lemma PassedAllChecks(passed: set<Phase>)
    requires InOrder(passed)
    ensures ConfirmSent in passed ==> PAIRING_CHECKS <= passed
    ensures SessionAcquired in passed ==> SESSION_CHECKS <= passed
  {
    if ConfirmSent in passed {
      assert Before(ConfirmSent) in passed;
      assert Before(ProofValid) in passed;
      assert Before(ConfirmMatched) in passed;
      assert Before(CodeMatched) in passed;
      assert Before(UserConfirmed) in passed;
    }
    if SessionAcquired in passed {
      assert Before(SessionAcquired) in passed;
      assert Before(InitValid) in passed;
      assert Before(TimestampFresh) in passed;
      assert Before(ReconnectAllowed) in passed;
    }
  }

  predicate PairingPhase(phase: Phase) {
    phase in {PairingRequested, WindowOpen, UserConfirmed, CodeMatched, ConfirmMatched, ProofValid, ConfirmSent}
  }

  /** No check that is still to come has been passed. */
  predicate NotAhead(c: Conn) {
    && (c.phase in {PairingRequested, WindowOpen, UserConfirmed} ==>
          CodeMatched !in c.passed && ConfirmMatched !in c.passed && ProofValid !in c.passed)
    && (c.phase.CodeMatched? ==> ConfirmMatched !in c.passed && ProofValid !in c.passed)
    && (c.phase in {InitReceived, LookedUp, ReconnectAllowed} ==> TimestampFresh !in c.passed && InitValid !in c.passed)
  }

  /** The evidence bears out every check that has been passed. */
  predicate Proven(d: Desktop, c: Conn) {
    && c.device == c.evidence.descriptor.fingerprint && c.key == c.evidence.descriptor.identityKey
    && (CodeMatched in c.passed ==> c.evidence.typed == ExpectedCode(d, c))
    && (ConfirmMatched in c.passed ==> c.evidence.transcriptHash == Transcript(d, c))
    && (ProofValid in c.passed ==> d.verify(c.key, Transcript(d, c), c.evidence.signature))
    && (TimestampFresh in c.passed ==> IsFresh(d, c.evidence.issuedAtMs, c.evidence.checkedAtMs))
    && (InitValid in c.passed ==> InitIsSigned(d, c))
  }

  /** A pairing connection never gets into a session's phases, and the other way round. */
  predicate KeepsToItsKind(c: Conn) {
    if c.pairing then InitReceived !in c.passed && TimestampFresh !in c.passed && InitValid !in c.passed
    else CodeMatched !in c.passed && ConfirmMatched !in c.passed && ProofValid !in c.passed
  }

  ghost predicate ConnOk(initial: map<DeviceId, Key>, history: seq<StoreEvent>, c: Conn) {
    && (!c.phase.Finished? ==> c.phase in c.passed)
    && InOrder(c.passed)
    && c.lookupAt <= |history|
    && (c.phase.Finished? || (c.pairing <==> PairingPhase(c.phase)))
    && (LookedUp in c.passed ==> TrustedAt(initial, history, c.lookupAt, c.device, c.key))
    && (c.pairing || c.phase.InitReceived? ==> LookedUp !in c.passed)
  }

  predicate EvidenceOk(d: Desktop, c: Conn) {
    NotAhead(c) && KeepsToItsKind(c) && PhasesAgree(c) && Proven(d, c)
  }

  /** Evidence that is noted leaves the checks already passed alone. */
  lemma NotedIsProven(d: Desktop, c: Conn, input: Input)
    requires EvidenceOk(d, c)
    ensures EvidenceOk(d, WithInput(c, input))
  {
  }

  /** A move changes nothing about who the peer is and what it presented. */
  lemma MovedFields(s: State, c: Conn, outcome: Outcome, ok: bool)
    requires !c.phase.Finished?
    ensures var n := Moved(s, c, outcome, ok);
      && n.pairing == c.pairing && n.device == c.device && n.key == c.key && n.evidence == c.evidence
      && n.passed == c.passed + {n.phase} && n.received >= c.received
  {
  }

  /** The phases a connection reaches only one way, and what it takes. */
  predicate Follows(c: Conn, phase: Phase, ok: bool) {
    match phase
    case WindowOpen => c.phase.PairingRequested?
    case UserConfirmed => c.phase.WindowOpen?
    case CodeMatched => c.phase.UserConfirmed? && ok
    case ConfirmMatched => c.phase.CodeMatched? && ok
    case ProofValid => c.phase.ConfirmMatched? && ok
    case LookedUp => c.phase.InitReceived?
    case ReconnectAllowed => c.phase.LookedUp?
    case TimestampFresh => c.phase.ReconnectAllowed? && ok
    case InitValid => c.phase.TimestampFresh? && ok
    case PairingRequested => false
    case InitReceived => false
    case Finished => true
    case _ => PairingPhase(phase) == PairingPhase(c.phase)
  }

  lemma MovedFollows(s: State, c: Conn, outcome: Outcome, ok: bool)
    requires !c.phase.Finished?
    ensures Follows(c, Moved(s, c, outcome, ok).phase, ok)
  {
  }

  lemma FollowerIsProven(d: Desktop, c: Conn, n: Conn, ok: bool)
    requires EvidenceOk(d, c) && !c.phase.Finished? && (ok ==> Passes(d, c)) && Follows(c, n.phase, ok)
    requires n.pairing == c.pairing && n.device == c.device && n.key == c.key && n.evidence == c.evidence
    requires n.passed == c.passed + {n.phase}
    ensures EvidenceOk(d, n)
  {
  }

  /** A connection enters a phase that stands for a check only when its evidence passes. */
  lemma MovedIsProven(s: State, c: Conn, outcome: Outcome, ok: bool)
    requires EvidenceOk(s.desktop, c) && !c.phase.Finished? && (ok ==> Passes(s.desktop, c))
    ensures EvidenceOk(s.desktop, Moved(s, c, outcome, ok))
  {
    MovedFields(s, c, outcome, ok);
    MovedFollows(s, c, outcome, ok);
    FollowerIsProven(s.desktop, c, Moved(s, c, outcome, ok), ok);
  }

  lemma NextEvidenceOk(s: State, c: Conn, outcome: Outcome, input: Input)
    requires EvidenceOk(s.desktop, c) && !c.phase.Finished?
    ensures EvidenceOk(s.desktop, NextConn(s, c, outcome, input))
  {
    NotedIsProven(s.desktop, c, input);
    var e := WithInput(c, input);
    MovedIsProven(s, e, outcome, outcome.Good? && Passes(s.desktop, e));
  }

  lemma StepEvidenceOk(s: State, a: Action, i: nat)
    requires Enabled(s, a) && forall j :: 0 <= j < |s.conns| ==> EvidenceOk(s.desktop, s.conns[j])
    ensures var t := Step(s, a); t.desktop == s.desktop && (i < |t.conns| ==> EvidenceOk(s.desktop, t.conns[i]))
  {
    if a.StepConn? && a.conn == i { NextEvidenceOk(s, s.conns[i], a.outcome, a.input); }
  }

  ghost predicate AckOk(s: State, ack: Ack) {
    && ack.conn < |s.conns|
    && var c := s.conns[ack.conn];
    && c.device == ack.device && c.key == ack.key
    && SessionAcquired in c.passed
  }

  ghost predicate PairingOk(s: State, e: StoreEvent) {
    e.Upsert? ==>
      && e.pairedBy < |s.conns|
      && var c := s.conns[e.pairedBy];
      && c.pairing && c.device == e.device && c.key == e.key
      && ConfirmSent in c.passed
  }

  ghost predicate Provenance(initial: map<DeviceId, Key>, s: State) {
    && (forall d: DeviceId, k: Key ::
          (d in s.store && s.store[d] == k) <==> TrustedAt(initial, s.history, |s.history|, d, k))
    && (forall i :: 0 <= i < |s.conns| ==> ConnOk(initial, s.history, s.conns[i]) && EvidenceOk(s.desktop, s.conns[i]))
    && (forall n :: 0 <= n < |s.acks| ==> AckOk(s, s.acks[n]))
    && (forall n :: 0 <= n < |s.history| ==> PairingOk(s, s.history[n]))
  }

  /** The store after a step is the store before it with at most one event applied. */
  lemma StepStore(initial: map<DeviceId, Key>, s: State, a: Action, d: DeviceId, k: Key)
    requires Enabled(s, a) && Provenance(initial, s)
    ensures var t := Step(s, a);
      (d in t.store && t.store[d] == k) <==> TrustedAt(initial, t.history, |t.history|, d, k)
  {
    var t := Step(s, a);
    if t.history != s.history {
      TrustedAfter(initial, s.history, t.history[|s.history|], d, k);
    }
  }

  /** A connection enters a phase only from one that the phase's predecessor leads to. */
  lemma NextPhase(s: State, c: Conn, outcome: Outcome, ok: bool)
    requires !c.phase.Finished?
    ensures var next := Moved(s, c, outcome, ok);
      && next.passed == c.passed + {next.phase}
      && (Before(next.phase) in {c.phase, next.phase}
          || (next.phase.LoopTop? && c.phase in {Reading, Handling})
          || (next.phase.Leaving? && c.phase in {SessionAcquired, AckSent, LoopTop, Reading, Handling}))
  {
  }

  lemma NextInOrder(s: State, c: Conn, outcome: Outcome, ok: bool)
    requires InOrder(c.passed) && c.phase in c.passed && !c.phase.Finished?
    ensures InOrder(Moved(s, c, outcome, ok).passed)
  {
    NextPhase(s, c, outcome, ok);
    LoopPhasesInOrder(c);
  }

  /** Inside the loop a connection has been at its top and, before that, acknowledged and acquired. */
  lemma LoopPhasesInOrder(c: Conn)
    requires InOrder(c.passed) && c.phase in c.passed
    ensures c.phase in {Reading, Handling} ==> LoopTop in c.passed && AckSent in c.passed
    ensures c.phase in {AckSent, LoopTop, Reading, Handling} ==> SessionAcquired in c.passed
  {
    assert Before(c.phase) in c.passed;
    assert Before(Before(c.phase)) in c.passed;
    assert Before(Before(Before(c.phase))) in c.passed;
    assert Before(Before(Before(Before(c.phase)))) in c.passed;
  }

  lemma MovedOk(initial: map<DeviceId, Key>, s: State, c: Conn, outcome: Outcome, ok: bool)
    requires ConnOk(initial, s.history, c) && !c.phase.Finished?
    requires c.device in s.store && s.store[c.device] == c.key
             ==> TrustedAt(initial, s.history, |s.history|, c.device, c.key)
    ensures ConnOk(initial, s.history, Moved(s, c, outcome, ok))
  {
    NextInOrder(s, c, outcome, ok);
  }

  lemma NextConnOk(initial: map<DeviceId, Key>, s: State, c: Conn, outcome: Outcome, input: Input)
    requires ConnOk(initial, s.history, c) && !c.phase.Finished?
    requires c.device in s.store && s.store[c.device] == c.key
             ==> TrustedAt(initial, s.history, |s.history|, c.device, c.key)
    ensures ConnOk(initial, s.history, NextConn(s, c, outcome, input))
  {
    var e := WithInput(c, input);
    MovedOk(initial, s, e, outcome, outcome.Good? && Passes(s.desktop, e));
  }

  lemma LongerHistoryOk(initial: map<DeviceId, Key>, h: seq<StoreEvent>, e: StoreEvent, c: Conn)
    requires ConnOk(initial, h, c)
    ensures ConnOk(initial, h + [e], c)
  {
    TrustedAtPrefix(initial, h, e, c.lookupAt, c.device, c.key);
  }

  /** A step adds at most one event. */
  lemma StepHistory(s: State, a: Action)
    requires Enabled(s, a)
    ensures var h := Step(s, a).history;
      h == s.history || (|h| == |s.history| + 1 && h == s.history + [h[|s.history|]])
  {
  }

  lemma StepConnOk(initial: map<DeviceId, Key>, s: State, a: Action, i: nat)
    requires Enabled(s, a) && Provenance(initial, s)
    ensures var t := Step(s, a); i < |t.conns| ==> ConnOk(initial, t.history, t.conns[i])
  {
    var t := Step(s, a);
    StepHistory(s, a);
    if i < |s.conns| {
      assert ConnOk(initial, s.history, s.conns[i]);
      if a.StepConn? && a.conn == i {
        NextConnOk(initial, s, s.conns[i], a.outcome, a.input);
      }
      assert ConnOk(initial, s.history, t.conns[i]);
      if t.history != s.history {
        LongerHistoryOk(initial, s.history, t.history[|s.history|], t.conns[i]);
      }
    }
  }

  lemma NextSame(s: State, c: Conn, outcome: Outcome, input: Input)
    requires !c.phase.Finished?
    ensures SameConn(c, NextConn(s, c, outcome, input))
  {
    var e := WithInput(c, input);
    MovedFields(s, e, outcome, outcome.Good? && Passes(s.desktop, e));
  }

  lemma StepSameConns(s: State, a: Action)
    requires Enabled(s, a)
    ensures var t := Step(s, a);
      |s.conns| <= |t.conns| && forall i :: 0 <= i < |s.conns| ==> SameConn(s.conns[i], t.conns[i])
  {
    if a.StepConn? { NextSame(s, s.conns[a.conn], a.outcome, a.input); }
  }

  lemma StepAcks(s: State, a: Action, n: nat)
    requires Enabled(s, a)
    requires forall m :: 0 <= m < |s.acks| ==> AckOk(s, s.acks[m])
    requires forall i :: 0 <= i < |s.conns| && !s.conns[i].phase.Finished? ==> s.conns[i].phase in s.conns[i].passed
    ensures var t := Step(s, a); n < |t.acks| ==> AckOk(t, t.acks[n])
  {
    StepSameConns(s, a);
    if n < |s.acks| { assert AckOk(s, s.acks[n]); }
  }

  lemma StepPairings(s: State, a: Action, n: nat)
    requires Enabled(s, a)
    requires forall m :: 0 <= m < |s.history| ==> PairingOk(s, s.history[m])
    requires forall i :: 0 <= i < |s.conns| && s.conns[i].phase.ConfirmSent? ==>
               s.conns[i].pairing && ConfirmSent in s.conns[i].passed
    ensures var t := Step(s, a); n < |t.history| ==> PairingOk(t, t.history[n])
  {
    StepSameConns(s, a);
    if n < |s.history| { assert PairingOk(s, s.history[n]); }
  }

  lemma StepKeepsProvenance(initial: map<DeviceId, Key>, s: State, a: Action)
    requires Enabled(s, a) && Provenance(initial, s)
    ensures Provenance(initial, Step(s, a))
  {
    var t := Step(s, a);
    forall d: DeviceId, k: Key
      ensures (d in t.store && t.store[d] == k) <==> TrustedAt(initial, t.history, |t.history|, d, k)
    {
      StepStore(initial, s, a, d, k);
    }
    forall i | 0 <= i < |t.conns| ensures ConnOk(initial, t.history, t.conns[i]) && EvidenceOk(t.desktop, t.conns[i]) {
      StepConnOk(initial, s, a, i);
      StepEvidenceOk(s, a, i);
    }
    assert t.desktop == s.desktop by { StepEvidenceOk(s, a, 0); }
    assert forall i :: 0 <= i < |s.conns| ==> ConnOk(initial, s.history, s.conns[i]);
    forall n | 0 <= n < |t.acks| ensures AckOk(t, t.acks[n]) {
      StepAcks(s, a, n);
    }
    forall n | 0 <= n < |t.history| ensures PairingOk(t, t.history[n]) {
      StepPairings(s, a, n);
    }
  }

  /** What no step changes about a connection. */
  ghost predicate SameConn(c: Conn, d: Conn) {
    && d.pairing == c.pairing && d.device == c.device && d.key == c.key
    && c.passed <= d.passed && c.received <= d.received
  }

  lemma {:induction false} RunKeepsProvenance(initial: map<DeviceId, Key>, s: State, actions: seq<Action>, t: State)
    requires Provenance(initial, s) && Run(s, actions, t)
    ensures Provenance(initial, t) && t.desktop == s.desktop
    decreases |actions|
  {
    if actions != [] {
      StepKeepsProvenance(initial, s, actions[0]);
      StepEvidenceOk(s, actions[0], 0);
      RunKeepsProvenance(initial, Step(s, actions[0]), actions[1..], t);
    }
  }

  /**
    Every SessionAck of every run goes to a device and key that were trusted when the
    record was looked up, on a connection that passed every later check.
   */
  lemma AcksGoToTrustedPairs(desktop: Desktop, initial: map<DeviceId, Key>, actions: seq<Action>, t: State, n: nat)
    requires Run(Init(desktop, initial), actions, t) && n < |t.acks|
    ensures var ack := t.acks[n];
      && ack.conn < |t.conns|
      && var c := t.conns[ack.conn];
      && c.device == ack.device && c.key == ack.key
      && SESSION_CHECKS <= c.passed
      && t.desktop == desktop
      && c.evidence.descriptor.fingerprint == ack.device && c.evidence.descriptor.identityKey == ack.key
      && var st := Statement(SESSION_INIT_LABEL, c.evidence.descriptor, c.evidence.ephemeralKey, c.evidence.issuedAtMs);
      && Fit(TextFields(st), 0x1_0000_0000) && desktop.verify(ack.key, DesktopPayload(st), c.evidence.signature)
      && c.evidence.issuedAtMs - desktop.maxSkewMs <= c.evidence.checkedAtMs <= c.evidence.issuedAtMs + desktop.maxSkewMs
      && c.lookupAt <= |t.history|
      && TrustedAt(initial, t.history, c.lookupAt, ack.device, ack.key)
  {
    InitProvenance(desktop, initial);
    RunKeepsProvenance(initial, Init(desktop, initial), actions, t);
    assert AckOk(t, t.acks[n]);
    var c := t.conns[t.acks[n].conn];
    assert ConnOk(initial, t.history, c);
    PassedAllChecks(c.passed);
  }

  /**
    Whatever the holder of a trusted key has signed: if a signature under the key verifies
    only for payloads of statements that it made, then every acknowledged session init is
    one of those statements, down to its label, ephemeral key and time.
   */
  lemma AckedStatementsWereMade(desktop: Desktop, initial: map<DeviceId, Key>, actions: seq<Action>, t: State, n: nat,
                                made: Statement -> bool)
    requires Run(Init(desktop, initial), actions, t) && n < |t.acks|
    requires forall payload, signature :: desktop.verify(t.acks[n].key, payload, signature) ==>
      exists st :: made(st) && Fit(TextFields(st), 0x1_0000_0000) && payload == DesktopPayload(st)
    ensures t.acks[n].conn < |t.conns|
    ensures var e := t.conns[t.acks[n].conn].evidence;
      made(Statement(SESSION_INIT_LABEL, e.descriptor, e.ephemeralKey, e.issuedAtMs))
  {
    AcksGoToTrustedPairs(desktop, initial, actions, t, n);
    var e := t.conns[t.acks[n].conn].evidence;
    var init := Statement(SESSION_INIT_LABEL, e.descriptor, e.ephemeralKey, e.issuedAtMs);
    var st :| made(st) && Fit(TextFields(st), 0x1_0000_0000) && DesktopPayload(init) == DesktopPayload(st);
    PayloadIsInjective(init, st);
  }

  /** Every record added in any run was written by a connection that passed every pairing check for it. */
  lemma RecordsComeFromPairings(desktop: Desktop, initial: map<DeviceId, Key>, actions: seq<Action>, t: State, j: nat)
    requires Run(Init(desktop, initial), actions, t) && j < |t.history| && t.history[j].Upsert?
    ensures var e := t.history[j];
      && e.pairedBy < |t.conns|
      && var c := t.conns[e.pairedBy];
      && c.pairing && c.device == e.device && c.key == e.key
      && PAIRING_CHECKS <= c.passed
      && t.desktop == desktop
      && var code := desktop.deriveCode(c.evidence.pairingNonce, c.evidence.challengeNonce, e.key, desktop.key, 6);
      && c.evidence.typed == code
      && c.evidence.transcriptHash
         == desktop.hashTranscript(c.evidence.pairingNonce, c.evidence.challengeNonce, e.device, desktop.id, code)
      && desktop.verify(e.key, c.evidence.transcriptHash, c.evidence.signature)
  {
    InitProvenance(desktop, initial);
    RunKeepsProvenance(initial, Init(desktop, initial), actions, t);
    assert PairingOk(t, t.history[j]);
    var c := t.conns[t.history[j].pairedBy];
    assert ConnOk(initial, t.history, c);
    PassedAllChecks(c.passed);
  }

  lemma InitProvenance(desktop: Desktop, initial: map<DeviceId, Key>)
    ensures Provenance(initial, Init(desktop, initial))
  {
    forall d: DeviceId, k: Key
      ensures (d in initial && initial[d] == k) <==> TrustedAt(initial, [], 0, d, k)
    {}
  }

  // ---------------------------------------------------------------------------
  // Unpair and disconnect take hold
  // ---------------------------------------------------------------------------

  /** Nobody lifts the block on `d`. */
  ghost predicate KeepsBlocked(actions: seq<Action>, d: DeviceId) {
    forall n :: 0 <= n < |actions| ==> actions[n] != AllowReconnect(d) && actions[n] != Forget(d)
  }

  /** A session connection that has not passed the reconnect check. */
  predicate BeforeCheck(c: Conn) {
    !c.pairing && (c.phase.InitReceived? || c.phase.LookedUp?)
  }

  /** Envelopes that a connection whose session is to end may still read. */
  function StillReads(c: Conn): nat {
    if c.phase.Reading? then 1 else 0
  }

  predicate PhasesAgree(c: Conn) {
    !c.phase.Finished? ==> (c.pairing <==> PairingPhase(c.phase))
  }

  lemma KeepsBlockedRest(actions: seq<Action>, d: DeviceId)
    requires actions != [] && KeepsBlocked(actions, d)
    ensures actions[0] != AllowReconnect(d) && actions[0] != Forget(d) && KeepsBlocked(actions[1..], d)
  {
  }

  ghost predicate AllPhasesAgree(s: State) {
    forall j :: 0 <= j < |s.conns| ==> PhasesAgree(s.conns[j])
  }

  lemma NextPhasesAgree(s: State, c: Conn, outcome: Outcome, input: Input)
    requires PhasesAgree(c) && !c.phase.Finished?
    ensures PhasesAgree(NextConn(s, c, outcome, input))
  {
    var e := WithInput(c, input);
    var ok := outcome.Good? && Passes(s.desktop, e);
    MovedFields(s, e, outcome, ok);
    MovedFollows(s, e, outcome, ok);
  }

  lemma StepPhasesAgree(s: State, a: Action)
    requires Enabled(s, a) && AllPhasesAgree(s)
    ensures AllPhasesAgree(Step(s, a))
  {
    if a.StepConn? { NextPhasesAgree(s, s.conns[a.conn], a.outcome, a.input); }
  }

  /** What one step of a blocked device's connection does. */
  lemma UnpairNext(s: State, c: Conn, outcome: Outcome, input: Input)
    requires c.device in s.manual && PhasesAgree(c) && !c.phase.Finished?
    ensures var e := NextConn(s, c, outcome, input);
      && e.device == c.device
      && e.received + StillReads(e) <= c.received + StillReads(c)
      && (BeforeCheck(c) ==> BeforeCheck(e) || e.phase.Finished?)
  {
  }

  lemma UnpairStep(s: State, a: Action, d: DeviceId, i: nat)
    requires Enabled(s, a) && d in s.manual && a != AllowReconnect(d) && a != Forget(d) && AllPhasesAgree(s)
    ensures var t := Step(s, a);
      && d in t.manual
      && (i < |s.conns| && s.conns[i].device == d ==>
            && t.conns[i].device == d
            && t.conns[i].received + StillReads(t.conns[i]) <= s.conns[i].received + StillReads(s.conns[i])
            && (BeforeCheck(s.conns[i]) ==> BeforeCheck(t.conns[i]) || t.conns[i].phase.Finished?)
            && (s.conns[i].phase.Finished? ==> t.conns[i].phase.Finished?))
      && (|s.conns| <= i < |t.conns| && t.conns[i].device == d ==>
            t.conns[i].received == 0 && (t.conns[i].pairing || BeforeCheck(t.conns[i])))
  {
    if a.StepConn? && a.conn == i && s.conns[i].device == d {
      UnpairNext(s, s.conns[i], a.outcome, a.input);
    }
  }

  /** From `s` to `t` connection `i` of a blocked device read at most its pending envelope and passed no check. */
  predicate Contained(s: State, t: State, i: nat)
    requires i < |t.conns|
  {
    if i < |s.conns| then
      && t.conns[i].received <= s.conns[i].received + StillReads(s.conns[i])
      && (BeforeCheck(s.conns[i]) || s.conns[i].phase.Finished? ==>
            BeforeCheck(t.conns[i]) || t.conns[i].phase.Finished?)
    else
      && t.conns[i].received == 0
      && (t.conns[i].pairing || BeforeCheck(t.conns[i]) || t.conns[i].phase.Finished?)
  }

  lemma StepThenContained(s: State, a: Action, t: State, d: DeviceId, i: nat)
    requires Enabled(s, a) && d in s.manual && a != AllowReconnect(d) && a != Forget(d) && AllPhasesAgree(s)
    requires i < |t.conns| && Contained(Step(s, a), t, i)
    requires i < |Step(s, a).conns| ==>
      Step(s, a).conns[i].device == d && Step(s, a).conns[i].pairing == t.conns[i].pairing
    requires i < |s.conns| ==> s.conns[i].device == d
    ensures Contained(s, t, i)
  {
    UnpairStep(s, a, d, i);
  }

  /** While `d` stays blocked, its connections are contained. */
  lemma {:induction false} BlockHolds(s: State, actions: seq<Action>, t: State, d: DeviceId, i: nat)
    requires d in s.manual && Run(s, actions, t) && KeepsBlocked(actions, d)
    requires i < |t.conns| && t.conns[i].device == d
    requires AllPhasesAgree(s)
    ensures Contained(s, t, i)
    decreases |actions|
  {
    if actions != [] {
      var u := Step(s, actions[0]);
      KeepsBlockedRest(actions, d);
      StepPhasesAgree(s, actions[0]);
      StepSameConns(s, actions[0]);
      RunKeepsConns(u, actions[1..], t, i);
      assert d in u.manual;
      BlockHolds(u, actions[1..], t, d, i);
      StepThenContained(s, actions[0], t, d, i);
    }
  }

  lemma {:induction false} RunKeepsConns(s: State, actions: seq<Action>, t: State, i: nat)
    requires Run(s, actions, t)
    ensures |s.conns| <= |t.conns|
    ensures i < |s.conns| ==> SameConn(s.conns[i], t.conns[i])
    decreases |actions|
  {
    if actions != [] {
      StepSameConns(s, actions[0]);
      RunKeepsConns(Step(s, actions[0]), actions[1..], t, i);
    }
  }

  lemma DisconnectStep(s: State, a: Action, d: DeviceId, i: nat)
    requires Enabled(s, a) && a != AllowReconnect(d) && a != Forget(d)
    requires i < |s.conns| && SoleHolder(s, i) && s.conns[i].device == d
    requires d in s.manual || d in s.disconnect
    ensures var t := Step(s, a);
      && i < |t.conns| && t.conns[i].device == d
      && t.conns[i].received + StillReads(t.conns[i]) <= s.conns[i].received + StillReads(s.conns[i])
      && (t.conns[i].phase.MarkedClosed? || t.conns[i].phase.Finished? || d in t.manual || d in t.disconnect)
  {
    if a.StepConn? && a.conn != i { assert !Holding(s.conns[a.conn]); }
  }

  lemma {:induction false} ClosedReadsNothing(s: State, actions: seq<Action>, t: State, i: nat)
    requires i < |s.conns| && (s.conns[i].phase.MarkedClosed? || s.conns[i].phase.Finished?)
    requires Run(s, actions, t)
    ensures i < |t.conns| && t.conns[i].received == s.conns[i].received
    decreases |actions|
  {
    if actions != [] { ClosedReadsNothing(Step(s, actions[0]), actions[1..], t, i); }
  }

  /** While `d` is to be disconnected, its running session gets no further than the bound of `DisconnectTakesHold`. */
  lemma {:induction false} DisconnectHolds(s: State, actions: seq<Action>, t: State, d: DeviceId, i: nat)
    requires OneHolder(s) && i < |s.conns| && Holding(s.conns[i]) && s.conns[i].device == d
    requires d in s.manual || d in s.disconnect
    requires Run(s, actions, t) && KeepsBlocked(actions, d)
    ensures i < |t.conns| && t.conns[i].received <= s.conns[i].received + StillReads(s.conns[i])
    decreases |actions|
  {
    if actions != [] {
      var a := actions[0];
      var u := Step(s, a);
      KeepsBlockedRest(actions, d);
      assert SoleHolder(s, i);
      DisconnectStep(s, a, d, i);
      StepKeepsOneHolder(s, a);
      if u.conns[i].phase.MarkedClosed? || u.conns[i].phase.Finished? {
        ClosedReadsNothing(u, actions[1..], t, i);
      } else {
        StepWithHolder(s, a, i);
        DisconnectHolds(u, actions[1..], t, d, i);
      }
    }
  }

  /**
    After a device is unpaired, and until it is allowed back or forgotten, in every run: a
    connection of the device that has not passed the reconnect check never does, and reads
    no encrypted envelope; a connection that has passed it reads at most the one it is
    waiting for.
   */
  lemma UnpairTakesHold(desktop: Desktop, store: map<DeviceId, Key>, before: seq<Action>, s: State,
                        after: seq<Action>, t: State, d: DeviceId, i: nat)
    requires Run(Init(desktop, store), before, s) && Run(Step(s, Unpair(d)), after, t)
    requires KeepsBlocked(after, d)
    requires i < |t.conns| && t.conns[i].device == d
    ensures i < |s.conns| ==> t.conns[i].received <= s.conns[i].received + StillReads(s.conns[i])
    ensures i < |s.conns| && BeforeCheck(s.conns[i]) ==> BeforeCheck(t.conns[i]) || t.conns[i].phase.Finished?
    ensures i >= |s.conns| ==>
              && t.conns[i].received == 0
              && (t.conns[i].pairing || BeforeCheck(t.conns[i]) || t.conns[i].phase.Finished?)
  {
    InitProvenance(desktop, store);
    RunKeepsProvenance(store, Init(desktop, store), before, s);
    var u := Step(s, Unpair(d));
    forall j | 0 <= j < |u.conns| ensures PhasesAgree(u.conns[j]) {
      assert ConnOk(store, s.history, s.conns[j]);
    }
    BlockHolds(u, after, t, d, i);
  }

  /**
    A disconnect request for the device of the running session stays until that session
    ends, although closing a session clears such requests: in every run the session reads
    at most the envelope it is waiting for.
   */
  lemma {:induction false} DisconnectTakesHold(desktop: Desktop, store: map<DeviceId, Key>, before: seq<Action>, s: State,
                            after: seq<Action>, t: State, d: DeviceId, i: nat)
    requires Run(Init(desktop, store), before, s) && Run(Step(s, Disconnect(d)), after, t)
    requires KeepsBlocked(after, d)
    requires i < |s.conns| && Holding(s.conns[i]) && s.conns[i].device == d
    ensures i < |t.conns| && t.conns[i].received <= s.conns[i].received + StillReads(s.conns[i])
  {
    RunKeepsOneHolder(Init(desktop, store), before, s);
    StepKeepsOneHolder(s, Disconnect(d));
    DisconnectHolds(Step(s, Disconnect(d)), after, t, d, i);
  }
}
