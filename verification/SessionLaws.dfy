/**
  Laws of the session engine that speak of what the peers, the user and the desktop's owner
  do, and of what becomes of the store, the blocks, the registry and the sessions.
 */
module SessionLaws {
  import opened Wrappers
  import opened Bytes
  import opened SessionSignature
  import opened SessionEngine

  // ---------------------------------------------------------------------------
  // What one action changes
  // ---------------------------------------------------------------------------

  /** The action is the last step of a pairing of `d`, which writes its record. */
  predicate Pairs(s: State, a: Action, d: DeviceId) {
    a.StepConn? && a.conn < |s.conns| && s.conns[a.conn].phase.ConfirmSent? && s.conns[a.conn].device == d
  }

  /** The action closes a session of `d`. */
  predicate Closes(s: State, a: Action, d: DeviceId) {
    a.StepConn? && a.conn < |s.conns| && s.conns[a.conn].phase.Leaving? && s.conns[a.conn].device == d
  }

  /** A record is written by a pairing and removed by its owner, and nothing else touches it. */
  lemma StoreChangesExactly(s: State, a: Action, d: DeviceId, k: Key)
    requires Enabled(s, a)
    ensures var t := Step(s, a);
      (d in t.store && t.store[d] == k) <==>
        if Pairs(s, a, d) then k == s.conns[a.conn].key
        else a != RemoveTrust(d) && d in s.store && s.store[d] == k
  {
  }

  /** Unpairing blocks, disconnecting only asks; allowing and forgetting lift both, and a closed session ends the asking. */
  lemma BlocksChangeExactly(s: State, a: Action, d: DeviceId)
    requires Enabled(s, a)
    ensures var t := Step(s, a);
      var lifted := a == AllowReconnect(d) || a == Forget(d);
      && (d in t.manual <==> a == Unpair(d) || (d in s.manual && !lifted))
      && (d in t.disconnect <==>
            a == Unpair(d) || a == Disconnect(d) || (d in s.disconnect && !lifted && !Closes(s, a, d)))
  {
  }

  /** The registry is taken by a valid init that finds it free, and freed by its holder. */
  lemma RegistryChangesExactly(s: State, a: Action)
    requires Enabled(s, a)
    ensures var t := Step(s, a);
      t.registry ==
        if a.StepConn? && s.conns[a.conn].phase.InitValid? && s.registry.device.None?
          then Registry(Some(s.conns[a.conn].device), Some(a.input.token))
        else if a.StepConn? && s.conns[a.conn].phase.MarkedClosed? && s.registry.token == Some(s.conns[a.conn].token)
          then Registry(None, None)
        else s.registry
  {
  }

  /** One acknowledgement for each session that is acquired and whose acknowledgement is written. */
  lemma AcksChangeExactly(s: State, a: Action)
    requires Enabled(s, a)
    ensures var t := Step(s, a);
      t.acks ==
        if a.StepConn? && s.conns[a.conn].phase.SessionAcquired? && a.outcome.Good?
          then s.acks + [Ack(a.conn, s.conns[a.conn].device, s.conns[a.conn].key)]
        else s.acks
  {
  }

  /** A connection reads an envelope exactly when it waits for one and one comes. */
  lemma EnvelopesAreCounted(s: State, a: Action, i: nat)
    requires Enabled(s, a) && i < |s.conns|
    ensures var t := Step(s, a);
      && i < |t.conns|
      && t.conns[i].received == s.conns[i].received +
           if a.StepConn? && a.conn == i && s.conns[i].phase.Reading? && a.outcome.Good? then 1 else 0
  {
    if a.StepConn? && a.conn == i {
      assert Step(s, a).conns[i] == NextConn(s, s.conns[i], a.outcome, a.input);
    }
  }

  /** A connection holds what its peer presented and goes by the names in it. */
  lemma ConnectMeans(s: State, descriptor: Descriptor, nonce: bytes, ephemeralKey: bytes, issuedAtMs: int64, signature: bytes)
    ensures var t := Step(s, ConnectPairing(descriptor, nonce));
      && |t.conns| == |s.conns| + 1 && t.conns[..|s.conns|] == s.conns
      && var c := t.conns[|s.conns|];
      && c.pairing && c.phase.PairingRequested? && c.device == descriptor.fingerprint && c.key == descriptor.identityKey
      && c.evidence.descriptor == descriptor && c.evidence.pairingNonce == nonce && c.received == 0
    ensures var t := Step(s, ConnectSession(descriptor, ephemeralKey, issuedAtMs, signature));
      && |t.conns| == |s.conns| + 1 && t.conns[..|s.conns|] == s.conns
      && var c := t.conns[|s.conns|];
      && !c.pairing && c.phase.InitReceived? && c.device == descriptor.fingerprint && c.key == descriptor.identityKey
      && c.evidence.descriptor == descriptor && c.evidence.ephemeralKey == ephemeralKey
      && c.evidence.issuedAtMs == issuedAtMs && c.evidence.signature == signature && c.received == 0
  {
  }

  /** Evidence comes from the step at which the desktop asks for it, and is otherwise left alone. */
  lemma EvidenceComesFromInputs(s: State, i: nat, outcome: Outcome, input: Input)
    requires i < |s.conns| && Enabled(s, StepConn(i, outcome, input))
    ensures var c, n := s.conns[i], Step(s, StepConn(i, outcome, input)).conns[i];
      && n.device == c.device && n.key == c.key && n.pairing == c.pairing
      && n.evidence.descriptor == c.evidence.descriptor
      && n.evidence.pairingNonce == c.evidence.pairingNonce
      && n.evidence.ephemeralKey == c.evidence.ephemeralKey && n.evidence.issuedAtMs == c.evidence.issuedAtMs
      && n.evidence.challengeNonce == (if c.phase.WindowOpen? then input.challengeNonce else c.evidence.challengeNonce)
      && n.evidence.typed == (if c.phase.UserConfirmed? then input.typed else c.evidence.typed)
      && n.evidence.transcriptHash == (if c.phase.CodeMatched? then input.transcriptHash else c.evidence.transcriptHash)
      && n.evidence.signature == (if c.phase.CodeMatched? then input.signature else c.evidence.signature)
      && n.evidence.checkedAtMs == (if c.phase.ReconnectAllowed? then input.nowMs else c.evidence.checkedAtMs)
  {
    var e := WithInput(s.conns[i], input);
    MovedFields(s, e, outcome, outcome.Good? && Passes(s.desktop, e));
  }

  // ---------------------------------------------------------------------------
  // Refusals
  // ---------------------------------------------------------------------------

  /** The step depends on its peer, on the user or the network, or on a check, before a session is acquired. */
  predicate CanBeRefused(phase: Phase) {
    phase in {PairingRequested, WindowOpen, UserConfirmed, CodeMatched, ConfirmMatched, ProofValid,
              LookedUp, ReconnectAllowed, TimestampFresh}
  }

  /** One refusal, failed message or failed check ends the connection and changes nothing else. */
  lemma RefusalEnds(s: State, i: nat, outcome: Outcome, input: Input)
    requires i < |s.conns| && CanBeRefused(s.conns[i].phase) && !outcome.Good?
    ensures var t := Step(s, StepConn(i, outcome, input));
      && |t.conns| == |s.conns| && t.conns[i].phase.Finished? && t.conns[i].received == s.conns[i].received
      && t.store == s.store && t.registry == s.registry && t.manual == s.manual && t.disconnect == s.disconnect
      && t.history == s.history && t.acks == s.acks
  {
  }

  lemma {:induction false} FinishedStaysSilent(s: State, actions: seq<Action>, t: State, i: nat)
    requires i < |s.conns| && s.conns[i].phase.Finished? && Run(s, actions, t)
    ensures i < |t.conns| && t.conns[i].phase.Finished?
    ensures s.history <= t.history && s.acks <= t.acks
    ensures forall n :: |s.history| <= n < |t.history| && t.history[n].Upsert? ==> t.history[n].pairedBy != i
    ensures forall n :: |s.acks| <= n < |t.acks| ==> t.acks[n].conn != i
    decreases |actions|
  {
    if actions != [] {
      StepHistory(s, actions[0]);
      AcksChangeExactly(s, actions[0]);
      FinishedStaysSilent(Step(s, actions[0]), actions[1..], t, i);
    }
  }

  /** So in every run a connection that was refused once never gets a record or an acknowledgement. */
  lemma RefusedIsNeverServed(s: State, i: nat, outcome: Outcome, input: Input, after: seq<Action>, t: State)
    requires i < |s.conns| && CanBeRefused(s.conns[i].phase) && !outcome.Good?
    requires Run(Step(s, StepConn(i, outcome, input)), after, t)
    ensures s.history <= t.history && s.acks <= t.acks
    ensures forall n :: |s.history| <= n < |t.history| && t.history[n].Upsert? ==> t.history[n].pairedBy != i
    ensures forall n :: |s.acks| <= n < |t.acks| ==> t.acks[n].conn != i
  {
    RefusalEnds(s, i, outcome, input);
    FinishedStaysSilent(Step(s, StepConn(i, outcome, input)), after, t, i);
  }

  /** A session whose messages fail is closed, and one that only waits in vain looks for requests and reads on. */
  lemma BrokenSessionLeaves(s: State, i: nat, outcome: Outcome, input: Input)
    requires i < |s.conns| && !s.conns[i].phase.Finished?
    ensures var c, n := s.conns[i], Step(s, StepConn(i, outcome, input)).conns[i];
      && (c.phase in {SessionAcquired, AckSent, Handling} && !outcome.Good? ==> n.phase.Leaving?)
      && (c.phase.Reading? && outcome.Bad? ==> n.phase.Leaving?)
      && (c.phase.Reading? && outcome.Expired? ==> n.phase.LoopTop? && n.received == c.received)
  {
    assert NextConn(s, s.conns[i], outcome, input).phase == Moved(s, WithInput(s.conns[i], input), outcome,
      outcome.Good? && Passes(s.desktop, WithInput(s.conns[i], input))).phase;
  }

  // ---------------------------------------------------------------------------
  // Forgetting a device
  // ---------------------------------------------------------------------------

  /** In this run no pairing of `d` completes. */
  ghost predicate NeverPairs(s: State, actions: seq<Action>, d: DeviceId)
    decreases |actions|
  {
    actions != [] ==>
      && !Pairs(s, actions[0], d)
      && (Enabled(s, actions[0]) ==> NeverPairs(Step(s, actions[0]), actions[1..], d))
  }

  predicate NotLookedUp(s: State, i: nat) {
    i < |s.conns| ==> LookedUp !in s.conns[i].passed
  }

  /** Without a record no connection of the device passes the lookup. */
  lemma LookupFails(s: State, a: Action, d: DeviceId, i: nat)
    requires Enabled(s, a) && d !in s.store && NotLookedUp(s, i)
    requires i < |Step(s, a).conns| && Step(s, a).conns[i].device == d
    requires i < |s.conns| ==> s.conns[i].device == d
    ensures NotLookedUp(Step(s, a), i)
  {
    if i < |s.conns| && a.StepConn? && a.conn == i {
      var e := WithInput(s.conns[i], a.input);
      var ok := a.outcome.Good? && Passes(s.desktop, e);
      MovedFields(s, e, a.outcome, ok);
      MovedFollows(s, e, a.outcome, ok);
    }
  }

  lemma {:induction false} StaysForgotten(s: State, actions: seq<Action>, t: State, d: DeviceId, i: nat)
    requires Run(s, actions, t) && d !in s.store && NeverPairs(s, actions, d)
    requires i < |t.conns| && t.conns[i].device == d && NotLookedUp(s, i)
    ensures d !in t.store && NotLookedUp(t, i)
    decreases |actions|
  {
    if actions != [] {
      var u := Step(s, actions[0]);
      if d in u.store { StoreChangesExactly(s, actions[0], d, u.store[d]); }
      StepSameConns(s, actions[0]);
      RunKeepsConns(u, actions[1..], t, i);
      if i < |u.conns| { LookupFails(s, actions[0], d, i); }
      StaysForgotten(u, actions[1..], t, d, i);
    }
  }

  lemma {:induction false} StoreStaysWithout(s: State, actions: seq<Action>, t: State, d: DeviceId)
    requires Run(s, actions, t) && d !in s.store && NeverPairs(s, actions, d)
    ensures d !in t.store
    decreases |actions|
  {
    if actions != [] {
      var u := Step(s, actions[0]);
      if d in u.store { StoreChangesExactly(s, actions[0], d, u.store[d]); }
      StoreStaysWithout(u, actions[1..], t, d);
    }
  }

  lemma {:induction false} AcksAreKept(s: State, actions: seq<Action>, t: State)
    requires Run(s, actions, t)
    ensures s.acks <= t.acks
    decreases |actions|
  {
    if actions != [] {
      AcksChangeExactly(s, actions[0]);
      AcksAreKept(Step(s, actions[0]), actions[1..], t);
    }
  }

  /**
    After the record of a device is removed, and until a pairing of it completes, in every
    run: there is no record, and no connection of the device that had not been looked up by
    then is acknowledged.
   */
  lemma RemovalTakesHold(desktop: Desktop, initial: map<DeviceId, Key>, before: seq<Action>, s: State,
                         after: seq<Action>, t: State, d: DeviceId)
    requires Run(Init(desktop, initial), before, s) && Run(Step(s, RemoveTrust(d)), after, t)
    requires NeverPairs(Step(s, RemoveTrust(d)), after, d)
    ensures d !in t.store
    ensures forall n :: 0 <= n < |t.acks| && t.acks[n].device == d ==>
              t.acks[n].conn < |s.conns| && LookedUp in s.conns[t.acks[n].conn].passed
  {
    var u := Step(s, RemoveTrust(d));
    if d in u.store { StoreChangesExactly(s, RemoveTrust(d), d, u.store[d]); }
    StoreStaysWithout(u, after, t, d);
    InitProvenance(desktop, initial);
    RunKeepsProvenance(initial, Init(desktop, initial), before, s);
    StepKeepsProvenance(initial, s, RemoveTrust(d));
    RunKeepsProvenance(initial, u, after, t);
    forall n | 0 <= n < |t.acks| && t.acks[n].device == d
      ensures t.acks[n].conn < |s.conns| && LookedUp in s.conns[t.acks[n].conn].passed
    {
      var i := t.acks[n].conn;
      assert AckOk(t, t.acks[n]) && ConnOk(initial, t.history, t.conns[i]);
      PassedAllChecks(t.conns[i].passed);
      if NotLookedUp(u, i) { StaysForgotten(u, after, t, d, i); }
      assert u.conns == s.conns;
    }
  }

  // ---------------------------------------------------------------------------
  // What is owed to a peer that does everything right
  // ---------------------------------------------------------------------------

  lemma RunOneMore(s: State, actions: seq<Action>, t: State, a: Action)
    requires Run(s, actions, t) && Enabled(t, a)
    ensures Run(s, actions + [a], Step(t, a))
    decreases |actions|
  {
    if actions == [] {
      assert [] + [a] == [a] && [a][1..] == [];
      assert Run(Step(t, a), [], Step(t, a));
    } else {
      RunOneMore(Step(s, actions[0]), actions[1..], t, a);
      assert (actions + [a])[1..] == actions[1..] + [a];
    }
  }

  /** Connection `i` goes on with everybody agreeing. */
  lemma GoOn(s: State, actions: seq<Action>, t: State, i: nat, input: Input)
    returns (longer: seq<Action>, u: State)
    requires Run(s, actions, t) && i < |t.conns| && !t.conns[i].phase.Finished?
    requires forall a <- actions :: a == StepConn(i, Good, input)
    ensures Run(s, longer, u) && forall a <- longer :: a == StepConn(i, Good, input)
    ensures |u.conns| == |t.conns| && u.desktop == t.desktop
    ensures u == StepThread(t, i, Good, input)
  {
    longer, u := actions + [StepConn(i, Good, input)], Step(t, StepConn(i, Good, input));
    RunOneMore(s, actions, t, StepConn(i, Good, input));
  }

  /** A step that touches nothing the threads share. */
  lemma GoOnAlone(s: State, actions: seq<Action>, t: State, i: nat, input: Input)
    returns (longer: seq<Action>, u: State)
    requires Run(s, actions, t) && i < |t.conns|
    requires t.conns[i].phase !in {ConfirmSent, InitValid, SessionAcquired, Leaving, MarkedClosed, Finished}
    requires forall a <- actions :: a == StepConn(i, Good, input)
    ensures Run(s, longer, u) && forall a <- longer :: a == StepConn(i, Good, input)
    ensures u == t.(conns := t.conns[i := NextConn(t, t.conns[i], Good, input)])
  {
    longer, u := GoOn(s, actions, t, i, input);
  }

  /** The state but for connection `i` is as before. */
  ghost predicate OnlyMoved(s: State, t: State, i: nat)
    requires i < |s.conns|
  {
    && |t.conns| == |s.conns|
    && t.conns[i].device == s.conns[i].device && t.conns[i].key == s.conns[i].key
    && t.conns[i].received == s.conns[i].received && t.conns[i].token == s.conns[i].token
    && t.(conns := s.conns) == s
  }

  predicate Deserving(s: State, i: nat, input: Input) {
    && i < |s.conns|
    && var c := s.conns[i];
    && c.device in s.store && s.store[c.device] == c.key && c.device !in s.manual
    && -(s.desktop.maxSkewMs as int) <= input.nowMs - c.evidence.issuedAtMs <= s.desktop.maxSkewMs
    && var st := Statement(SESSION_INIT_LABEL, c.evidence.descriptor, c.evidence.ephemeralKey, c.evidence.issuedAtMs);
    && Fit(TextFields(st), 0x1_0000_0000) && s.desktop.verify(c.key, DesktopPayload(st), c.evidence.signature)
  }

  lemma LookupPasses(s: State, i: nat, input: Input) returns (actions: seq<Action>, t: State)
    requires Deserving(s, i, input) && s.conns[i].phase.InitReceived?
    ensures Run(s, actions, t) && forall a <- actions :: a == StepConn(i, Good, input)
    ensures OnlyMoved(s, t, i) && t.conns[i].phase.ReconnectAllowed? && t.conns[i].evidence == s.conns[i].evidence
  {
    assert Run(s, [], s);
    actions, t := GoOnAlone(s, [], s, i, input);
    assert t.conns[i].phase.LookedUp?;
    actions, t := GoOnAlone(s, actions, t, i, input);
  }

  lemma InitPasses(s: State, before: seq<Action>, t: State, i: nat, input: Input) returns (actions: seq<Action>, u: State)
    requires Run(s, before, t) && forall a <- before :: a == StepConn(i, Good, input)
    requires Deserving(t, i, input) && t.conns[i].phase.ReconnectAllowed?
    ensures Run(s, actions, u) && forall a <- actions :: a == StepConn(i, Good, input)
    ensures OnlyMoved(t, u, i) && u.conns[i].phase.InitValid?
  {
    actions, u := GoOnAlone(s, before, t, i, input);
    assert u.conns[i].phase.TimestampFresh?;
    actions, u := GoOnAlone(s, actions, u, i, input);
  }

  /**
    A peer whose record has its key, which is not blocked, and whose init is fresh and
    signed by that key, is acknowledged when no session is running and its messages get through.
   */
  lemma GoodSessionIsAcknowledged(s: State, i: nat, input: Input) returns (actions: seq<Action>, t: State)
    requires i < |s.conns| && s.conns[i].phase.InitReceived?
    requires var c := s.conns[i];
      && c.device in s.store && s.store[c.device] == c.key && c.device !in s.manual
      && -(s.desktop.maxSkewMs as int) <= input.nowMs - c.evidence.issuedAtMs <= s.desktop.maxSkewMs
      && var st := Statement(SESSION_INIT_LABEL, c.evidence.descriptor, c.evidence.ephemeralKey, c.evidence.issuedAtMs);
      && Fit(TextFields(st), 0x1_0000_0000) && s.desktop.verify(c.key, DesktopPayload(st), c.evidence.signature)
    requires s.registry == Registry(None, None)
    ensures Run(s, actions, t) && forall a <- actions :: a == StepConn(i, Good, input)
    ensures t.acks == s.acks + [Ack(i, s.conns[i].device, s.conns[i].key)]
    ensures |t.conns| == |s.conns| && t.conns[i].phase.AckSent?
    ensures t.registry == Registry(Some(s.conns[i].device), Some(input.token))
  {
    actions, t := LookupPasses(s, i, input);
    actions, t := InitPasses(s, actions, t, i, input);
    actions, t := GoOn(s, actions, t, i, input);
    assert t.conns[i].phase.SessionAcquired?;
    actions, t := GoOn(s, actions, t, i, input);
  }

  lemma CodePasses(s: State, i: nat, input: Input) returns (actions: seq<Action>, t: State)
    requires i < |s.conns| && s.conns[i].phase.PairingRequested?
    requires var c := s.conns[i];
      input.typed == s.desktop.deriveCode(c.evidence.pairingNonce, input.challengeNonce, c.key, s.desktop.key, 6)
    ensures Run(s, actions, t) && forall a <- actions :: a == StepConn(i, Good, input)
    ensures OnlyMoved(s, t, i) && t.conns[i].phase.CodeMatched?
    ensures t.conns[i].evidence.challengeNonce == input.challengeNonce
    ensures t.conns[i].evidence.pairingNonce == s.conns[i].evidence.pairingNonce
  {
    assert Run(s, [], s);
    actions, t := GoOnAlone(s, [], s, i, input);
    assert t.conns[i].phase.WindowOpen?;
    actions, t := GoOnAlone(s, actions, t, i, input);
    assert t.conns[i].phase.UserConfirmed?;
    actions, t := GoOnAlone(s, actions, t, i, input);
  }

  lemma ProofPasses(s: State, before: seq<Action>, t: State, i: nat, input: Input) returns (actions: seq<Action>, u: State)
    requires Run(s, before, t) && forall a <- before :: a == StepConn(i, Good, input)
    requires i < |t.conns| && t.conns[i].phase.CodeMatched?
    requires input.transcriptHash == Transcript(t.desktop, t.conns[i])
    requires t.desktop.verify(t.conns[i].key, input.transcriptHash, input.signature)
    ensures Run(s, actions, u) && forall a <- actions :: a == StepConn(i, Good, input)
    ensures OnlyMoved(t, u, i) && u.conns[i].phase.ConfirmSent?
  {
    actions, u := GoOnAlone(s, before, t, i, input);
    assert u.conns[i].phase.ConfirmMatched?;
    actions, u := GoOnAlone(s, actions, u, i, input);
    assert u.conns[i].phase.ProofValid?;
    actions, u := GoOnAlone(s, actions, u, i, input);
  }

  /**
    A peer whose user types the derived code, and whose confirmation has the transcript's
    hash signed by its key, is recorded with that key when the owner agrees and messages get through.
   */
  lemma GoodPairingIsRecorded(s: State, i: nat, input: Input) returns (actions: seq<Action>, t: State)
    requires i < |s.conns| && s.conns[i].phase.PairingRequested?
    requires var c, d := s.conns[i], s.desktop;
      var code := d.deriveCode(c.evidence.pairingNonce, input.challengeNonce, c.key, d.key, 6);
      var hash := d.hashTranscript(c.evidence.pairingNonce, input.challengeNonce, c.device, d.id, code);
      input.typed == code && input.transcriptHash == hash && d.verify(c.key, hash, input.signature)
    ensures Run(s, actions, t) && forall a <- actions :: a == StepConn(i, Good, input)
    ensures t.store == s.store[s.conns[i].device := s.conns[i].key]
    ensures |t.conns| == |s.conns| && t.conns[i].phase.Finished?
  {
    actions, t := CodePasses(s, i, input);
    actions, t := ProofPasses(s, actions, t, i, input);
    actions, t := GoOn(s, actions, t, i, input);
  }

  lemma LoopReads(s: State, before: seq<Action>, t: State, i: nat, input: Input) returns (actions: seq<Action>, u: State)
    requires Run(s, before, t) && forall a <- before :: a == StepConn(i, Good, input)
    requires i < |t.conns| && t.conns[i].phase.LoopTop?
    requires t.conns[i].device !in t.manual && t.conns[i].device !in t.disconnect
    ensures Run(s, actions, u) && forall a <- actions :: a == StepConn(i, Good, input)
    ensures |u.conns| == |t.conns| && u.registry == t.registry
    ensures u.conns[i].phase.Handling? && u.conns[i].received == t.conns[i].received + 1
  {
    LoopWaits(t, i, input);
    actions, u := GoOnAlone(s, before, t, i, input);
    EnvelopeComes(u, i, input);
    actions, u := GoOnAlone(s, actions, u, i, input);
  }

  lemma LoopWaits(s: State, i: nat, input: Input)
    requires i < |s.conns| && s.conns[i].phase.LoopTop?
    requires s.conns[i].device !in s.manual && s.conns[i].device !in s.disconnect
    ensures var n := NextConn(s, s.conns[i], Good, input);
      n.phase.Reading? && n.received == s.conns[i].received
  {
  }

  lemma EnvelopeComes(s: State, i: nat, input: Input)
    requires i < |s.conns| && s.conns[i].phase.Reading?
    ensures var n := NextConn(s, s.conns[i], Good, input);
      n.phase.Handling? && n.received == s.conns[i].received + 1
  {
  }

  /** An acknowledged session that nobody asks to end reads envelope after envelope. */
  lemma GoodSessionReads(s: State, i: nat, input: Input) returns (actions: seq<Action>, t: State)
    requires i < |s.conns| && s.conns[i].phase in {AckSent, Handling}
    requires s.conns[i].device !in s.manual && s.conns[i].device !in s.disconnect
    ensures Run(s, actions, t) && forall a <- actions :: a == StepConn(i, Good, input)
    ensures |t.conns| == |s.conns| && t.registry == s.registry
    ensures t.conns[i].phase.Handling? && t.conns[i].received == s.conns[i].received + 1
  {
    assert Run(s, [], s);
    actions, t := GoOnAlone(s, [], s, i, input);
    actions, t := LoopReads(s, actions, t, i, input);
  }

  lemma SessionCloses(s: State, before: seq<Action>, t: State, i: nat, input: Input) returns (actions: seq<Action>, u: State)
    requires Run(s, before, t) && forall a <- before :: a == StepConn(i, Good, input)
    requires i < |t.conns| && t.conns[i].phase.Leaving? && t.registry.token == Some(t.conns[i].token)
    ensures Run(s, actions, u) && forall a <- actions :: a == StepConn(i, Good, input)
    ensures |u.conns| == |t.conns| && u.conns[i].phase.Finished? && u.conns[i].received == t.conns[i].received
    ensures u.registry == Registry(None, None) && t.conns[i].device !in u.disconnect
  {
    actions, u := GoOn(s, before, t, i, input);
    ClosingMarks(t, i, input);
    actions, u := GoOn(s, actions, u, i, input);
    ReleasingEnds(StepThread(t, i, Good, input), i, input);
  }

  lemma ClosingMarks(s: State, i: nat, input: Input)
    requires i < |s.conns| && s.conns[i].phase.Leaving?
    ensures var t := StepThread(s, i, Good, input);
      && |t.conns| == |s.conns| && t.conns[i].phase.MarkedClosed? && t.conns[i].received == s.conns[i].received
      && t.conns[i].token == s.conns[i].token && t.registry == s.registry && s.conns[i].device !in t.disconnect
  {
  }

  lemma ReleasingEnds(s: State, i: nat, input: Input)
    requires i < |s.conns| && s.conns[i].phase.MarkedClosed? && s.registry.token == Some(s.conns[i].token)
    ensures var t := StepThread(s, i, Good, input);
      && |t.conns| == |s.conns| && t.conns[i].phase.Finished? && t.conns[i].received == s.conns[i].received
      && t.registry == Registry(None, None) && t.disconnect == s.disconnect
  {
  }

  /** A session that has been asked to end does so at the top of its loop, and frees the registry and the request. */
  lemma RequestedSessionEnds(s: State, i: nat, input: Input) returns (actions: seq<Action>, t: State)
    requires i < |s.conns| && s.conns[i].phase.LoopTop? && s.registry.token == Some(s.conns[i].token)
    requires s.conns[i].device in s.manual || s.conns[i].device in s.disconnect
    ensures Run(s, actions, t) && forall a <- actions :: a == StepConn(i, Good, input)
    ensures |t.conns| == |s.conns| && t.conns[i].phase.Finished? && t.conns[i].received == s.conns[i].received
    ensures t.registry == Registry(None, None) && s.conns[i].device !in t.disconnect
  {
    assert Run(s, [], s);
    actions, t := GoOnAlone(s, [], s, i, input);
    assert t.conns[i].phase.Leaving? && OnlyMoved(s, t, i);
    actions, t := SessionCloses(s, actions, t, i, input);
  }
}
