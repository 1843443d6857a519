/** File transfer end to end: sender, encrypted channel and receiver together. */
module Transfer {
  import opened Wrappers
  import opened Bytes
  import opened Messages
  import opened FileNames
  import opened FileReceiving
  import opened FileSending
  import opened SessionCipher

  /** The messages of one transfer within any traffic. */
  function Projection(log: seq<Message>, id: TransferId): seq<Message>
    decreases |log|
  {
    if log == [] then []
    else
      var m := log[|log| - 1];
      Projection(log[..|log| - 1], id) + if !m.Other? && m.id == id then [m] else []
  }

  lemma {:induction false} TrackDependsOnOwnMessages(log: seq<Message>, id: TransferId)
    ensures Track(log, id) == Track(Projection(log, id), id)
    decreases |log|
  {
    if log != [] {
      var before, m := log[..|log| - 1], log[|log| - 1];
      TrackDependsOnOwnMessages(before, id);
      var own := Projection(before, id);
      if !m.Other? && m.id == id { assert (own + [m])[..|own|] == own; }
      else { assert Projection(log, id) == own; }
    }
  }

  lemma {:induction false} TrackOfChunks(id: TransferId, name: FileName, size: nat, pieces: seq<bytes>)
    requires MakesPath(id)
    ensures Track([Offer(id, name, size)] + ChunksOf(id, pieces), id) == UnderWay(name, size, pieces)
    decreases |pieces|
  {
    var offer := [Offer(id, name, size)];
    if pieces == [] {
      assert offer + ChunksOf(id, []) == offer;
      assert offer[..0] == [];
    } else {
      var before := pieces[..|pieces| - 1];
      TrackOfChunks(id, name, size, before);
      var log := offer + ChunksOf(id, pieces);
      assert log[..|log| - 1] == offer + ChunksOf(id, before);
      assert before + [pieces[|pieces| - 1]] == pieces;
    }
  }

  /** Where the last message of a transfer is in the traffic. */
  lemma {:induction false} LastOwnMessage(log: seq<Message>, id: TransferId) returns (n: nat)
    requires Projection(log, id) != []
    ensures n < |log|
    ensures Projection(log, id) == Projection(log[..n], id) + [log[n]]
    decreases |log|
  {
    var before, m := log[..|log| - 1], log[|log| - 1];
    if !m.Other? && m.id == id {
      n := |log| - 1;
    } else {
      assert Projection(log, id) == Projection(before, id);
      n := LastOwnMessage(before, id);
      assert before[..n] == log[..n];
    }
  }

  // ---------------------------------------------------------------------------
  // The session around the receiver
  // ---------------------------------------------------------------------------

  /** The receiver after a read loop has handled `log`; `None` once the loop has been left by an error. */
  ghost function Serve(env: Environment, r: Receiver, log: seq<Message>): Option<Receiver>
    decreases |log|
  {
    if log == [] then Some(r)
    else
      var s := Serve(env, r, log[..|log| - 1]);
      if s.None? then None
      else
        var (t, reply) := Handle(env, s.value, log[|log| - 1]);
        if reply == Raised then None else Some(t)
  }

  /** The message completes a transfer that was offered as empty and had no chunks. */
  predicate CompletesEmpty(m: Message, p: Progress) {
    m.Complete? && p.UnderWay? && p.size == 0 && p.pieces == []
  }

  /** An offer whose id makes no path, or a later message of a transfer whose files cannot be touched. */
  predicate NamesNoFile(m: Message, p: Progress) {
    if m.Offer? then HasSlash(m.id) else !m.Other? && p.UnderWay? && HasNul(m.id)
  }

  /** Message `n` makes its handler raise. */
  predicate Breaks(log: seq<Message>, n: nat)
    requires n < |log|
  {
    CompletesEmpty(log[n], ProgressOf(log[..n], log[n])) || NamesNoFile(log[n], ProgressOf(log[..n], log[n]))
  }

  ghost predicate NoneBreaks(log: seq<Message>) {
    forall n :: 0 <= n < |log| ==> !Breaks(log, n)
  }

  lemma RaisesExactly(env: Environment, files: Directory, log: seq<Message>, m: Message)
    requires ClearRun(env, Receiver(files, map[]), log)
    ensures var p := ProgressOf(log, m);
      Handle(env, HandleAll(env, Receiver(files, map[]), log), m).1 == Raised <==> CompletesEmpty(m, p) || NamesNoFile(m, p)
  {
    ReceiverAnswersExactly(env, files, log, m);
    assert Concat([]) == [];
  }

  /** The handler raises exactly on the completion of an empty transfer and on ids that name no file. */
  lemma LastRaises(env: Environment, files: Directory, log: seq<Message>)
    requires ClearRun(env, Receiver(files, map[]), log) && log != []
    ensures var k := |log| - 1;
      Handle(env, HandleAll(env, Receiver(files, map[]), log[..k]), log[k]).1 == Raised <==> Breaks(log, k)
  {
    var k := |log| - 1;
    ClearPrefix(env, Receiver(files, map[]), log, k);
    RaisesExactly(env, files, log[..k], log[k]);
  }

  lemma NoneBreaksBefore(log: seq<Message>, k: nat)
    requires |log| == k + 1
    ensures NoneBreaks(log) <==> NoneBreaks(log[..k]) && !Breaks(log, k)
  {
    forall n | 0 <= n < k ensures Breaks(log, n) == Breaks(log[..k], n) {
      assert log[..k][..n] == log[..n];
    }
  }

  /** Exactly when file traffic leaves the session running: when no empty transfer is completed and no id breaks a path. */
  lemma {:induction false} SessionSurvivesExactly(env: Environment, files: Directory, log: seq<Message>)
    requires ClearRun(env, Receiver(files, map[]), log)
    ensures var s := Serve(env, Receiver(files, map[]), log);
      && (s.Some? <==> NoneBreaks(log))
      && (s.Some? ==> s.value == HandleAll(env, Receiver(files, map[]), log))
    decreases |log|
  {
    if log != [] {
      var k := |log| - 1;
      SessionSurvivesExactly(env, files, log[..k]);
      LastRaises(env, files, log);
      NoneBreaksBefore(log, k);
    }
  }

  /** So an offer whose id has a slash ends the session at once, though no empty transfer is completed. */
  lemma SlashEndsSession(env: Environment, files: Directory, id: TransferId, name: FileName, size: nat)
    requires HasSlash(id)
    ensures Serve(env, Receiver(files, map[]), [Offer(id, name, size)]) == None
  {
    var log := [Offer(id, name, size)];
    assert log[..0] == [];
    assert Serve(env, Receiver(files, map[]), []) == Some(Receiver(files, map[]));
  }

  /** One whose id has a null character is accepted, and its first chunk ends the session. */
  lemma NulEndsSession(env: Environment, files: Directory, id: TransferId, name: FileName, size: nat, data: bytes)
    requires HasNul(id) && !HasSlash(id)
    ensures Serve(env, Receiver(files, map[]), [Offer(id, name, size)]).Some?
    ensures Serve(env, Receiver(files, map[]), [Offer(id, name, size), Chunk(id, 0, data)]) == None
  {
    var start, m := Receiver(files, map[]), Offer(id, name, size);
    var log := [m, Chunk(id, 0, data)];
    assert [m][..0] == [] && log[..1] == [m];
    assert Serve(env, start, []) == Some(start);
    var path := FreeName(files.Keys, env.safeName(name));
    FreeNameIsClean(files.Keys, env.safeName(name));
    TempNameHasNul(path, id);
    assert Serve(env, start, [m]) == Some(Handle(env, start, m).0);
  }

  // ---------------------------------------------------------------------------
  // End to end
  // ---------------------------------------------------------------------------

  /** No message of another transfer makes its handler raise. */
  ghost predicate OthersKeepGoing(log: seq<Message>, id: TransferId) {
    forall m :: 0 <= m < |log| && !log[m].Other? && log[m].id != id ==> !Breaks(log, m)
  }

  /** Up to its completion nothing in the traffic raises. */
  lemma NothingBreaksBefore(log: seq<Message>, id: TransferId, name: FileName, size: nat, pieces: seq<bytes>, n: nat)
    requires n <= |log| && OthersKeepGoing(log, id) && MakesPath(id)
    requires Projection(log[..n], id) == [Offer(id, name, size)] + ChunksOf(id, pieces)
    ensures NoneBreaks(log[..n])
  {
    forall m | 0 <= m < n ensures !Breaks(log[..n], m) {
      assert log[..n][..m] == log[..m];
      if !log[m].Other? && log[m].id == id { OwnCompletionIsLast(log[..n], id, name, size, pieces, m); }
      else { assert Breaks(log, m) == Breaks(log[..n], m); }
    }
  }

  /**
    A file sent in any pieces, its messages interleaved with any other traffic and other
    transfers: exactly when it is not empty its completion is answered with success, and
    then the saved file is the file that was sent.  An empty file ends the session.
   */
  lemma {:induction false} FileArrivesExactly(env: Environment, files: Directory, log: seq<Message>, id: TransferId,
                           name: FileName, content: bytes, pieces: seq<bytes>, chunkSize: nat)
    returns (n: nat)
    requires ClearRun(env, Receiver(files, map[]), log)
    requires IsSplit(content, chunkSize, pieces) && MakesPath(id)
    requires Projection(log, id) == TransferOf(id, name, |content|, env.sha(content), pieces)
    requires OthersKeepGoing(log, id)
    ensures n < |log| && log[n] == Complete(id, env.sha(content))
    ensures var before := Serve(env, Receiver(files, map[]), log[..n]);
      && before.Some?
      && var (after, reply) := Handle(env, before.value, log[n]);
      && (reply.Saved? <==> content != [])
      && (content != [] ==> reply.path in after.files && after.files[reply.path] == content)
      && (content == [] ==> reply == Raised)
  {
    n := LastOwnMessage(log, id);
    var own := Projection(log[..n], id);
    var all := TransferOf(id, name, |content|, env.sha(content), pieces);
    assert own + [log[n]] == all;
    assert own == all[..|all| - 1];
    assert own == [Offer(id, name, |content|)] + ChunksOf(id, pieces);
    TrackDependsOnOwnMessages(log[..n], id);
    TrackOfChunks(id, name, |content|, pieces);
    ClearPrefix(env, Receiver(files, map[]), log, n);
    assert log[n] == all[|all| - 1];
    SessionSurvivesExactly(env, files, log[..n]);
    NothingBreaksBefore(log, id, name, |content|, pieces, n);
    ReceiverAnswersExactly(env, files, log[..n], log[n]);
    if pieces == [] { assert Concat(pieces) == []; } else { ConcatNotEmpty(pieces); }
  }

  lemma ConcatNotEmpty(pieces: seq<bytes>)
    requires pieces != [] && forall i :: 0 <= i < |pieces| ==> 0 < |pieces[i]|
    ensures Concat(pieces) != []
  {
    assert |pieces[|pieces| - 1]| > 0;
  }

  lemma {:induction false} OwnMessagesAppear(log: seq<Message>, id: TransferId, m: nat)
    requires m < |log| && !log[m].Other? && log[m].id == id
    ensures log[m] in Projection(log, id)
    decreases |log|
  {
    if m < |log| - 1 { OwnMessagesAppear(log[..|log| - 1], id, m); }
  }

  lemma {:induction false} ChunksAreChunks(id: TransferId, pieces: seq<bytes>)
    ensures forall i :: 0 <= i < |pieces| ==> ChunksOf(id, pieces)[i].Chunk?
    decreases |pieces|
  {
    if pieces != [] { ChunksAreChunks(id, pieces[..|pieces| - 1]); }
  }

  /** Before its last message a transfer has no completion. */
  lemma OwnCompletionIsLast(log: seq<Message>, id: TransferId, name: FileName, size: nat, pieces: seq<bytes>, m: nat)
    requires Projection(log, id) == [Offer(id, name, size)] + ChunksOf(id, pieces)
    requires m < |log| && !log[m].Other? && log[m].id == id
    ensures !log[m].Complete?
  {
    OwnMessagesAppear(log, id, m);
    ChunksAreChunks(id, pieces);
    var own := [Offer(id, name, size)] + ChunksOf(id, pieces);
    var i :| 0 <= i < |own| && own[i] == log[m];
    if i > 0 { assert own[i] == ChunksOf(id, pieces)[i - 1]; }
  }

  function Received(items: seq<(nat, Envelope)>): seq<Message> {
    seq(|items|, i requires 0 <= i < |items| => items[i].1.message)
  }

  /** While the loop is running every message has been handled and none has raised. */
  lemma {:induction false} ServedMeansHandled(env: Environment, r: Receiver, log: seq<Message>)
    requires Serve(env, r, log).Some?
    ensures Serve(env, r, log).value == HandleAll(env, r, log)
    ensures forall i :: 0 <= i < |log| ==> ReplyTo(env, r, log, i) != Raised
    decreases |log|
  {
    if log != [] {
      var k := |log| - 1;
      ServedMeansHandled(env, r, log[..k]);
      forall i | 0 <= i < k ensures ReplyTo(env, r, log, i) != Raised {
        assert log[..k][..i] == log[..i];
        assert ReplyTo(env, r, log[..k], i) != Raised;
      }
    }
  }

  /** The answer to message `i` after the ones before it. */
  ghost function ReplyTo(env: Environment, r: Receiver, log: seq<Message>, i: nat): Reply
    requires i < |log|
  {
    Handle(env, HandleAll(env, r, log[..i]), log[i]).1
  }

  /** The answers to the messages up to the first that raises. */
  ghost predicate Answers(env: Environment, r: Receiver, log: seq<Message>, replies: seq<Reply>) {
    && |replies| <= |log|
    && (forall i :: 0 <= i < |replies| ==> replies[i] == ReplyTo(env, r, log, i))
    && (forall i :: 0 <= i < |replies| - 1 ==> replies[i] != Raised)
    && (|replies| < |log| ==> replies != [] && replies[|replies| - 1] == Raised)
  }

  /** A file's messages read back from the sealed frames in the order of arrival. */
  lemma SealedMessagesArrive(p: Primitives, key: Key, maxFrame: nat, sent: seq<Envelope>)
    requires Lawful(p) && maxFrame < Pow256(4) && |sent| <= COUNTERS && AllFit(p, sent, maxFrame)
    ensures Received(ReadAll(p, key, maxFrame, Transcript(p, key, sent), {}).0) == MessagesOf(sent)
  {
    RoundTripExactly(p, key, maxFrame, sent);
  }

  /**
    The same on the bytes of the encrypted channel: the envelopes of the sender, sealed one
    after another, read back, and handled in the order of arrival.
   */
  lemma {:induction false} FileArrivesOverTheChannel(p: Primitives, key: Key, maxFrame: nat, sent: seq<Envelope>,
                                  env: Environment, files: Directory, id: TransferId,
                                  name: FileName, content: bytes, pieces: seq<bytes>, chunkSize: nat)
    returns (n: nat)
    requires Lawful(p) && maxFrame < Pow256(4) && |sent| <= COUNTERS && AllFit(p, sent, maxFrame)
    requires ClearRun(env, Receiver(files, map[]), MessagesOf(sent)) && content != []
    requires IsSplit(content, chunkSize, pieces)
    requires Projection(MessagesOf(sent), id) == TransferOf(id, name, |content|, env.sha(content), pieces)
    requires MakesPath(id) && OthersKeepGoing(MessagesOf(sent), id)
    ensures var log := Received(ReadAll(p, key, maxFrame, Transcript(p, key, sent), {}).0);
      && n < |log|
      && var before := Serve(env, Receiver(files, map[]), log[..n]);
      && before.Some?
      && var (after, reply) := Handle(env, before.value, log[n]);
      && reply.Saved? && reply.path in after.files && after.files[reply.path] == content
  {
    SealedMessagesArrive(p, key, maxFrame, sent);
    n := FileArrivesExactly(env, files, MessagesOf(sent), id, name, content, pieces, chunkSize);
  }

  /** One message, dispatched to its handler. */
  method Dispatch(receiver: FileReceiver, m: Message) returns (reply: Reply)
    requires receiver.Valid()
    modifies receiver
    ensures receiver.Valid()
    ensures receiver.log == if m.Other? then old(receiver.log) else old(receiver.log) + [m]
    ensures (receiver.View(), reply) == Handle(receiver.env, old(receiver.View()), m)
  {
    match m
    case Offer(id, name, size) => reply := receiver.HandleOffer(id, name, size);
    case Chunk(id, offset, data) => reply := receiver.HandleChunk(id, offset, data);
    case Complete(id, sha) => reply := receiver.HandleComplete(id, sha);
    case Other(_, _) => reply := Quiet;
  }

  /**
    The read loop of a session as far as files go: frames are read however the stream
    splits them, and each message is handled, until the stream ends or a handler raises.
   */
  method ServeFiles(channel: EncryptedEnvelopeChannel, receiver: FileReceiver) returns (replies: seq<Reply>, ghost log: seq<Message>)
    requires receiver.Valid()
    modifies channel.input, channel.guard, receiver
    ensures receiver.Valid()
    ensures log == Received(ReadAll(channel.p, channel.receiveKey, channel.maxFrame,
                                    old(channel.input.rest), old(channel.guard.seen)).0)
    ensures Answers(receiver.env, old(receiver.View()), log, replies)
    ensures receiver.View() == HandleAll(receiver.env, old(receiver.View()), log[..|replies|])
  {
    replies := [];
    ghost var start := receiver.View();
    ghost var handled: seq<Message> := [];
    log := Received(Unread(channel));
    while true
      invariant receiver.Valid() && |replies| == |handled|
      invariant log == handled + Received(Unread(channel))
      invariant receiver.View() == HandleAll(receiver.env, start, handled)
      invariant AllAnswered(receiver.env, start, handled, replies)
      decreases |channel.input.rest|
    {
      ghost var unread := Unread(channel);
      ghost var m;
      var reply;
      reply, m := ServeOne(channel, receiver);
      if reply.None? {
        AllIsRead(receiver.env, start, handled, unread, replies);
        return;
      }
      OneMoreAnswer(receiver.env, start, handled, m, Received(Unread(channel)), replies, reply.value);
      ReceivedFirst(handled, unread, m, Received(Unread(channel)));
      replies, handled := replies + [reply.value], handled + [m];
      if reply.value == Raised { return; }
    }
  }

  /** One turn of the read loop: the next frame, if there is one, is read and its message handled. */
  method ServeOne(channel: EncryptedEnvelopeChannel, receiver: FileReceiver) returns (reply: Option<Reply>, ghost m: Message)
    requires receiver.Valid()
    modifies channel.input, channel.guard, receiver
    ensures receiver.Valid()
    ensures reply.None? ==> old(Unread(channel)) == [] && receiver.View() == old(receiver.View())
    ensures reply.Some? ==>
      && Received(old(Unread(channel))) == [m] + Received(Unread(channel))
      && |channel.input.rest| < |old(channel.input.rest)|
      && (receiver.View(), reply.value) == Handle(receiver.env, old(receiver.View()), m)
  {
    ghost var unread := Unread(channel);
    var r := channel.ReadEnvelope();
    if r.Err? { return None, Other(0, []); }
    m := r.value.1.message;
    assert unread == [r.value] + Unread(channel);
    assert Received(unread) == [m] + Received(Unread(channel));
    var answer := Dispatch(receiver, r.value.1.message);
    return Some(answer), m;
  }

  /** What a reader has still to return. */
  ghost function Unread(channel: EncryptedEnvelopeChannel): seq<(nat, Envelope)>
    reads channel, channel.input, channel.guard
  {
    ReadAll(channel.p, channel.receiveKey, channel.maxFrame, channel.input.rest, channel.guard.seen).0
  }

  lemma ReceivedFirst(handled: seq<Message>, unread: seq<(nat, Envelope)>, m: Message, more: seq<Message>)
    requires Received(unread) == [m] + more
    ensures handled + Received(unread) == handled + [m] + more
  {
  }

  ghost predicate AllAnswered(env: Environment, r: Receiver, handled: seq<Message>, replies: seq<Reply>)
    requires |replies| == |handled|
  {
    forall i :: 0 <= i < |replies| ==> replies[i] == ReplyTo(env, r, handled, i) != Raised
  }

  lemma AllIsRead(env: Environment, r: Receiver, handled: seq<Message>, unread: seq<(nat, Envelope)>, replies: seq<Reply>)
    requires |replies| == |handled| && AllAnswered(env, r, handled, replies) && unread == []
    ensures var log := handled + Received(unread);
      Answers(env, r, log, replies) && log[..|replies|] == handled
  {
    assert handled + Received(unread) == handled;
    assert handled[..|replies|] == handled;
  }

  /** What comes later does not change an answer. */
  lemma ReplyKept(env: Environment, r: Receiver, log: seq<Message>, more: seq<Message>, i: nat)
    requires i < |log|
    ensures ReplyTo(env, r, log + more, i) == ReplyTo(env, r, log, i)
  {
    assert (log + more)[..i] == log[..i];
  }

  lemma LastReply(env: Environment, r: Receiver, log: seq<Message>, m: Message)
    ensures ReplyTo(env, r, log + [m], |log|) == Handle(env, HandleAll(env, r, log), m).1
  {
    assert (log + [m])[..|log|] == log;
  }

  /** The answers to `log`, of which only the last may have raised. */
  ghost predicate AnsweredTo(env: Environment, r: Receiver, log: seq<Message>, replies: seq<Reply>)
    requires |replies| == |log|
  {
    && (forall i :: 0 <= i < |replies| ==> replies[i] == ReplyTo(env, r, log, i))
    && (forall i :: 0 <= i < |replies| - 1 ==> replies[i] != Raised)
  }

  lemma PushAnswer(env: Environment, r: Receiver, handled: seq<Message>, m: Message, replies: seq<Reply>)
    requires |replies| == |handled| && AllAnswered(env, r, handled, replies)
    ensures AnsweredTo(env, r, handled + [m], replies + [Handle(env, HandleAll(env, r, handled), m).1])
  {
    var all := replies + [Handle(env, HandleAll(env, r, handled), m).1];
    LastReply(env, r, handled, m);
    forall i | 0 <= i < |all| ensures all[i] == ReplyTo(env, r, handled + [m], i) {
      if i < |handled| { ReplyKept(env, r, handled, [m], i); }
    }
  }

  lemma RaisedEnds(env: Environment, r: Receiver, handled: seq<Message>, more: seq<Message>, replies: seq<Reply>)
    requires |replies| == |handled| > 0 && AnsweredTo(env, r, handled, replies) && replies[|replies| - 1] == Raised
    ensures Answers(env, r, handled + more, replies)
  {
    forall i | 0 <= i < |replies| ensures replies[i] == ReplyTo(env, r, handled + more, i) {
      ReplyKept(env, r, handled, more, i);
    }
  }

  lemma OneMoreAnswer(env: Environment, r: Receiver, handled: seq<Message>, m: Message, more: seq<Message>,
                      replies: seq<Reply>, reply: Reply)
    requires |replies| == |handled| && AllAnswered(env, r, handled, replies)
    requires reply == Handle(env, HandleAll(env, r, handled), m).1
    ensures HandleAll(env, r, handled + [m]) == Handle(env, HandleAll(env, r, handled), m).0
    ensures reply != Raised ==> AllAnswered(env, r, handled + [m], replies + [reply])
    ensures var log := handled + [m] + more;
      log[..|replies| + 1] == handled + [m] && (reply == Raised ==> Answers(env, r, log, replies + [reply]))
  {
    HandleOneMore(env, r, handled, m);
    PushAnswer(env, r, handled, m, replies);
    if reply == Raised { RaisedEnds(env, r, handled + [m], more, replies + [reply]); }
  }

  /** The stream holds the sealed envelopes of `sent`, and no two of their transfers clash. */
  ghost predicate Ready(channel: EncryptedEnvelopeChannel, receiver: FileReceiver, sent: seq<Envelope>)
    reads channel, channel.input, channel.guard, receiver
  {
    && Lawful(channel.p) && channel.maxFrame < Pow256(4)
    && |sent| <= COUNTERS && AllFit(channel.p, sent, channel.maxFrame)
    && channel.guard.seen == {} && channel.input.rest == Transcript(channel.p, channel.receiveKey, sent)
    && receiver.Valid() && receiver.active == map[]
    && ClearRun(receiver.env, receiver.View(), MessagesOf(sent))
  }

  /**
    End to end, over a stream that splits the frames anywhere: among the traffic of a
    session a file that is not empty is answered with success and saved with its own bytes.
   */
  method FileArrivesOverTheStream(channel: EncryptedEnvelopeChannel, receiver: FileReceiver, ghost sent: seq<Envelope>,
                                  ghost id: TransferId, ghost name: FileName, ghost content: bytes,
                                  ghost pieces: seq<bytes>, ghost chunkSize: nat)
    returns (replies: seq<Reply>, ghost n: nat)
    requires Ready(channel, receiver, sent) && content != []
    requires IsSplit(content, chunkSize, pieces)
    requires Projection(MessagesOf(sent), id)
          == TransferOf(id, name, |content|, receiver.env.sha(content), pieces)
    requires MakesPath(id) && OthersKeepGoing(MessagesOf(sent), id)
    modifies channel.input, channel.guard, receiver
    ensures n < |replies| && n < |sent| && sent[n].message == Complete(id, receiver.env.sha(content))
    ensures replies[n].Saved?
    ensures var s := HandleAll(receiver.env, old(receiver.View()), MessagesOf(sent)[..n + 1]);
      replies[n].path in s.files && s.files[replies[n].path] == content
  {
    ghost var files := receiver.files;
    SealedMessagesArrive(channel.p, channel.receiveKey, channel.maxFrame, sent);
    ghost var read;
    replies, read := ServeFiles(channel, receiver);
    n := ArrivalIsAnswered(receiver.env, files, MessagesOf(sent), id, name, content, pieces, chunkSize, replies);
  }

  /** Whoever answers the traffic as far as it can answers the file's completion with success. */
  lemma ArrivalIsAnswered(env: Environment, files: Directory, log: seq<Message>, id: TransferId, name: FileName,
                          content: bytes, pieces: seq<bytes>, chunkSize: nat, replies: seq<Reply>)
    returns (n: nat)
    requires ClearRun(env, Receiver(files, map[]), log) && content != []
    requires IsSplit(content, chunkSize, pieces) && MakesPath(id)
    requires Projection(log, id) == TransferOf(id, name, |content|, env.sha(content), pieces)
    requires OthersKeepGoing(log, id)
    requires Answers(env, Receiver(files, map[]), log, replies)
    ensures n < |replies| && log[n] == Complete(id, env.sha(content)) && replies[n].Saved?
    ensures var s := HandleAll(env, Receiver(files, map[]), log[..n + 1]);
      replies[n].path in s.files && s.files[replies[n].path] == content
  {
    var start := Receiver(files, map[]);
    n := FileArrivesExactly(env, files, log, id, name, content, pieces, chunkSize);
    ServedMeansHandled(env, start, log[..n]);
    AnswersReach(env, start, log, replies, n);
    StepAt(env, start, log, n);
  }

  lemma StepAt(env: Environment, r: Receiver, log: seq<Message>, n: nat)
    requires n < |log|
    ensures (HandleAll(env, r, log[..n + 1]), ReplyTo(env, r, log, n)) == Handle(env, HandleAll(env, r, log[..n]), log[n])
  {
    assert log[..n + 1] == log[..n] + [log[n]];
    HandleOneMore(env, r, log[..n], log[n]);
  }

  lemma AnswersReach(env: Environment, r: Receiver, log: seq<Message>, replies: seq<Reply>, n: nat)
    requires Answers(env, r, log, replies) && n < |log|
    requires forall i :: 0 <= i < n ==> ReplyTo(env, r, log[..n], i) != Raised
    ensures n < |replies|
  {
    forall i | 0 <= i < n ensures ReplyTo(env, r, log, i) != Raised {
      assert log[..n][..i] == log[..i];
      assert ReplyTo(env, r, log[..n], i) != Raised;
    }
  }
}
