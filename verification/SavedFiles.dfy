/**
  What becomes of received files after they are saved: which later messages can replace or
  delete them.
*/
module SavedFiles {
  import opened Bytes
  import opened Messages
  import opened FileNames
  import opened FileReceiving

  /** No open transfer uses `name` as its temporary file. */
  ghost predicate Spares(r: Receiver, name: FileName) {
    forall id <- r.active :: r.active[id].tempName != name
  }

  /** `log` leaves no clash and no temporary file called `name`. */
  ghost predicate SparingRun(env: Environment, r: Receiver, log: seq<Message>, name: FileName)
    decreases |log|
  {
    && Clear(HandleAll(env, r, log)) && Spares(HandleAll(env, r, log), name)
    && (log != [] ==> SparingRun(env, r, log[..|log| - 1], name))
  }

  /** Open transfers have temporary files that end like one. */
  ghost predicate TempsAreTemporary(r: Receiver) {
    forall id <- r.active :: IsTemporary(r.active[id].tempName)
  }

  lemma {:induction false} TempsStayTemporary(env: Environment, r: Receiver, log: seq<Message>)
    requires TempsAreTemporary(r)
    ensures TempsAreTemporary(HandleAll(env, r, log))
    decreases |log|
  {
    if log != [] {
      var before, m := log[..|log| - 1], log[|log| - 1];
      TempsStayTemporary(env, r, before);
      if m.Offer? { TempNameIsTemporary(FreeName(HandleAll(env, r, before).files.Keys, env.safeName(m.name)), m.id); }
    }
  }

  /** A name that does not end like a temporary file is spared by every run without clashes. */
  lemma {:induction false} FinalNamesAreSpared(env: Environment, r: Receiver, log: seq<Message>, name: FileName)
    requires TempsAreTemporary(r) && ClearRun(env, r, log) && !IsTemporary(name)
    ensures SparingRun(env, r, log, name)
    decreases |log|
  {
    TempsStayTemporary(env, r, log);
    if log != [] { FinalNamesAreSpared(env, r, log[..|log| - 1], name); }
  }

  /** Transfer `id` can still be saved with bytes other than `content`. */
  predicate CanSaveOther(r: Receiver, id: TransferId, content: bytes)
    requires id in r.active
  {
    var a := r.active[id];
    !HasNul(a.tempName) && a.received <= a.size && (a.received == a.size ==> Holding(r, id) != content)
  }

  /** No open transfer that has reserved `name` can still be saved there with other bytes. */
  ghost predicate Untouchable(r: Receiver, name: FileName) {
    && name in r.files
    && forall id <- r.active :: r.active[id].finalName == name ==> !CanSaveOther(r, id, r.files[name])
  }

  /** The message makes `id` a new transfer. */
  predicate Reopens(m: Message, id: TransferId) {
    m.Offer? && m.id == id && !HasSlash(id)
  }

  lemma StepKeepsBytes(env: Environment, r: Receiver, m: Message, name: FileName)
    requires Untouchable(r, name) && Spares(r, name) && Spares(Handle(env, r, m).0, name)
    ensures var s := Handle(env, r, m).0; name in s.files && s.files[name] == r.files[name]
  {
    var s := Handle(env, r, m).0;
    if m.Offer? && !HasSlash(m.id) { assert s.active[m.id].tempName != name; }
  }

  lemma StepKeepsUntouchable(env: Environment, r: Receiver, m: Message, name: FileName)
    requires Untouchable(r, name) && Clear(r) && Spares(r, name)
    requires Clear(Handle(env, r, m).0) && Spares(Handle(env, r, m).0, name)
    ensures var s := Handle(env, r, m).0; Untouchable(s, name) && s.files[name] == r.files[name]
  {
    var s := Handle(env, r, m).0;
    StepKeepsBytes(env, r, m, name);
    forall id | id in s.active && s.active[id].finalName == name && !HasNul(s.active[id].tempName)
      ensures !CanSaveOther(s, id, r.files[name])
    {
      if !Reopens(m, id) { HoldingKept(env, r, m, id); }
    }
  }

  /** What one message does to the holding of a transfer that stays open. */
  lemma HoldingKept(env: Environment, r: Receiver, m: Message, id: TransferId)
    requires Clear(r) && Clear(Handle(env, r, m).0)
    requires id in r.active && id in Handle(env, r, m).0.active
    requires !Reopens(m, id) && !HasNul(r.active[id].tempName)
    ensures var s := Handle(env, r, m).0;
      if m.Chunk? && m.id == id then
        s.active[id] == r.active[id].(received := r.active[id].received + |m.data|)
        && Holding(s, id) == Holding(r, id) + m.data
      else s.active[id] == r.active[id] && Holding(s, id) == Holding(r, id)
  {
    var s := Handle(env, r, m).0;
    if m.Other? || m.id == id {
    } else if m.Offer? {
      if !HasSlash(m.id) { assert !Clash(s.active[id], s.active[m.id]); }
    } else if m.id in r.active {
      assert !Clash(r.active[id], r.active[m.id]);
      OtherFilesKept(env, r, m, r.active[id].tempName);
    }
  }

  /** Whatever else happens, an untouchable file keeps its bytes. */
  lemma {:induction false} UntouchableStays(env: Environment, r: Receiver, log: seq<Message>, name: FileName)
    requires Untouchable(r, name) && SparingRun(env, r, log, name)
    ensures var s := HandleAll(env, r, log); Untouchable(s, name) && s.files[name] == r.files[name]
    decreases |log|
  {
    if log != [] {
      var before := log[..|log| - 1];
      UntouchableStays(env, r, before, name);
      assert SparingRun(env, r, before, name);
      var s := HandleAll(env, r, before);
      assert Clear(s) && Spares(s, name) by { if before == [] { } }
      StepKeepsUntouchable(env, s, log[|log| - 1], name);
    }
  }

  /** A way to save other bytes over the file of a transfer that can. */
  lemma SaveOther(env: Environment, r: Receiver, name: FileName, id: TransferId) returns (more: seq<Message>)
    requires Clear(r) && Spares(r, name) && name in r.files
    requires id in r.active && r.active[id].finalName == name && CanSaveOther(r, id, r.files[name])
    ensures SparingRun(env, r, more, name)
    ensures var s := HandleAll(env, r, more); name in s.files && s.files[name] != r.files[name]
  {
    var a, was := r.active[id], r.files[name];
    var data: bytes := seq(a.size - a.received, _ => 0);
    if Holding(r, id) + data == was && data != [] {
      assert was[|was| - 1] == data[|data| - 1] == 0;
      data := data[..|data| - 1] + [1];
    }
    assert Holding(r, id) + [] == Holding(r, id);
    assert Holding(r, id) + data != was by {
      if data != [] && (Holding(r, id) + data)[|Holding(r, id) + data| - 1] == 1 { }
    }
    more := Rest(env, r, id, data);
    RestSaves(env, r, id, data);
    NoOffersStayClear(env, r, more);
    NoOffersSpare(env, r, more, name);
  }

  lemma {:induction false} NoOffersSpare(env: Environment, r: Receiver, more: seq<Message>, name: FileName)
    requires Clear(r) && Spares(r, name) && NoOffers(more)
    ensures SparingRun(env, r, more, name)
    decreases |more|
  {
    if more != [] {
      NoOffersSpare(env, r, more[..|more| - 1], name);
      StepStaysClear(env, HandleAll(env, r, more[..|more| - 1]), more[|more| - 1]);
    }
  }

  /**
    Exactly when a file keeps its bytes in every run without clashes and without a
    temporary file of its name: when no open transfer that has reserved the name can still
    be saved with other bytes.
   */
  lemma SavedFileStaysExactly(env: Environment, r: Receiver, name: FileName)
    requires Clear(r) && Spares(r, name) && name in r.files
    ensures (forall more :: SparingRun(env, r, more, name) ==>
               var s := HandleAll(env, r, more); name in s.files && s.files[name] == r.files[name])
       <==> Untouchable(r, name)
  {
    if Untouchable(r, name) {
      forall more | SparingRun(env, r, more, name)
        ensures var s := HandleAll(env, r, more); name in s.files && s.files[name] == r.files[name]
      {
        UntouchableStays(env, r, more, name);
      }
    } else {
      var id :| id in r.active && r.active[id].finalName == name && CanSaveOther(r, id, r.files[name]);
      var more := SaveOther(env, r, name, id);
    }
  }

  /** `name` is an existing file that no transfer under way will write. */
  ghost predicate Settled(r: Receiver, name: FileName, content: bytes) {
    && name in r.files && r.files[name] == content && !IsTemporary(name)
    && forall id <- r.active :: r.active[id].finalName != name && IsTemporary(r.active[id].tempName)
  }

  /** A saved file that no other transfer has reserved is never touched again, clashes or not. */
  lemma {:induction false} SavedFileStays(env: Environment, r: Receiver, log: seq<Message>, name: FileName, content: bytes)
    requires Settled(r, name, content)
    ensures Settled(HandleAll(env, r, log), name, content)
    decreases |log|
  {
    if log != [] {
      var before, m := log[..|log| - 1], log[|log| - 1];
      SavedFileStays(env, r, before, name, content);
      var s := HandleAll(env, r, before);
      if m.Offer? { TempNameIsTemporary(FreeName(s.files.Keys, env.safeName(m.name)), m.id); }
    }
  }

  // ---------------------------------------------------------------------------
  // Offers of one name
  // ---------------------------------------------------------------------------

  /** No file but a temporary one is ever missing again. */
  ghost predicate FinalsKept(before: set<FileName>, after: set<FileName>) {
    forall n <- before :: !IsTemporary(n) ==> n in after
  }

  lemma EarlierStaysTaken(before: set<FileName>, after: set<FileName>, name: FileName, unique: FileName)
    requires EarlierTaken(before, name, unique) && FinalsKept(before, after) && !IsTemporary(name)
    ensures EarlierTaken(after, name, unique)
  {
    if unique != name {
      var i :| 1 <= i && unique == Candidate(name, i) && Candidates(name, i) <= before;
      forall k | 1 <= k < i ensures Candidate(name, k) in after {
        assert Candidate(name, k) in Candidates(name, i);
        CandidateStaysFinal(name, k);
      }
      assert Candidates(name, i) <= after;
    }
  }

  /** An open transfer has reserved a name whose predecessors are still taken. */
  ghost predicate ReservedBy(env: Environment, existing: set<FileName>, a: Active) {
    !IsTemporary(env.safeName(a.name)) ==> EarlierTaken(existing, env.safeName(a.name), a.finalName)
  }

  ghost predicate Reserved(env: Environment, r: Receiver) {
    forall id <- r.active :: ReservedBy(env, r.files.Keys, r.active[id])
  }

  lemma StaysReserved(env: Environment, before: set<FileName>, after: set<FileName>, a: Active, b: Active)
    requires ReservedBy(env, before, a) && FinalsKept(before, after) && b.name == a.name && b.finalName == a.finalName
    ensures ReservedBy(env, after, b)
  {
    if !IsTemporary(env.safeName(a.name)) { EarlierStaysTaken(before, after, env.safeName(a.name), a.finalName); }
  }

  /** A transfer that stays open keeps its names. */
  lemma NamesKept(env: Environment, r: Receiver, m: Message, id: TransferId)
    requires id in Handle(env, r, m).0.active && !Reopens(m, id)
    ensures id in r.active
    ensures var b := Handle(env, r, m).0.active[id];
      b.name == r.active[id].name && b.finalName == r.active[id].finalName
  {
  }

  lemma StepKeepsFinals(env: Environment, r: Receiver, m: Message)
    requires TempsAreTemporary(r)
    ensures FinalsKept(r.files.Keys, Handle(env, r, m).0.files.Keys)
  {
    if m.Offer? { TempNameIsTemporary(FreeName(r.files.Keys, env.safeName(m.name)), m.id); }
  }

  lemma OfferReserves(env: Environment, r: Receiver, m: Message)
    requires m.Offer? && !HasSlash(m.id) && TempsAreTemporary(r)
    ensures var s := Handle(env, r, m).0; m.id in s.active && ReservedBy(env, s.files.Keys, s.active[m.id])
  {
    var name, s := env.safeName(m.name), Handle(env, r, m).0;
    FreeNameIsUnique(r.files.Keys, name);
    StepKeepsFinals(env, r, m);
    if !IsTemporary(name) { EarlierStaysTaken(r.files.Keys, s.files.Keys, name, s.active[m.id].finalName); }
  }

  lemma StepKeepsReserved(env: Environment, r: Receiver, m: Message)
    requires Reserved(env, r) && TempsAreTemporary(r)
    ensures Reserved(env, Handle(env, r, m).0)
  {
    var s := Handle(env, r, m).0;
    StepKeepsFinals(env, r, m);
    forall id | id in s.active ensures ReservedBy(env, s.files.Keys, s.active[id]) {
      if Reopens(m, id) {
        OfferReserves(env, r, m);
      } else {
        NamesKept(env, r, m, id);
        StaysReserved(env, r.files.Keys, s.files.Keys, r.active[id], s.active[id]);
      }
    }
  }

  lemma {:induction false} RunKeepsReserved(env: Environment, files: Directory, log: seq<Message>)
    ensures Reserved(env, HandleAll(env, Receiver(files, map[]), log))
    decreases |log|
  {
    if log != [] {
      var before := log[..|log| - 1];
      RunKeepsReserved(env, files, before);
      TempsStayTemporary(env, Receiver(files, map[]), before);
      StepKeepsReserved(env, HandleAll(env, Receiver(files, map[]), before), log[|log| - 1]);
    }
  }

  /**
    While a transfer is open, whatever was received: exactly when another offer of its name
    reserves the same file: when its id makes a path and nothing has been saved there yet.
   */
  lemma SameNameOffersShareExactly(env: Environment, files: Directory, log: seq<Message>,
                                   i: TransferId, j: TransferId, name: FileName, size: nat)
    requires i in HandleAll(env, Receiver(files, map[]), log).active
    requires env.safeName(name) == env.safeName(HandleAll(env, Receiver(files, map[]), log).active[i].name)
    requires !IsTemporary(env.safeName(name))
    ensures var r := HandleAll(env, Receiver(files, map[]), log);
      OnOffer(env, r, j, name, size).1 == Accepted(r.active[i].finalName) <==>
        !HasSlash(j) && r.active[i].finalName !in r.files
  {
    RunKeepsReserved(env, files, log);
    var r := HandleAll(env, Receiver(files, map[]), log);
    assert ReservedBy(env, r.files.Keys, r.active[i]);
    FreeNameExactly(r.files.Keys, env.safeName(name), r.active[i].finalName);
  }

  /** Two whole transfers of one name, open together, with their chunks in between. */
  function TwoTransfers(env: Environment, name: FileName, i: TransferId, j: TransferId, x: bytes, y: bytes): seq<Message> {
    [Offer(i, name, |x|)] + [Chunk(i, 0, x)] + [Offer(j, name, |y|)] + [Chunk(j, 0, y)]
    + [Complete(i, env.sha(x))] + [Complete(j, env.sha(y))]
  }

  /** Both are reported saved to one file, and the second replaces the first. */
  lemma SecondTransferReplaces(env: Environment, files: Directory, name: FileName,
                               i: TransferId, j: TransferId, x: bytes, y: bytes)
    requires i != j && !IsTemporary(env.safeName(name))
    requires MakesPath(i) && MakesPath(j)
    ensures var start, all := Receiver(files, map[]), TwoTransfers(env, name, i, j, x, y);
      var path := FreeName(files.Keys, env.safeName(name));
      var r, s, t := HandleAll(env, start, all[..4]), HandleAll(env, start, all[..5]), HandleAll(env, start, all);
      && Handle(env, r, all[4]).1 == Saved(path, |x|) && path in s.files && s.files[path] == x
      && Handle(env, s, all[5]).1 == Saved(path, |y|) && path in t.files && t.files[path] == y
  {
    var start, all := Receiver(files, map[]), TwoTransfers(env, name, i, j, x, y);
    var path := FreeName(files.Keys, env.safeName(name));
    FirstFour(env, files, name, i, j, x, y);
    var r := HandleAll(env, start, all[..4]);
    assert all[..5] == all[..4] + [all[4]] && all == all[..5] + [all[5]];
    HandleOneMore(env, start, all[..4], all[4]);
    HandleOneMore(env, start, all[..5], all[5]);
    CompletionSaves(env, r, i, x);
    CompletionSaves(env, Handle(env, r, all[4]).0, j, y);
  }

  /** What an offer and a chunk with the whole content leave. */
  lemma OfferAndChunk(env: Environment, r: Receiver, id: TransferId, name: FileName, x: bytes)
    requires MakesPath(id)
    ensures var s := HandleAll(env, r, [Offer(id, name, |x|)] + [Chunk(id, 0, x)]);
      var path := FreeName(r.files.Keys, env.safeName(name));
      var temp := TempName(path, id);
      && s.active == r.active[id := Active(name, |x|, temp, path, |x|)]
      && s.files == r.files[temp := x]
  {
    var m1, m2 := Offer(id, name, |x|), Chunk(id, 0, x);
    HandleOneMore(env, r, [], m1);
    assert [] + [m1] == [m1] && HandleAll(env, r, []) == r;
    HandleOneMore(env, r, [m1], m2);
    assert [] + x == x;
    var path := FreeName(r.files.Keys, env.safeName(name));
    FreeNameIsClean(r.files.Keys, env.safeName(name));
    TempNameHasNul(path, id);
    assert (r.files - {TempName(path, id)})[TempName(path, id) := x] == r.files[TempName(path, id) := x];
  }

  lemma FirstFour(env: Environment, files: Directory, name: FileName, i: TransferId, j: TransferId, x: bytes, y: bytes)
    requires i != j && !IsTemporary(env.safeName(name))
    requires MakesPath(i) && MakesPath(j)
    ensures var r := HandleAll(env, Receiver(files, map[]), TwoTransfers(env, name, i, j, x, y)[..4]);
      var path := FreeName(files.Keys, env.safeName(name));
      var a, b := TempName(path, i), TempName(path, j);
      && a != b && a != path && b != path
      && r.active == map[i := Active(name, |x|, a, path, |x|), j := Active(name, |y|, b, path, |y|)]
      && r.files == files[a := x][b := y]
  {
    var start := Receiver(files, map[]);
    var path := FreeName(files.Keys, env.safeName(name));
    var first, second := [Offer(i, name, |x|)] + [Chunk(i, 0, x)], [Offer(j, name, |y|)] + [Chunk(j, 0, y)];
    assert TwoTransfers(env, name, i, j, x, y)[..4] == first + second;
    HandleInTwoParts(env, start, first, second);
    OfferAndChunk(env, start, i, name, x);
    var r := HandleAll(env, start, first);
    OfferAndChunk(env, r, j, name, y);
    SameTempSameId(path, i, j);
    FreeNameStaysFinal(files.Keys, env.safeName(name));
    SameNameOffersShareExactly(env, files, first, i, j, name, |y|);
  }

  lemma SameTempSameId(path: FileName, i: TransferId, j: TransferId)
    requires i != j
    ensures TempName(path, i) != TempName(path, j)
    ensures TempName(path, i) != path && TempName(path, j) != path
    ensures IsTemporary(TempName(path, i)) && IsTemporary(TempName(path, j))
  {
    var a, b := TempName(path, i), TempName(path, j);
    assert a[|path| + 1..|a| - |PART|] == i;
    assert b[|path| + 1..|b| - |PART|] == j;
    assert |a| > |path| && |b| > |path|;
  }

  // ---------------------------------------------------------------------------
  // Names that collide
  // ---------------------------------------------------------------------------

  /** An offer whose temporary file has the name of an existing file deletes that file. */
  lemma OfferDeletesFile(env: Environment, r: Receiver, id: TransferId, name: FileName, size: nat)
    requires !HasSlash(id)
    ensures TempName(FreeName(r.files.Keys, env.safeName(name)), id) !in OnOffer(env, r, id, name, size).0.files
  {
  }

  /** So a saved file can be lost: `a.1.part` is received, then `a` is offered with the id `1`. */
  lemma SavedFileCanBeDeleted(env: Environment, content: bytes)
    requires env.safeName("a") == "a" && env.safeName("a.1.part") == "a.1.part"
    ensures var r := HandleAll(env, Receiver(map[], map[]),
        [Offer("2", "a.1.part", |content|)] + [Chunk("2", 0, content)] + [Complete("2", env.sha(content))]);
      && r == Receiver(map["a.1.part" := content], map[])
      && "a.1.part" !in OnOffer(env, r, "1", "a", 0).0.files
  {
    ReceivedAlone(env, "2", "a.1.part", content);
    var r := Receiver(map["a.1.part" := content], map[]);
    OfferDeletesFile(env, r, "1", "a", 0);
    assert TempName("a", "1") == "a.1.part";
  }

  lemma ReceivedAlone(env: Environment, id: TransferId, name: FileName, content: bytes)
    requires MakesPath(id) && env.safeName(name) == name
    ensures HandleAll(env, Receiver(map[], map[]),
                      [Offer(id, name, |content|)] + [Chunk(id, 0, content)] + [Complete(id, env.sha(content))])
         == Receiver(map[name := content], map[])
  {
    var start := Receiver(map[], map[]);
    OfferAndChunk(env, start, id, name, content);
    HandleOneMore(env, start, [Offer(id, name, |content|)] + [Chunk(id, 0, content)], Complete(id, env.sha(content)));
  }

  /** And two open transfers can clash: the second is to be saved where the first keeps its chunks. */
  lemma OpenTransfersCanClash(env: Environment, n: nat, size: nat)
    requires env.safeName("a") == "a" && env.safeName("a.1.part") == "a.1.part"
    ensures !Clear(HandleAll(env, Receiver(map[], map[]), [Offer("1", "a", n)] + [Offer("2", "a.1.part", size)]))
  {
    var start := Receiver(map[], map[]);
    var m1, m2 := Offer("1", "a", n), Offer("2", "a.1.part", size);
    HandleOneMore(env, start, [], m1);
    assert [] + [m1] == [m1] && HandleAll(env, start, []) == start;
    HandleOneMore(env, start, [m1], m2);
    var r := HandleAll(env, start, [m1] + [m2]);
    assert TempName("a", "1") == "a.1.part";
    assert r.active["1"].tempName == r.active["2"].finalName;
    assert "1" != "2" && Clash(r.active["1"], r.active["2"]);
  }
}
