/**
  The receiving side of file transfer: a table of transfers under way and a directory of
  files.  A transfer collects its chunks in a temporary file and renames it at the end.
*/
module FileReceiving {
  import opened Bytes
  import opened Messages
  import opened FileNames

  /**
    What exists in the download directory.  Its subdirectories and the entry `..` count as
    names with meaningless content, and no name has a slash or a null character.
   */
  type Directory = map<FileName, bytes>

  // ---------------------------------------------------------------------------
  // The receiver on values
  // ---------------------------------------------------------------------------

  /** The hash in hexadecimal, and the clean-up of an offered file name. */
  datatype Environment = Environment(sha: bytes -> string, safeName: string -> CleanName)

  function LowerChar(c: char): char {
    if 'A' <= c <= 'Z' then 'a' + (c - 'A') else c
  }

  function Lower(s: string): string {
    seq(|s|, i requires 0 <= i < |s| => LowerChar(s[i]))
  }

  predicate IsHexDigit(c: char) {
    '0' <= c <= '9' || 'a' <= c <= 'f' || 'A' <= c <= 'F'
  }

  /** The value of a hexadecimal digit of either case. */
  function HexValue(c: char): (v: nat)
    requires IsHexDigit(c)
    ensures v < 16
  {
    if '0' <= c <= '9' then c as nat - '0' as nat
    else if 'a' <= c <= 'f' then c as nat - 'a' as nat + 10
    else c as nat - 'A' as nat + 10
  }

  predicate IsHex(s: string) {
    forall i :: 0 <= i < |s| ==> IsHexDigit(s[i])
  }

  /** The same hexadecimal digits, up to their case. */
  predicate SameHex(s: string, t: string)
    requires IsHex(s) && IsHex(t)
  {
    |s| == |t| && forall i :: 0 <= i < |s| ==> HexValue(s[i]) == HexValue(t[i])
  }

  lemma LowerHexDigit(c: char, d: char)
    requires IsHexDigit(c) && IsHexDigit(d)
    ensures LowerChar(c) == LowerChar(d) <==> HexValue(c) == HexValue(d)
  {
  }

  /** Lowering hexadecimal strings makes them equal exactly when they have the same digits. */
  lemma LowerComparesHex(s: string, t: string)
    requires IsHex(s) && IsHex(t)
    ensures |Lower(s)| == |s|
    ensures Lower(s) == Lower(t) <==> SameHex(s, t)
  {
    forall i | 0 <= i < |s| && i < |t| ensures Lower(s)[i] == Lower(t)[i] <==> HexValue(s[i]) == HexValue(t[i]) {
      LowerHexDigit(s[i], t[i]);
    }
    if Lower(s) == Lower(t) {
      assert |s| == |t|;
    } else if |s| == |t| {
      var i :| 0 <= i < |s| && Lower(s)[i] != Lower(t)[i];
    }
  }

  datatype Active = Active(name: FileName, size: nat, tempName: FileName, finalName: FileName, received: nat)

  datatype Receiver = Receiver(files: Directory, active: map<TransferId, Active>)

  /** The result message of a step; `Raised` stands for an exception, which ends the session. */
  datatype Reply =
    | Quiet
    | Accepted(path: FileName)
    | Unknown
    | UnexpectedOffset(path: FileName, received: nat)
    | SizeMismatch(path: FileName, received: nat)
    | HashMismatch(path: FileName, received: nat)
    | Saved(path: FileName, received: nat)
    | Raised

  ghost function OnOffer(env: Environment, r: Receiver, id: TransferId, name: FileName, size: nat): (Receiver, Reply) {
    if HasSlash(id) then (r, Raised)
    else
      var finalName := FreeName(r.files.Keys, env.safeName(name));
      var tempName := TempName(finalName, id);
      (Receiver(r.files - {tempName}, r.active[id := Active(name, size, tempName, finalName, 0)]), Accepted(finalName))
  }

  function OnChunk(r: Receiver, id: TransferId, offset: nat, data: bytes): (Receiver, Reply) {
    if id !in r.active then (r, Unknown)
    else
      var a := r.active[id];
      if offset != a.received then
        if HasNul(a.tempName) then (Receiver(r.files, r.active - {id}), Raised)
        else (Receiver(r.files - {a.tempName}, r.active - {id}), UnexpectedOffset(a.finalName, a.received))
      else if HasNul(a.tempName) then (r, Raised)
      else
        var old_ := if a.tempName in r.files then r.files[a.tempName] else [];
        (Receiver(r.files[a.tempName := old_ + data], r.active[id := a.(received := a.received + |data|)]), Quiet)
  }

  function OnComplete(env: Environment, r: Receiver, id: TransferId, sha: string): (Receiver, Reply) {
    if id !in r.active then (r, Unknown)
    else
      var a := r.active[id];
      var rest := r.active - {id};
      if HasNul(a.tempName) then (Receiver(r.files, rest), Raised)
      else if a.received != a.size then
        (Receiver(r.files - {a.tempName}, rest), SizeMismatch(a.finalName, a.received))
      else if a.tempName !in r.files then (Receiver(r.files, rest), Raised)
      else if Lower(env.sha(r.files[a.tempName])) != Lower(sha) then
        (Receiver(r.files - {a.tempName}, rest), HashMismatch(a.finalName, a.received))
      else
        (Receiver((r.files - {a.tempName})[a.finalName := r.files[a.tempName]], rest), Saved(a.finalName, a.received))
  }

  ghost function Handle(env: Environment, r: Receiver, m: Message): (Receiver, Reply) {
    match m
    case Offer(id, name, size) => OnOffer(env, r, id, name, size)
    case Chunk(id, offset, data) => OnChunk(r, id, offset, data)
    case Complete(id, sha) => OnComplete(env, r, id, sha)
    case Other(_, _) => (r, Quiet)
  }

  ghost function HandleAll(env: Environment, r: Receiver, log: seq<Message>): Receiver
    decreases |log|
  {
    if log == [] then r
    else Handle(env, HandleAll(env, r, log[..|log| - 1]), log[|log| - 1]).0
  }

  // ---------------------------------------------------------------------------
  // What a message sequence means, transfer by transfer and without files
  // ---------------------------------------------------------------------------

  /** The chunks accepted for an id since its latest offer, if the transfer is still on. */
  datatype Progress =
    | NotUnderWay
    | UnderWay(name: FileName, size: nat, pieces: seq<bytes>)

  function Concat(pieces: seq<bytes>): bytes {
    if pieces == [] then [] else Concat(pieces[..|pieces| - 1]) + pieces[|pieces| - 1]
  }

  function Advance(p: Progress, m: Message, id: TransferId): Progress {
    match m
    case Offer(i, name, size) => if i == id && !HasSlash(id) then UnderWay(name, size, []) else p
    case Chunk(i, offset, data) =>
      if i != id || p.NotUnderWay? then p
      else if offset == |Concat(p.pieces)| then if HasNul(id) then p else p.(pieces := p.pieces + [data])
      else NotUnderWay
    case Complete(i, _) => if i == id then NotUnderWay else p
    case Other(_, _) => p
  }

  function Track(log: seq<Message>, id: TransferId): Progress
    decreases |log|
  {
    if log == [] then NotUnderWay
    else Advance(Track(log[..|log| - 1], id), log[|log| - 1], id)
  }

  // ---------------------------------------------------------------------------
  // Transfers that do not get in each other's way
  // ---------------------------------------------------------------------------

  /** Two open transfers share a temporary file, or the second can still be saved over that of the first. */
  predicate Clash(a: Active, b: Active) {
    !HasNul(b.tempName) && (a.tempName == b.tempName || (a.tempName == b.finalName && b.received <= b.size))
  }

  ghost predicate Clear(r: Receiver) {
    forall i, j :: i in r.active && j in r.active && i != j ==> !Clash(r.active[i], r.active[j])
  }

  /** Handling `log` never leaves two open transfers that clash. */
  ghost predicate ClearRun(env: Environment, r: Receiver, log: seq<Message>)
    decreases |log|
  {
    Clear(HandleAll(env, r, log)) && (log != [] ==> ClearRun(env, r, log[..|log| - 1]))
  }

  lemma {:induction false} ClearPrefix(env: Environment, r: Receiver, log: seq<Message>, n: nat)
    requires n <= |log| && ClearRun(env, r, log)
    ensures ClearRun(env, r, log[..n])
    decreases |log|
  {
    if n < |log| {
      ClearPrefix(env, r, log[..|log| - 1], n);
      assert log[..|log| - 1][..n] == log[..n];
    } else {
      assert log[..n] == log;
    }
  }

  lemma HandleOneMore(env: Environment, r: Receiver, log: seq<Message>, m: Message)
    ensures HandleAll(env, r, log + [m]) == Handle(env, HandleAll(env, r, log), m).0
    ensures ClearRun(env, r, log + [m]) <==> ClearRun(env, r, log) && Clear(HandleAll(env, r, log + [m]))
  {
    assert (log + [m])[..|log|] == log;
  }

  lemma {:induction false} HandleInTwoParts(env: Environment, r: Receiver, a: seq<Message>, b: seq<Message>)
    ensures HandleAll(env, r, a + b) == HandleAll(env, HandleAll(env, r, a), b)
    decreases |b|
  {
    if b == [] {
      assert a + b == a;
    } else {
      assert (a + b)[..|a + b| - 1] == a + b[..|b| - 1];
      HandleInTwoParts(env, r, a, b[..|b| - 1]);
    }
  }

  /** Ids have no dot and offered names do not end like a temporary file. */
  predicate WellNamed(env: Environment, m: Message) {
    m.Offer? ==> Dotless(m.id) && !IsTemporary(env.safeName(m.name))
  }

  predicate AllWellNamed(env: Environment, log: seq<Message>) {
    forall i :: 0 <= i < |log| ==> WellNamed(env, log[i])
  }

  /** The paths of an open transfer are as the offer made them from a well-formed name and id. */
  ghost predicate NamesApart(r: Receiver) {
    forall id <- r.active ::
      Dotless(id) && !IsTemporary(r.active[id].finalName) && r.active[id].tempName == TempName(r.active[id].finalName, id)
  }

  lemma NamesApartAreClear(r: Receiver)
    requires NamesApart(r)
    ensures Clear(r)
  {
    forall i, j | i in r.active && j in r.active && i != j ensures !Clash(r.active[i], r.active[j]) {
      TempNameIsTemporary(r.active[i].finalName, i);
      if r.active[i].tempName == r.active[j].tempName {
        TempNamesAreDistinct(r.active[i].finalName, i, r.active[j].finalName, j);
      }
    }
  }

  lemma {:induction false} WellNamedStaysApart(env: Environment, files: Directory, log: seq<Message>)
    requires AllWellNamed(env, log)
    ensures NamesApart(HandleAll(env, Receiver(files, map[]), log))
    decreases |log|
  {
    if log != [] {
      var before, m := log[..|log| - 1], log[|log| - 1];
      WellNamedStaysApart(env, files, before);
      if m.Offer? { FreeNameStaysFinal(HandleAll(env, Receiver(files, map[]), before).files.Keys, env.safeName(m.name)); }
    }
  }

  /** Dotless ids and names that do not end like temporary files keep transfers apart. */
  lemma {:induction false} WellNamedRunsAreClear(env: Environment, files: Directory, log: seq<Message>)
    requires AllWellNamed(env, log)
    ensures ClearRun(env, Receiver(files, map[]), log)
    decreases |log|
  {
    WellNamedStaysApart(env, files, log);
    NamesApartAreClear(HandleAll(env, Receiver(files, map[]), log));
    if log != [] { WellNamedRunsAreClear(env, files, log[..|log| - 1]); }
  }

  // ---------------------------------------------------------------------------
  // The receiver holds what the messages say
  // ---------------------------------------------------------------------------

  /** The receiver holds for `id` exactly what the messages say. */
  ghost predicate Mirrors(r: Receiver, id: TransferId, p: Progress) {
    && (id in r.active <==> p.UnderWay?)
    && (id in r.active ==>
          var a := r.active[id];
          && a.tempName == TempName(a.finalName, id) && (HasNul(a.tempName) <==> HasNul(id))
          && (HasNul(id) ==> p.pieces == [])
          && a.name == p.name && a.size == p.size && a.received == |Concat(p.pieces)|
          && if p.pieces == [] then a.tempName !in r.files
             else a.tempName in r.files && r.files[a.tempName] == Concat(p.pieces))
  }

  lemma ConcatPush(pieces: seq<bytes>, data: bytes)
    ensures Concat(pieces + [data]) == Concat(pieces) + data
  {
    assert (pieces + [data])[..|pieces|] == pieces;
  }

  lemma OfferMirrors(env: Environment, r: Receiver, m: Message, id: TransferId, p: Progress)
    requires m.Offer? && Mirrors(r, id, p) && Clear(Handle(env, r, m).0)
    ensures Mirrors(Handle(env, r, m).0, id, Advance(p, m, id))
  {
    var s := Handle(env, r, m).0;
    var finalName := FreeName(r.files.Keys, env.safeName(m.name));
    FreeNameIsClean(r.files.Keys, env.safeName(m.name));
    TempNameHasNul(finalName, m.id);
    if id != m.id && id in r.active && !HasSlash(m.id) { assert !Clash(s.active[id], s.active[m.id]); }
  }

  /** A chunk or a completion of one transfer leaves the temporary file of another alone. */
  lemma OthersMirror(env: Environment, r: Receiver, m: Message, id: TransferId, p: Progress)
    requires (m.Chunk? || m.Complete?) && m.id != id
    requires Mirrors(r, id, p) && Clear(r)
    ensures Mirrors(Handle(env, r, m).0, id, p)
  {
    if id in r.active && m.id in r.active {
      assert !Clash(r.active[id], r.active[m.id]);
      OtherFilesKept(env, r, m, r.active[id].tempName);
    }
  }

  /** A chunk or a completion touches only the paths of its own transfer. */
  lemma OtherFilesKept(env: Environment, r: Receiver, m: Message, name: FileName)
    requires (m.Chunk? || m.Complete?) && m.id in r.active
    requires var a := r.active[m.id]; !HasNul(a.tempName) ==> name != a.tempName && (a.received <= a.size ==> name != a.finalName)
    ensures var s := Handle(env, r, m).0;
      (name in s.files <==> name in r.files) && (name in r.files ==> s.files[name] == r.files[name])
  {
  }

  lemma OwnMirrors(env: Environment, r: Receiver, m: Message, p: Progress)
    requires (m.Chunk? || m.Complete?) && Mirrors(r, m.id, p)
    ensures Mirrors(Handle(env, r, m).0, m.id, Advance(p, m, m.id))
  {
    if m.Chunk? && p.UnderWay? { ConcatPush(p.pieces, m.data); }
  }

  /** One message changes the holdings of its own transfer as the messages say, and no others. */
  lemma HandleMirrors(env: Environment, r: Receiver, m: Message, id: TransferId, p: Progress)
    requires Mirrors(r, id, p) && Clear(r) && Clear(Handle(env, r, m).0)
    ensures Mirrors(Handle(env, r, m).0, id, Advance(p, m, id))
  {
    if m.Offer? { OfferMirrors(env, r, m, id, p); }
    else if m.Other? { }
    else if id == m.id { OwnMirrors(env, r, m, p); }
    else { OthersMirror(env, r, m, id, p); }
  }

  ghost predicate MirrorsAll(r: Receiver, log: seq<Message>) {
    forall id :: Mirrors(r, id, Track(log, id))
  }

  /** From a state that mirrors its messages on, as long as no two open transfers clash. */
  lemma {:induction false} HandleMoreMirrors(env: Environment, r: Receiver, log: seq<Message>, more: seq<Message>)
    requires MirrorsAll(r, log) && ClearRun(env, r, more)
    ensures MirrorsAll(HandleAll(env, r, more), log + more)
    decreases |more|
  {
    if more == [] {
      assert log + more == log;
    } else {
      var before, m := more[..|more| - 1], more[|more| - 1];
      HandleMoreMirrors(env, r, log, before);
      var s, all := HandleAll(env, r, before), log + more;
      assert all[..|all| - 1] == log + before;
      assert Clear(s) by { if before == [] { } }
      forall id ensures Mirrors(Handle(env, s, m).0, id, Track(all, id)) {
        HandleMirrors(env, s, m, id, Track(log + before, id));
      }
    }
  }

  lemma {:induction false} HandleAllMirrors(env: Environment, files: Directory, log: seq<Message>)
    requires ClearRun(env, Receiver(files, map[]), log)
    ensures MirrorsAll(HandleAll(env, Receiver(files, map[]), log), log)
  {
    HandleMoreMirrors(env, Receiver(files, map[]), [], log);
    assert [] + log == log;
  }

  // ---------------------------------------------------------------------------
  // Exactly when the holdings stay right
  // ---------------------------------------------------------------------------

  predicate NoOffers(log: seq<Message>) {
    forall i :: 0 <= i < |log| ==> !log[i].Offer?
  }

  lemma {:induction false} NoOffersStayClear(env: Environment, r: Receiver, more: seq<Message>)
    requires Clear(r) && NoOffers(more)
    ensures ClearRun(env, r, more)
    decreases |more|
  {
    if more != [] {
      NoOffersStayClear(env, r, more[..|more| - 1]);
      StepStaysClear(env, HandleAll(env, r, more[..|more| - 1]), more[|more| - 1]);
    }
  }

  lemma StepStaysClear(env: Environment, r: Receiver, m: Message)
    requires Clear(r) && !m.Offer?
    ensures Clear(Handle(env, r, m).0)
  {
    var s := Handle(env, r, m).0;
    forall i, j | i in s.active && j in s.active && i != j ensures !Clash(s.active[i], s.active[j]) {
      assert !Clash(r.active[i], r.active[j]);
    }
  }

  /** A chunk in place, for a transfer whose temporary file another one shares. */
  lemma SharedTemporaryBreaks(env: Environment, r: Receiver, log: seq<Message>, i: TransferId, j: TransferId)
    returns (m: Message)
    requires MirrorsAll(r, log) && i in r.active && j in r.active && i != j
    requires r.active[i].tempName == r.active[j].tempName && !HasNul(r.active[i].tempName)
    ensures !m.Offer? && !MirrorsAll(Handle(env, r, m).0, log + [m])
  {
    m := Chunk(i, r.active[i].received, [0]);
    assert Mirrors(r, i, Track(log, i)) && Mirrors(r, j, Track(log, j));
    assert (log + [m])[..|log|] == log;
    var p := Track(log, j);
    assert Track(log + [m], j) == p;
    var s := Handle(env, r, m).0;
    var temp := r.active[j].tempName;
    var had := if temp in r.files then r.files[temp] else [];
    assert s.files[temp] == had + [0];
    assert p.pieces == [] ==> Concat(p.pieces) == [];
    assert had == Concat(p.pieces);
    assert !Mirrors(s, j, Track(log + [m], j));
  }

  /** The rest of a transfer that ends as `content`, with a completion that is accepted. */
  function Rest(env: Environment, r: Receiver, id: TransferId, data: bytes): seq<Message>
    requires id in r.active
  {
    [Chunk(id, r.active[id].received, data), Complete(id, env.sha(Holding(r, id) + data))]
  }

  /** What the temporary file of an open transfer holds. */
  function Holding(r: Receiver, id: TransferId): bytes
    requires id in r.active
  {
    if r.active[id].tempName in r.files then r.files[r.active[id].tempName] else []
  }

  /** A chunk in place is appended to what the temporary file holds. */
  lemma ChunkAppends(env: Environment, r: Receiver, id: TransferId, data: bytes)
    requires id in r.active && !HasNul(r.active[id].tempName)
    ensures var a := r.active[id];
      Handle(env, r, Chunk(id, a.received, data))
      == (Receiver(r.files[a.tempName := Holding(r, id) + data], r.active[id := a.(received := a.received + |data|)]), Quiet)
  {
  }

  /** A completion with the size and hash of what the temporary file holds renames it. */
  lemma CompletionSaves(env: Environment, r: Receiver, id: TransferId, content: bytes)
    requires id in r.active && !HasNul(r.active[id].tempName) && r.active[id].received == r.active[id].size
    requires r.active[id].tempName in r.files && r.files[r.active[id].tempName] == content
    ensures var a := r.active[id];
      Handle(env, r, Complete(id, env.sha(content)))
      == (Receiver((r.files - {a.tempName})[a.finalName := content], r.active - {id}), Saved(a.finalName, a.received))
  {
  }

  lemma HandleTwo(env: Environment, r: Receiver, x: Message, y: Message)
    ensures HandleAll(env, r, [x, y]) == Handle(env, Handle(env, r, x).0, y).0
  {
    HandleOneMore(env, r, [], x);
    HandleOneMore(env, r, [x], y);
    assert [] + [x] == [x] && [x] + [y] == [x, y];
    assert HandleAll(env, r, []) == r;
  }

  lemma ReplaceThenRemove(files: Directory, name: FileName, content: bytes)
    ensures files[name := content] - {name} == files - {name}
  {
  }

  /** Ending a transfer saves its holding and the last chunk, whatever else is open. */
  lemma RestSaves(env: Environment, r: Receiver, id: TransferId, data: bytes)
    requires id in r.active && !HasNul(r.active[id].tempName)
    requires r.active[id].received + |data| == r.active[id].size
    ensures var s := HandleAll(env, r, Rest(env, r, id, data));
      && s.active == r.active - {id}
      && s.files == (r.files - {r.active[id].tempName})[r.active[id].finalName := Holding(r, id) + data]
  {
    var a, content := r.active[id], Holding(r, id) + data;
    var x, y := Chunk(id, a.received, data), Complete(id, env.sha(content));
    HandleTwo(env, r, x, y);
    ChunkAppends(env, r, id, data);
    CompletionSaves(env, Handle(env, r, x).0, id, content);
    ReplaceThenRemove(r.files, a.tempName, content);
  }

  /** A chunk of one transfer, and then the other one is saved over its temporary file. */
  lemma LateSave(env: Environment, r: Receiver, i: TransferId, j: TransferId, data: bytes, rest: bytes)
    requires i in r.active && j in r.active && i != j
    requires r.active[i].tempName != r.active[j].tempName && r.active[i].tempName == r.active[j].finalName
    requires !HasNul(r.active[i].tempName) && !HasNul(r.active[j].tempName)
    requires r.active[j].received + |rest| == r.active[j].size
    ensures var m := Chunk(i, r.active[i].received, data);
      var s := Handle(env, r, m).0;
      && j in s.active
      && var t := HandleAll(env, r, [m] + Rest(env, s, j, rest));
      && i in t.active && t.active[i].tempName in t.files
      && t.files[t.active[i].tempName] == Holding(r, j) + rest
  {
    var m := Chunk(i, r.active[i].received, data);
    HandleOneMore(env, r, [], m);
    assert [] + [m] == [m];
    assert HandleAll(env, r, []) == r;
    ChunkAppends(env, r, i, data);
    var s := Handle(env, r, m).0;
    assert Holding(s, j) == Holding(r, j);
    RestSaves(env, s, j, rest);
    HandleInTwoParts(env, r, [m], Rest(env, s, j, rest));
  }

  lemma FinalHasNoNul(finalName: string, id: TransferId)
    requires !HasNul(TempName(finalName, id))
    ensures !HasNul(finalName) && !HasNul(id)
  {
    var s := TempName(finalName, id);
    assert forall c <- finalName :: c in s;
    TempNameHasNul(finalName, id);
  }

  /** A transfer that can still be saved over the temporary file of another one. */
  lemma LateSaveBreaks(env: Environment, r: Receiver, log: seq<Message>, i: TransferId, j: TransferId)
    returns (more: seq<Message>)
    requires MirrorsAll(r, log) && i in r.active && j in r.active && i != j
    requires r.active[i].tempName != r.active[j].tempName && !HasNul(r.active[j].tempName)
    requires r.active[i].tempName == r.active[j].finalName && r.active[j].received <= r.active[j].size
    ensures NoOffers(more) && !MirrorsAll(HandleAll(env, r, more), log + more)
  {
    var b, p := r.active[j], Track(log, i);
    assert Mirrors(r, i, p) && Mirrors(r, j, Track(log, j));
    FinalHasNoNul(b.finalName, j);
    var data: bytes := seq(b.size - b.received, _ => 0);
    var saved := Holding(r, j) + data;
    var m := Chunk(i, r.active[i].received, [if saved == Concat(p.pieces) + [0] then 1 else 0]);
    LateSave(env, r, i, j, m.data, data);
    var rest := Rest(env, Handle(env, r, m).0, j, data);
    more := [m] + rest;
    OwnChunkThenOthers(log, i, m, rest);
    ConcatPush(p.pieces, m.data);
    LastByteDiffers(Concat(p.pieces), saved);
    NotHeld(HandleAll(env, r, more), i, Advance(p, m, i), saved);
  }

  lemma LastByteDiffers(held: bytes, saved: bytes)
    ensures held + [if saved == held + [0] then 1 else 0] != saved
  {
    if saved == held + [0] { assert (held + [1])[|held|] != saved[|held|]; }
  }

  lemma NotHeld(s: Receiver, id: TransferId, p: Progress, saved: bytes)
    requires id in s.active && s.active[id].tempName in s.files && s.files[s.active[id].tempName] == saved
    requires p.UnderWay? ==> Concat(p.pieces) != saved
    ensures !Mirrors(s, id, p)
  {
  }

  lemma TrackOneMore(log: seq<Message>, m: Message, id: TransferId)
    ensures Track(log + [m], id) == Advance(Track(log, id), m, id)
  {
    assert (log + [m])[..|log|] == log;
  }

  lemma OwnChunkThenOthers(log: seq<Message>, id: TransferId, m: Message, rest: seq<Message>)
    requires m.Chunk? && m.id == id && |rest| == 2
    requires forall x <- rest :: !x.Other? && !x.Offer? && x.id != id
    ensures Track(log + ([m] + rest), id) == Advance(Track(log, id), m, id)
    ensures NoOffers([m] + rest)
  {
    TrackOneMore(log, m, id);
    TrackOneMore(log + [m], rest[0], id);
    TrackOneMore(log + [m] + [rest[0]], rest[1], id);
    assert log + ([m] + rest) == log + [m] + [rest[0]] + [rest[1]];
    assert rest[0] in rest && rest[1] in rest;
  }

  /**
    Exactly when the receiver goes on holding what the messages say, however the open
    transfers continue: when no two of them clash.
   */
  lemma HoldingsStayRightExactly(env: Environment, r: Receiver, log: seq<Message>)
    requires MirrorsAll(r, log)
    ensures (forall more :: NoOffers(more) ==> MirrorsAll(HandleAll(env, r, more), log + more)) <==> Clear(r)
  {
    if Clear(r) {
      forall more | NoOffers(more) ensures MirrorsAll(HandleAll(env, r, more), log + more) {
        NoOffersStayClear(env, r, more);
        HandleMoreMirrors(env, r, log, more);
      }
    } else {
      var i, j :| i in r.active && j in r.active && i != j && Clash(r.active[i], r.active[j]);
      if r.active[i].tempName == r.active[j].tempName {
        var m := SharedTemporaryBreaks(env, r, log, i, j);
        HandleOneMore(env, r, [], m);
        assert [] + [m] == [m] && HandleAll(env, r, []) == r;
        assert NoOffers([m]);
      } else {
        var more := LateSaveBreaks(env, r, log, i, j);
      }
    }
  }

  // ---------------------------------------------------------------------------
  // Answers
  // ---------------------------------------------------------------------------

  /** An offer is refused for a slash in its id, and otherwise reserves a name. */
  ghost predicate OfferAnswered(env: Environment, r: Receiver, after: Receiver, reply: Reply, id: TransferId, name: string) {
    if HasSlash(id) then reply == Raised && after == r
    else
      && reply.Accepted?
      && IsUniqueName(r.files.Keys, env.safeName(name), reply.path)
      && id in after.active && TempName(reply.path, id) !in after.files
  }

  /** Accepted exactly at the running offset, and then held with what was accepted before. */
  ghost predicate ChunkAnswered(r: Receiver, after: Receiver, reply: Reply, p: Progress, id: TransferId, offset: nat, data: bytes) {
    if p.NotUnderWay? then reply == Unknown && after == r
    else if HasNul(id) then
      reply == Raised && after == if offset == |Concat(p.pieces)| then r else r.(active := r.active - {id})
    else if offset == |Concat(p.pieces)| then
      && reply == Quiet
      && id in after.active && after.active[id].tempName in after.files
      && after.files[after.active[id].tempName] == Concat(p.pieces) + data
    else
      && id in r.active && reply == UnexpectedOffset(r.active[id].finalName, |Concat(p.pieces)|)
      && id !in after.active && r.active[id].tempName !in after.files
  }

  /** Saved exactly when the chunks are complete, not none, and have the given hash. */
  ghost predicate CompletionAnswered(env: Environment, r: Receiver, after: Receiver, reply: Reply, p: Progress, id: TransferId, sha: string) {
    && id !in after.active
    && if p.NotUnderWay? then reply == Unknown && after == r
       else if HasNul(id) then reply == Raised && after == r.(active := r.active - {id})
       else
         && id in r.active
         && var path, received := r.active[id].finalName, |Concat(p.pieces)|;
            if received != p.size then
              reply == SizeMismatch(path, received) && r.active[id].tempName !in after.files
            else if p.pieces == [] then reply == Raised
            else if Lower(env.sha(Concat(p.pieces))) != Lower(sha) then
              reply == HashMismatch(path, received) && r.active[id].tempName !in after.files
            else
              && reply == Saved(path, received)
              && reply.path in after.files && after.files[reply.path] == Concat(p.pieces)
              && r.active[id].tempName !in after.files
  }

  /** What the sender of `m` is told and what is left, given what the earlier messages mean. */
  ghost predicate AnswerFits(env: Environment, r: Receiver, after: Receiver, reply: Reply, m: Message, p: Progress) {
    match m
    case Offer(id, name, size) => OfferAnswered(env, r, after, reply, id, name)
    case Chunk(id, offset, data) => ChunkAnswered(r, after, reply, p, id, offset, data)
    case Complete(id, sha) => CompletionAnswered(env, r, after, reply, p, id, sha)
    case Other(_, _) => reply == Quiet && after == r
  }

  function ProgressOf(log: seq<Message>, m: Message): Progress {
    if m.Other? then NotUnderWay else Track(log, m.id)
  }

  lemma OfferAnswer(env: Environment, r: Receiver, id: TransferId, name: string, size: nat)
    ensures var (after, reply) := OnOffer(env, r, id, name, size); OfferAnswered(env, r, after, reply, id, name)
  {
    FreeNameIsUnique(r.files.Keys, env.safeName(name));
  }

  lemma ChunkAnswer(r: Receiver, id: TransferId, offset: nat, data: bytes, p: Progress)
    requires Mirrors(r, id, p)
    ensures var (after, reply) := OnChunk(r, id, offset, data); ChunkAnswered(r, after, reply, p, id, offset, data)
  {
    if p.UnderWay? && p.pieces == [] { assert [] + data == data; }
  }

  lemma CompletionAnswer(env: Environment, r: Receiver, id: TransferId, sha: string, p: Progress)
    requires Mirrors(r, id, p)
    ensures var (after, reply) := OnComplete(env, r, id, sha); CompletionAnswered(env, r, after, reply, p, id, sha)
  {
  }

  lemma AnswerFromMirrors(env: Environment, r: Receiver, m: Message, p: Progress)
    requires !m.Other? ==> Mirrors(r, m.id, p)
    ensures var (after, reply) := Handle(env, r, m); AnswerFits(env, r, after, reply, m, p)
  {
    match m
    case Offer(id, name, size) => OfferAnswer(env, r, id, name, size);
    case Chunk(id, offset, data) => ChunkAnswer(r, id, offset, data, p);
    case Complete(id, sha) => CompletionAnswer(env, r, id, sha, p);
    case Other(_, _) =>
  }

  /**
    For every message sequence that leaves no clash the answer to the next message is what
    the messages of its transfer call for.  In particular a transfer is reported saved if
    and only if it is under way, its accepted chunks have the offered size and the completed
    hash, and there was at least one; the saved file then holds exactly those chunks.
   */
  lemma ReceiverAnswersExactly(env: Environment, files: Directory, log: seq<Message>, m: Message)
    requires ClearRun(env, Receiver(files, map[]), log)
    ensures var r := HandleAll(env, Receiver(files, map[]), log);
      var (after, reply) := Handle(env, r, m);
      AnswerFits(env, r, after, reply, m, ProgressOf(log, m))
  {
    HandleAllMirrors(env, files, log);
    var r := HandleAll(env, Receiver(files, map[]), log);
    if !m.Other? { assert Mirrors(r, m.id, Track(log, m.id)); }
    AnswerFromMirrors(env, r, m, ProgressOf(log, m));
  }

  /** All of a file has arrived for the transfer. */
  ghost predicate AllReceived(log: seq<Message>, id: TransferId, content: bytes) {
    && MakesPath(id) && content != []
    && Track(log, id).UnderWay?
    && Track(log, id).size == |content| && Concat(Track(log, id).pieces) == content
  }

  /**
    When all of a file has arrived, exactly the completions with its hash, in digits of
    either case, save it.  Any other hash is answered with a mismatch, and all that happens
    is that the temporary file goes.
   */
  lemma HashDecidesExactly(env: Environment, files: Directory, log: seq<Message>, id: TransferId, content: bytes, sha: string)
    requires ClearRun(env, Receiver(files, map[]), log) && AllReceived(log, id, content)
    requires IsHex(sha) && IsHex(env.sha(content))
    ensures var r := HandleAll(env, Receiver(files, map[]), log);
      && id in r.active
      && var a, (after, reply) := r.active[id], Handle(env, r, Complete(id, sha));
      && after.active == r.active - {id}
      && if SameHex(sha, env.sha(content)) then
           reply == Saved(a.finalName, |content|) && after.files == (r.files - {a.tempName})[a.finalName := content]
         else reply == HashMismatch(a.finalName, |content|) && after.files == r.files - {a.tempName}
  {
    HandleAllMirrors(env, files, log);
    LowerComparesHex(env.sha(content), sha);
    var r := HandleAll(env, Receiver(files, map[]), log);
    assert Mirrors(r, id, Track(log, id));
    assert Concat([]) == [];
  }

  // ---------------------------------------------------------------------------
  // The receiver object
  // ---------------------------------------------------------------------------

  /** One more message keeps the receiver's meaning, and its answer fits. */
  lemma MessageHandled(env: Environment, files: Directory, log: seq<Message>, m: Message)
    ensures var start := Receiver(files, map[]);
      var r := HandleAll(env, start, log);
      var (after, reply) := Handle(env, r, m);
      && after == HandleAll(env, start, log + [m])
      && (ClearRun(env, start, log + [m]) ==> MirrorsAll(after, log + [m]))
      && (ClearRun(env, start, log) ==> AnswerFits(env, r, after, reply, m, ProgressOf(log, m)))
  {
    HandleOneMore(env, Receiver(files, map[]), log, m);
    if ClearRun(env, Receiver(files, map[]), log + [m]) { HandleAllMirrors(env, files, log + [m]); }
    if ClearRun(env, Receiver(files, map[]), log) { ReceiverAnswersExactly(env, files, log, m); }
  }

  class FileReceiver {
    const env: Environment
    var files: Directory
    var active: map<TransferId, Active>
    ghost const start: Directory           // the directory when the receiver was made
    ghost var log: seq<Message>            // the messages handled since

    ghost function View(): Receiver
      reads this
    {
      Receiver(files, active)
    }

    /** The fields are what the messages make of the directory, and without clashes hold what they say. */
    ghost predicate Valid()
      reads this
    {
      && View() == HandleAll(env, Receiver(start, map[]), log)
      && (NoClashes() ==> MirrorsAll(View(), log))
    }

    ghost predicate NoClashes()
      reads this
    {
      ClearRun(env, Receiver(start, map[]), log)
    }

    constructor (env: Environment, files: Directory)
      ensures Valid() && this.env == env && View() == Receiver(files, map[]) && start == files && log == []
    {
      this.env, this.files, this.active, this.start, this.log := env, files, map[], files, [];
    }

    /** Reserves a free name; a stale temporary file is removed.  A slash in the id raises. */
    method HandleOffer(id: TransferId, name: FileName, size: nat) returns (reply: Reply)
      requires Valid()
      modifies this
      ensures Valid() && log == old(log) + [Offer(id, name, size)]
      ensures (View(), reply) == OnOffer(env, old(View()), id, name, size)
      ensures OfferAnswered(env, old(View()), View(), reply, id, name)
    {
      MessageHandled(env, start, log, Offer(id, name, size));
      OfferAnswer(env, View(), id, name, size);
      log := log + [Offer(id, name, size)];
      var finalName := UniqueName(files.Keys, env.safeName(name));
      if HasSlash(id) { return Raised; }
      var tempName := TempName(finalName, id);
      if tempName in files { files := files - {tempName}; }
      assert files == old(files) - {tempName};
      active := active[id := Active(name, size, tempName, finalName, 0)];
      return Accepted(finalName);
    }

    /**
      Appends a chunk in place to what the transfer has accepted so far; a chunk out of
      place ends the transfer and its temporary file.
     */
    method HandleChunk(id: TransferId, offset: nat, data: bytes) returns (reply: Reply)
      requires Valid()
      modifies this
      ensures Valid() && log == old(log) + [Chunk(id, offset, data)]
      ensures (View(), reply) == OnChunk(old(View()), id, offset, data)
      ensures old(NoClashes()) ==>
                ChunkAnswered(old(View()), View(), reply, Track(old(log), id), id, offset, data)
    {
      MessageHandled(env, start, log, Chunk(id, offset, data));
      log := log + [Chunk(id, offset, data)];
      if id !in active { return Unknown; }
      var a := active[id];
      if offset != a.received {
        active := active - {id};
        var ok := Unlink(a.tempName);
        return if ok then UnexpectedOffset(a.finalName, a.received) else Raised;
      }
      var ok := Append(a.tempName, data);
      if !ok { return Raised; }
      active := active[id := a.(received := a.received + |data|)];
      return Quiet;
    }

    /** Ends a transfer: saved exactly when its chunks are complete, not none, and have the given hash. */
    method HandleComplete(id: TransferId, sha: string) returns (reply: Reply)
      requires Valid()
      modifies this
      ensures Valid() && log == old(log) + [Complete(id, sha)]
      ensures (View(), reply) == OnComplete(env, old(View()), id, sha)
      ensures old(NoClashes()) ==>
                CompletionAnswered(env, old(View()), View(), reply, Track(old(log), id), id, sha)
    {
      MessageHandled(env, start, log, Complete(id, sha));
      log := log + [Complete(id, sha)];
      if id !in active { return Unknown; }
      var a := active[id];
      active := active - {id};
      if a.received != a.size {
        var ok := Unlink(a.tempName);
        return if ok then SizeMismatch(a.finalName, a.received) else Raised;
      }
      if HasNul(a.tempName) || a.tempName !in files { return Raised; }
      var content := files[a.tempName];
      files := files - {a.tempName};
      if Lower(env.sha(content)) != Lower(sha) { return HashMismatch(a.finalName, a.received); }
      files := files[a.finalName := content];
      return Saved(a.finalName, a.received);
    }

    /** Removes a file; a missing one is no error, but a null character in its name is. */
    method Unlink(name: FileName) returns (ok: bool)
      modifies this`files
      ensures ok <==> !HasNul(name)
      ensures files == if ok then old(files) - {name} else old(files)
    {
      if HasNul(name) { return false; }
      files := files - {name};
      return true;
    }

    /** Appends to a file, which need not exist. */
    method Append(name: FileName, data: bytes) returns (ok: bool)
      modifies this`files
      ensures ok <==> !HasNul(name)
      ensures files == if ok then old(files)[name := (if name in old(files) then old(files)[name] else []) + data]
                       else old(files)
    {
      if HasNul(name) { return false; }
      var already := if name in files then files[name] else [];
      files := files[name := already + data];
      return true;
    }
  }
}
