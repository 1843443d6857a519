/**
  The desktop's store of clipboard updates: an order list, a map and a set of fingerprints
  that agree through de-duplication and eviction. The digest is a parameter.
 */
module Clipboard {

  datatype Update = Update(updateId: string, sourceDevice: string, text: string)

  type Digest = string -> string

  const SHOWN: nat := 30
  const TEXT_LIMIT: nat := 8192

  function Shortened(text: string): string {
    if |text| > TEXT_LIMIT then text[..TEXT_LIMIT] else text
  }

  function Fingerprint(digest: Digest, u: Update): string {
    digest(u.sourceDevice + ":" + Shortened(u.text))
  }

  /** An update without an id goes by its fingerprint. */
  function Key(digest: Digest, u: Update): string {
    if u.updateId != "" then u.updateId else Fingerprint(digest, u)
  }

  /** The first `TEXT_LIMIT` characters. */
  predicate SameStart(s: string, t: string) {
    s == t || (|s| >= TEXT_LIMIT && |t| >= TEXT_LIMIT && s[..TEXT_LIMIT] == t[..TEXT_LIMIT])
  }

  /** Where the digest does not collide, the updates of one device have one fingerprint exactly if their texts start the same. */
  lemma FingerprintsCompareTexts(digest: Digest, u: Update, v: Update)
    requires u.sourceDevice == v.sourceDevice
    requires forall s, t :: digest(s) == digest(t) ==> s == t
    ensures Fingerprint(digest, u) == Fingerprint(digest, v) <==> SameStart(u.text, v.text)
  {
    var front := u.sourceDevice + ":";
    var s, t := Shortened(u.text), Shortened(v.text);
    assert (front + s)[|front|..] == s && (front + t)[|front|..] == t;
    ShortenedSame(u.text, v.text);
  }

  lemma ShortenedSame(s: string, t: string)
    ensures Shortened(s) == Shortened(t) <==> SameStart(s, t)
  {
    if |s| == TEXT_LIMIT { assert s[..TEXT_LIMIT] == s; }
    if |t| == TEXT_LIMIT { assert t[..TEXT_LIMIT] == t; }
  }

  /** What one update is stored under: its own id, and only without one its fingerprint, which is the digest of device and text. */
  lemma KeyIsIdOrDigest(digest: Digest, u: Update)
    requires |u.text| <= 8192
    ensures Fingerprint(digest, u) == digest(u.sourceDevice + ":" + u.text)
    ensures Key(digest, u) == if u.updateId == "" then digest(u.sourceDevice + ":" + u.text) else u.updateId
  {
  }

  function Keys(digest: Digest, w: seq<Update>): (keys: seq<string>)
    ensures |keys| == |w|
  {
    seq(|w|, i requires 0 <= i < |w| => Key(digest, w[i]))
  }

  function Fingerprints(digest: Digest, w: seq<Update>): (fs: seq<string>)
    ensures |fs| == |w|
  {
    seq(|w|, i requires 0 <= i < |w| => Fingerprint(digest, w[i]))
  }

  // ---------------------------------------------------------------------------
  // What the store means
  // ---------------------------------------------------------------------------

  function Last<T>(s: seq<T>, n: nat): (w: seq<T>)
    ensures |w| == if |s| < n then |s| else n
  {
    if |s| <= n then s else s[|s| - n..]
  }

  predicate IsNew(digest: Digest, w: seq<Update>, u: Update) {
    Key(digest, u) !in Keys(digest, w) && Fingerprint(digest, u) !in Fingerprints(digest, w)
  }

  /** An update is accepted when it has text and neither its id nor its content is being shown. */
  function Accept(digest: Digest, accepted: seq<Update>, u: Update): seq<Update> {
    if u.text != "" && IsNew(digest, Last(accepted, SHOWN), u) then accepted + [u] else accepted
  }

  function Accepted(digest: Digest, received: seq<Update>): seq<Update> {
    if received == [] then []
    else Accept(digest, Accepted(digest, received[..|received| - 1]), received[|received| - 1])
  }

  /** An update is kept exactly if it has text and none of the last thirty has its id or its content. */
  lemma AcceptsExactly(digest: Digest, accepted: seq<Update>, u: Update)
    ensures Accept(digest, accepted, u) ==
      if u.text != "" && forall k :: 0 <= k < |accepted| && k >= |accepted| - 30 ==>
           Key(digest, accepted[k]) != Key(digest, u) && Fingerprint(digest, accepted[k]) != Fingerprint(digest, u)
      then accepted + [u] else accepted
  {
    var w := Last(accepted, SHOWN);
    var from := |accepted| - |w|;
    assert forall i :: 0 <= i < |w| ==> w[i] == accepted[from + i];
    assert forall k :: from <= k < |accepted| ==> accepted[k] == w[k - from];
    NewExactly(digest, w, u);
  }

  lemma NewExactly(digest: Digest, w: seq<Update>, u: Update)
    ensures IsNew(digest, w, u) <==> forall i :: 0 <= i < |w| ==>
      Key(digest, w[i]) != Key(digest, u) && Fingerprint(digest, w[i]) != Fingerprint(digest, u)
  {
    assert forall i :: 0 <= i < |w| ==> Keys(digest, w)[i] == Key(digest, w[i]);
    assert forall i :: 0 <= i < |w| ==> Fingerprints(digest, w)[i] == Fingerprint(digest, w[i]);
  }

  predicate Distinct(digest: Digest, w: seq<Update>) {
    forall i, j :: 0 <= i < j < |w| ==>
      Key(digest, w[i]) != Key(digest, w[j]) && Fingerprint(digest, w[i]) != Fingerprint(digest, w[j])
  }

  function Reversed<T>(s: seq<T>): (r: seq<T>)
    ensures |r| == |s| && forall i :: 0 <= i < |s| ==> r[i] == s[|s| - 1 - i]
  {
    seq(|s|, i requires 0 <= i < |s| => s[|s| - 1 - i])
  }

  // ---------------------------------------------------------------------------
  // The indexes
  // ---------------------------------------------------------------------------

  datatype Indexes = Indexes(order: seq<string>, updates: map<string, Update>, fingerprints: set<string>)

  /** The three indexes describe the same updates, in this order. */
  ghost predicate Describes(digest: Digest, ix: Indexes, w: seq<Update>) {
    && Distinct(digest, w)
    && ix.order == Keys(digest, w)
    && MapAgrees(ix.order, ix.updates, w)
    && SetAgrees(ix.fingerprints, Fingerprints(digest, w))
  }

  ghost predicate MapAgrees(order: seq<string>, updates: map<string, Update>, w: seq<Update>)
    requires |order| == |w|
  {
    && (forall k :: k in updates <==> k in order)
    && (forall i :: 0 <= i < |w| ==> updates[order[i]] == w[i])
  }

  ghost predicate SetAgrees(elements: set<string>, s: seq<string>) {
    forall x :: x in elements <==> x in s
  }

  predicate NoRepeats(s: seq<string>) {
    forall i, j :: 0 <= i < j < |s| ==> s[i] != s[j]
  }

  function Add(digest: Digest, ix: Indexes, u: Update): Indexes {
    var key := Key(digest, u);
    Indexes(ix.order + [key], ix.updates[key := u], ix.fingerprints + {Fingerprint(digest, u)})
  }

  function EvictOldest(digest: Digest, ix: Indexes): Indexes
    requires ix.order != []
  {
    var key := ix.order[0];
    if key in ix.updates then
      Indexes(ix.order[1..], ix.updates - {key}, ix.fingerprints - {Fingerprint(digest, ix.updates[key])})
    else Indexes(ix.order[1..], ix.updates, ix.fingerprints)
  }

  lemma AddKeepsAgreement(digest: Digest, ix: Indexes, w: seq<Update>, u: Update)
    requires Describes(digest, ix, w) && IsNew(digest, w, u)
    ensures Describes(digest, Add(digest, ix, u), w + [u])
  {
    var w' := w + [u];
    assert Keys(digest, w') == Keys(digest, w) + [Key(digest, u)];
    assert Fingerprints(digest, w') == Fingerprints(digest, w) + [Fingerprint(digest, u)];
    forall i | 0 <= i < |w|
      ensures Key(digest, w[i]) != Key(digest, u) && Fingerprint(digest, w[i]) != Fingerprint(digest, u)
    {
      assert Keys(digest, w)[i] != Key(digest, u) && Fingerprints(digest, w)[i] != Fingerprint(digest, u);
    }
  }

  lemma MapWithoutFirst(order: seq<string>, updates: map<string, Update>, w: seq<Update>)
    requires |order| == |w| > 0 && MapAgrees(order, updates, w) && NoRepeats(order)
    ensures order[0] in updates && updates[order[0]] == w[0]
    ensures MapAgrees(order[1..], updates - {order[0]}, w[1..])
  {
    DistinctTail(order);
    assert order[0] in order;
    forall i | 0 <= i < |w| - 1 ensures order[1..][i] in updates && updates[order[1..][i]] == w[1..][i] {
      assert order[1..][i] == order[i + 1] && w[1..][i] == w[i + 1];
    }
  }

  lemma SetWithoutFirst(elements: set<string>, s: seq<string>)
    requires s != [] && SetAgrees(elements, s) && NoRepeats(s)
    ensures SetAgrees(elements - {s[0]}, s[1..])
  {
    DistinctTail(s);
  }

  lemma DistinctHasNoRepeats(digest: Digest, w: seq<Update>)
    requires Distinct(digest, w)
    ensures NoRepeats(Keys(digest, w)) && NoRepeats(Fingerprints(digest, w))
  {
  }

  lemma EvictKeepsAgreement(digest: Digest, ix: Indexes, w: seq<Update>)
    requires Describes(digest, ix, w) && w != []
    ensures Describes(digest, EvictOldest(digest, ix), w[1..])
  {
    TailKeys(digest, w);
    DistinctHasNoRepeats(digest, w);
    MapWithoutFirst(ix.order, ix.updates, w);
    SetWithoutFirst(ix.fingerprints, Fingerprints(digest, w));
  }

  lemma TailKeys(digest: Digest, w: seq<Update>)
    requires w != []
    ensures Keys(digest, w[1..]) == Keys(digest, w)[1..]
    ensures Fingerprints(digest, w[1..]) == Fingerprints(digest, w)[1..]
    ensures Distinct(digest, w) ==> Distinct(digest, w[1..])
  {
  }

  lemma DistinctTail(s: seq<string>)
    requires s != [] && NoRepeats(s)
    ensures forall x :: x in s[1..] <==> x in s && x != s[0]
  {
    assert s == [s[0]] + s[1..];
  }

  lemma {:induction false} SetOfDistinct(s: seq<string>, elements: set<string>)
    requires NoRepeats(s) && SetAgrees(elements, s)
    ensures |elements| == |s|
  {
    if s == [] {
      assert elements == {};
    } else {
      var rest := s[1..];
      assert s == [s[0]] + rest;
      assert s[0] !in rest;
      SetOfDistinct(rest, elements - {s[0]});
    }
  }

  /** The indexes have the same size. */
  lemma SameSizes(digest: Digest, ix: Indexes, w: seq<Update>)
    requires Describes(digest, ix, w)
    ensures |ix.order| == |ix.updates| == |ix.fingerprints| == |w|
  {
    DistinctHasNoRepeats(digest, w);
    SetOfDistinct(ix.order, ix.updates.Keys);
    SetOfDistinct(Fingerprints(digest, w), ix.fingerprints);
  }

  lemma NewIsAbsent(digest: Digest, ix: Indexes, w: seq<Update>, u: Update)
    requires Describes(digest, ix, w)
    ensures IsNew(digest, w, u) <==> Key(digest, u) !in ix.updates && Fingerprint(digest, u) !in ix.fingerprints
  {
  }

  lemma LastAfterPush<T>(s: seq<T>, x: T, n: nat)
    ensures Last(Last(s, n) + [x], n) == Last(s + [x], n)
  {
  }

  lemma LastAfterDrop<T>(w: seq<T>, n: nat)
    requires |w| > n
    ensures Last(w[1..], n) == Last(w, n)
  {
  }

  // ---------------------------------------------------------------------------
  // The store
  // ---------------------------------------------------------------------------

  class ClipboardStore {
    const digest: Digest
    var order: seq<string>
    var updates: map<string, Update>
    var fingerprints: set<string>
    ghost var received: seq<Update>

    function State(): Indexes
      reads this
    {
      Indexes(order, updates, fingerprints)
    }

    /** The last thirty accepted updates, oldest first. */
    ghost function Shown(): seq<Update>
      reads this
    {
      Last(Accepted(digest, received), SHOWN)
    }

    ghost predicate Valid()
      reads this
    {
      Describes(digest, State(), Shown())
    }

    constructor (digest: Digest)
      ensures Valid() && this.digest == digest && received == []
    {
      this.digest := digest;
      order, updates, fingerprints, received := [], map[], {}, [];
    }

    /** Keeps all three indexes in step; says whether the change callback is due. */
    method RecordClipboardUpdate(u: Update) returns (changed: bool)
      requires Valid()
      modifies this
      ensures Valid() && received == old(received) + [u]
      ensures changed <==> Accepted(digest, received) != Accepted(digest, old(received))
    {
      ghost var accepted, w := Accepted(digest, received), Shown();
      received := received + [u];
      assert received[..|received| - 1] == old(received);
      NewIsAbsent(digest, State(), w, u);
      LastAfterPush(accepted, u, SHOWN);
      if u.text == "" { return false; }
      var fingerprint, updateId := Fingerprint(digest, u), Key(digest, u);
      if updateId in updates || fingerprint in fingerprints { return false; }
      AddKeepsAgreement(digest, State(), w, u);
      updates := updates[updateId := u];
      order := order + [updateId];
      fingerprints := fingerprints + {fingerprint};
      w := w + [u];
      while |order| > SHOWN
        invariant received == old(received) + [u]
        invariant Describes(digest, State(), w)
        invariant Last(w, SHOWN) == Shown()
      {
        EvictKeepsAgreement(digest, State(), w);
        LastAfterDrop(w, SHOWN);
        var oldId := order[0];
        order := order[1..];
        if oldId in updates {
          var oldUpdate := updates[oldId];
          updates := updates - {oldId};
          fingerprints := fingerprints - {Fingerprint(digest, oldUpdate)};
        }
        w := w[1..];
      }
      return true;
    }

    /** The view: the last thirty accepted updates, newest first. */
    method ClipboardUpdates() returns (view: seq<Update>)
      requires Valid()
      ensures view == Reversed(Shown())
    {
      view := [];
      var i := |order|;
      while i > 0
        invariant 0 <= i <= |order|
        invariant |view| == |order| - i
        invariant forall j :: 0 <= j < |view| ==> view[j] == Shown()[|order| - 1 - j]
      {
        i := i - 1;
        if order[i] in updates { view := view + [updates[order[i]]]; }
      }
    }
  }

  // ---------------------------------------------------------------------------
  // Whole runs
  // ---------------------------------------------------------------------------

  /** No two of the updates being shown share an id or a fingerprint, whatever was received. */
  lemma {:induction false} ShownAreDistinct(digest: Digest, received: seq<Update>)
    ensures Distinct(digest, Last(Accepted(digest, received), SHOWN))
  {
    if received != [] {
      var k := |received| - 1;
      var u, before := received[k], Accepted(digest, received[..k]);
      var w := Last(before, SHOWN);
      ShownAreDistinct(digest, received[..k]);
      if Accept(digest, before, u) != before {
        AddedIsDistinct(digest, w, u);
        var all := w + [u];
        assert Last(before + [u], SHOWN) == if |all| <= SHOWN then all else all[1..];
      }
    }
  }

  lemma AddedIsDistinct(digest: Digest, w: seq<Update>, u: Update)
    requires Distinct(digest, w) && IsNew(digest, w, u)
    ensures Distinct(digest, w + [u])
  {
    forall i | 0 <= i < |w|
      ensures Key(digest, w[i]) != Key(digest, u) && Fingerprint(digest, w[i]) != Fingerprint(digest, u)
    {
      assert Keys(digest, w)[i] != Key(digest, u) && Fingerprints(digest, w)[i] != Fingerprint(digest, u);
    }
  }

  /** After an update with text arrives, it or an update with its id or its content is shown. */
  lemma {:induction false} CopiesAreShown(digest: Digest, received: seq<Update>, u: Update) returns (v: Update)
    requires u.text != ""
    ensures v in Last(Accepted(digest, received + [u]), SHOWN)
    ensures v == u || Key(digest, v) == Key(digest, u) || Fingerprint(digest, v) == Fingerprint(digest, u)
  {
    var all := received + [u];
    assert all[..|all| - 1] == received;
    var accepted := Accepted(digest, received);
    var w := Last(accepted, SHOWN);
    if IsNew(digest, w, u) {
      v := u;
      var after := Last(accepted + [u], SHOWN);
      assert after[|after| - 1] == u;
    } else if Key(digest, u) in Keys(digest, w) {
      var i :| 0 <= i < |w| && Keys(digest, w)[i] == Key(digest, u);
      v := w[i];
    } else {
      var i :| 0 <= i < |w| && Fingerprints(digest, w)[i] == Fingerprint(digest, u);
      v := w[i];
    }
  }

  lemma AcceptedOneMore(digest: Digest, received: seq<Update>, u: Update)
    ensures Accepted(digest, received + [u]) == Accept(digest, Accepted(digest, received), u)
  {
    assert (received + [u])[..|received|] == received;
  }

  lemma ShownIsIgnored(digest: Digest, accepted: seq<Update>, u: Update)
    requires u in Last(accepted, SHOWN)
    ensures Accept(digest, accepted, u) == accepted
  {
    var w := Last(accepted, SHOWN);
    var i :| 0 <= i < |w| && w[i] == u;
    assert Keys(digest, w)[i] == Key(digest, u);
  }

  /** Sending the same updates again while they are all still shown changes nothing. */
  lemma {:induction false} ShownUpdatesAreIgnored(digest: Digest, received: seq<Update>, again: seq<Update>)
    requires forall u <- again :: u in Last(Accepted(digest, received), SHOWN)
    ensures Accepted(digest, received + again) == Accepted(digest, received)
    decreases |again|
  {
    if again == [] {
      assert received + again == received;
    } else {
      var k := |again| - 1;
      assert received + again == (received + again[..k]) + [again[k]];
      AcceptedOneMore(digest, received + again[..k], again[k]);
      ShownUpdatesAreIgnored(digest, received, again[..k]);
      assert again[k] in again;
      ShownIsIgnored(digest, Accepted(digest, received), again[k]);
    }
  }
}
