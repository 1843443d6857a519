/**
  Sequence numbers and frame counters of one encrypted session.  The read loop and the
  pump both draw a number under one lock and write under another, so another thread may
  draw or write in between.
*/
module TransportSequence {
  type Thread = nat

  const FIRST: nat := 100

  /** The shared source of sequence numbers; `Next` runs under its lock. */
  class SequenceNumbers {
    var next: nat

    constructor ()
      ensures next == FIRST
    {
      next := FIRST;
    }

    method Next() returns (current: nat)
      modifies this
      ensures current == old(next) && next == current + 1
    {
      current := next;
      next := next + 1;
    }
  }

  /**
    A frame that a write has handed to the buffered stream, at least in part, and whether the
    write then succeeded.
   */
  datatype Handed = Handed(counter: nat, sequence: nat, succeeded: bool)

  /** The frames handed over, in order; the first `out` of them have bytes on the wire. */
  datatype State = State(
    next: nat,
    held: map<Thread, nat>,      // drawn and not yet written
    sendCounter: nat,
    handed: seq<Handed>,
    out: nat)

  datatype Action =
    | Draw(thread: Thread)
    | Write(thread: Thread)             // a successful write, whose flush empties the stream's buffer
    | Fail(thread: Thread, out: nat)    // a write that failed once its frame had been handed over
    | GiveUp(thread: Thread)            // a write that failed before: the envelope could not be sealed
    | Drain(out: nat)                   // closing the stream lets more of its buffer go

  const INITIAL := State(FIRST, map[], 0, [], 0)

  /** Buffered frames leave in order, at the failure, with the next write or at the end. */
  predicate Enabled(s: State, a: Action) {
    match a
    case Draw(t) => t !in s.held
    case Write(t) => t in s.held
    case Fail(t, out) => t in s.held && s.out <= out <= |s.handed| + 1
    case GiveUp(t) => t in s.held
    case Drain(out) => s.out <= out <= |s.handed|
  }

  function Step(s: State, a: Action): State
    requires Enabled(s, a)
  {
    match a
    case Draw(t) => s.(held := s.held[t := s.next], next := s.next + 1)
    case Write(t) =>
      s.(held := s.held - {t}, handed := s.handed + [Handed(s.sendCounter, s.held[t], true)],
         out := |s.handed| + 1, sendCounter := s.sendCounter + 1)
    case Fail(t, out) =>
      s.(held := s.held - {t}, handed := s.handed + [Handed(s.sendCounter, s.held[t], false)], out := out)
    case GiveUp(t) => s.(held := s.held - {t})
    case Drain(out) => s.(out := out)
  }

  ghost predicate Run(s: State, actions: seq<Action>, t: State)
    decreases |actions|
  {
    if actions == [] then s == t
    else Enabled(s, actions[0]) && Run(Step(s, actions[0]), actions[1..], t)
  }

  /** The frames of which bytes are on the wire. */
  function Wire(s: State): (wire: seq<Handed>)
    requires s.out <= |s.handed|
  {
    s.handed[..s.out]
  }

  /** What each action changes of the numbers, the frames and what has left the buffer. */
  lemma ChangesExactly(s: State, a: Action, u: Thread)
    requires Enabled(s, a)
    ensures var t := Step(s, a);
      && t.next == s.next + (if a.Draw? then 1 else 0)
      && t.sendCounter == s.sendCounter + (if a.Write? then 1 else 0)
      && t.handed == s.handed +
           (if a.Write? || a.Fail? then [Handed(s.sendCounter, s.held[a.thread], a.Write?)] else [])
      && t.out == (if a.Write? then |s.handed| + 1 else if a.Fail? || a.Drain? then a.out else s.out)
      && (u in t.held <==> a == Draw(u) || (u in s.held && (a.Drain? || a.thread != u)))
      && (u in t.held ==> t.held[u] == if a == Draw(u) then s.next else s.held[u])
  {
    assert s.handed + [] == s.handed;
  }

  /** How many numbers have been drawn. */
  function Draws(actions: seq<Action>): nat {
    if actions == [] then 0 else (if actions[0].Draw? then 1 else 0) + Draws(actions[1..])
  }

  lemma {:induction false} RunDraws(s: State, actions: seq<Action>, t: State)
    requires Run(s, actions, t)
    ensures t.next == s.next + Draws(actions)
    decreases |actions|
  {
    if actions != [] { RunDraws(Step(s, actions[0]), actions[1..], t); }
  }

  /** The numbers are drawn one after another from 100 on: a thread that draws after `n` others gets 100 + n. */
  lemma NumbersAreConsecutive(actions: seq<Action>, t: State, u: Thread)
    requires Run(INITIAL, actions, t) && Enabled(t, Draw(u))
    ensures u in Step(t, Draw(u)).held && Step(t, Draw(u)).held[u] == 100 + Draws(actions)
  {
    RunDraws(INITIAL, actions, t);
  }

  // ---------------------------------------------------------------------------
  // Sequence numbers
  // ---------------------------------------------------------------------------

  ghost predicate Unique(s: State) {
    && s.next >= FIRST
    && (forall k :: 0 <= k < |s.handed| ==> FIRST <= s.handed[k].sequence < s.next)
    && (forall j, k :: 0 <= j < k < |s.handed| ==> s.handed[j].sequence != s.handed[k].sequence)
    && (forall t <- s.held :: FIRST <= s.held[t] < s.next)
    && (forall t, u :: t in s.held && u in s.held && t != u ==> s.held[t] != s.held[u])
    && (forall t, k :: t in s.held && 0 <= k < |s.handed| ==> s.held[t] != s.handed[k].sequence)
  }

  lemma WriteKeepsUnique(s: State, a: Action)
    requires (a.Write? || a.Fail?) && Enabled(s, a) && Unique(s)
    ensures Unique(Step(s, a))
  {
  }

  lemma StepKeepsUnique(s: State, a: Action)
    requires Enabled(s, a) && Unique(s)
    ensures Unique(Step(s, a))
  {
    if a.Write? || a.Fail? { WriteKeepsUnique(s, a); }
  }

  // ---------------------------------------------------------------------------
  // Counters
  // ---------------------------------------------------------------------------

  /** How many of the writes succeeded. */
  function Successes(handed: seq<Handed>): (n: nat)
    ensures n <= |handed|
  {
    if handed == [] then 0 else Successes(handed[..|handed| - 1]) + if handed[|handed| - 1].succeeded then 1 else 0
  }

  /** Each frame carries the number of successful writes before it. */
  ghost predicate Numbered(handed: seq<Handed>) {
    forall k :: 0 <= k < |handed| ==> handed[k].counter == Successes(handed[..k])
  }

  ghost predicate Counted(s: State) {
    s.sendCounter == Successes(s.handed) && Numbered(s.handed) && s.out <= |s.handed|
  }

  lemma NumberedPush(handed: seq<Handed>, x: Handed)
    requires Numbered(handed) && x.counter == Successes(handed)
    ensures Numbered(handed + [x]) && Successes(handed + [x]) == Successes(handed) + if x.succeeded then 1 else 0
  {
    var all := handed + [x];
    assert all[..|handed|] == handed;
    forall k | 0 <= k < |all| ensures all[k].counter == Successes(all[..k]) {
      if k < |handed| { assert all[..k] == handed[..k]; }
    }
  }

  lemma StepKeepsCounted(s: State, a: Action)
    requires Enabled(s, a) && Counted(s)
    ensures Counted(Step(s, a))
  {
    if a.Write? || a.Fail? { NumberedPush(s.handed, Handed(s.sendCounter, s.held[a.thread], a.Write?)); }
  }

  lemma {:induction false} RunKeeps(s: State, actions: seq<Action>, t: State)
    requires Unique(s) && Counted(s) && Run(s, actions, t)
    ensures Unique(t) && Counted(t)
    decreases |actions|
  {
    if actions != [] {
      StepKeepsUnique(s, actions[0]);
      StepKeepsCounted(s, actions[0]);
      RunKeeps(Step(s, actions[0]), actions[1..], t);
    }
  }

  lemma {:induction false} SuccessesGrow(handed: seq<Handed>, j: nat, k: nat)
    requires j <= k <= |handed|
    ensures Successes(handed[..j]) <= Successes(handed[..k])
    ensures j < k && handed[j].succeeded ==> Successes(handed[..j]) < Successes(handed[..k])
    decreases k
  {
    if j < k {
      assert handed[..k][..k - 1] == handed[..k - 1];
      SuccessesGrow(handed, j, k - 1);
    }
  }

  lemma {:induction false} AllSucceeded(handed: seq<Handed>, k: nat)
    requires k <= |handed| && forall i :: 0 <= i < k ==> handed[i].succeeded
    ensures Successes(handed[..k]) == k
  {
    if k > 0 {
      assert handed[..k][..k - 1] == handed[..k - 1];
      AllSucceeded(handed, k - 1);
    }
  }

  /**
    However the threads interleave, the sequence numbers handed to the stream are at least
    100 and all different, and as long as every write succeeded the k-th frame has counter k.
   */
  lemma CountersInOrderSequencesDistinct(actions: seq<Action>, t: State, j: nat, k: nat)
    requires Run(INITIAL, actions, t) && j < |t.handed| && k < |t.handed|
    ensures (forall i :: 0 <= i < k ==> t.handed[i].succeeded) ==> t.handed[k].counter == k
    ensures t.handed[k].sequence >= 100
    ensures j != k ==> t.handed[j].sequence != t.handed[k].sequence
  {
    RunKeeps(INITIAL, actions, t);
    if forall i :: 0 <= i < k ==> t.handed[i].succeeded { AllSucceeded(t.handed, k); }
  }

  /** Nothing follows a frame whose write failed. */
  ghost predicate FailedOnlyLast(frames: seq<Handed>) {
    forall k :: 0 <= k < |frames| - 1 ==> frames[k].succeeded
  }

  ghost predicate CountersDistinct(frames: seq<Handed>) {
    forall j, k :: 0 <= j < k < |frames| ==> frames[j].counter != frames[k].counter
  }

  lemma SucceededThenDistinct(frames: seq<Handed>)
    requires Numbered(frames) && FailedOnlyLast(frames)
    ensures CountersDistinct(frames)
  {
    forall j, k | 0 <= j < k < |frames| ensures frames[j].counter != frames[k].counter {
      SuccessesGrow(frames, j, k);
    }
  }

  lemma FailedThenReused(frames: seq<Handed>, k: nat)
    requires Numbered(frames) && k < |frames| - 1 && !frames[k].succeeded
    ensures frames[k].counter == frames[k + 1].counter
  {
    assert frames[..k + 1][..k] == frames[..k];
  }

  lemma DistinctExactly(frames: seq<Handed>)
    requires Numbered(frames)
    ensures CountersDistinct(frames) <==> FailedOnlyLast(frames)
  {
    if FailedOnlyLast(frames) {
      SucceededThenDistinct(frames);
    } else {
      var k :| 0 <= k < |frames| - 1 && !frames[k].succeeded;
      FailedThenReused(frames, k);
    }
  }

  lemma NumberedPrefix(handed: seq<Handed>, n: nat)
    requires Numbered(handed) && n <= |handed|
    ensures Numbered(handed[..n])
  {
    forall k | 0 <= k < n ensures handed[..n][k].counter == Successes(handed[..n][..k]) {
      assert handed[..n][..k] == handed[..k];
    }
  }

  /**
    Exactly when no counter, and so no nonce, is given to two frames: when nothing was
    written after a write that failed once its frame had been handed to the stream.  The
    same holds of the frames of which bytes are on the wire.
   */
  lemma CountersDistinctExactly(actions: seq<Action>, t: State)
    requires Run(INITIAL, actions, t)
    ensures t.out <= |t.handed|
    ensures CountersDistinct(t.handed) <==> FailedOnlyLast(t.handed)
    ensures CountersDistinct(Wire(t)) <==> FailedOnlyLast(Wire(t))
  {
    RunKeeps(INITIAL, actions, t);
    DistinctExactly(t.handed);
    NumberedPrefix(t.handed, t.out);
    DistinctExactly(Wire(t));
  }

  /**
    And runs that give one to two frames on the wire: a write fails in its flush, with or
    without bytes out, and another thread's write sends what is left together with its own frame.
   */
  lemma FailedWriteReusesCounter(out: nat) returns (actions: seq<Action>, t: State)
    requires out <= 1
    ensures actions == [Draw(0), Draw(1), Fail(0, out), Write(1)] && Run(INITIAL, actions, t)
    ensures t.out == |t.handed| == 2 && t.handed[0].counter == t.handed[1].counter
  {
    var a, b, c, d := Draw(0), Draw(1), Fail(0, out), Write(1);
    actions := [a, b, c, d];
    var s1 := Step(INITIAL, a);
    var s2 := Step(s1, b);
    var s3 := Step(s2, c);
    t := Step(s3, d);
    assert actions[1..] == [b, c, d] && [b, c, d][1..] == [c, d] && [c, d][1..] == [d] && [d][1..] == [];
    assert Run(t, [], t);
    assert Run(s3, [d], t);
    assert Run(s2, [c, d], t);
    assert Run(s1, [b, c, d], t);
  }
}
