/**
  File names of received files: the search for a free name, and temporary names.
*/
module FileNames {
  import opened Decimals
  import opened Messages

  /** The position of the last dot before `end`, or -1 when there is none. */
  function LastDot(name: string, end: nat): (i: int)
    requires end <= |name|
    ensures -1 <= i < end
  {
    if end == 0 then -1
    else if name[end - 1] == '.' then end - 1
    else LastDot(name, end - 1)
  }

  /** Where the extension starts: at the last dot unless that is the first or the last character. */
  function SuffixStart(name: string): (i: nat)
    ensures i <= |name|
  {
    var i := LastDot(name, |name|);
    if 0 < i < |name| - 1 then i else |name|
  }

  function Stem(name: string): string {
    name[..SuffixStart(name)]
  }

  function Suffix(name: string): string {
    name[SuffixStart(name)..]
  }

  function Candidate(name: string, index: nat): string {
    Stem(name) + "-" + Decimal(index) + Suffix(name)
  }

  lemma CandidatesAreDistinct(name: string, i: nat, j: nat)
    requires Candidate(name, i) == Candidate(name, j)
    ensures i == j
  {
    var lo := |Stem(name)| + 1;
    var a, b := Candidate(name, i), Candidate(name, j);
    assert a[lo..|a| - |Suffix(name)|] == Decimal(i);
    assert b[lo..|b| - |Suffix(name)|] == Decimal(j);
    DecimalIsInjective(i, j);
  }

  ghost function Candidates(name: string, n: nat): set<string> {
    set i | 1 <= i < n :: Candidate(name, i)
  }

  lemma CandidateIsNew(name: string, n: nat)
    ensures Candidate(name, n) !in Candidates(name, n)
  {
    if Candidate(name, n) in Candidates(name, n) {
      var i :| 1 <= i < n && Candidate(name, i) == Candidate(name, n);
      CandidatesAreDistinct(name, i, n);
    }
  }

  lemma {:induction false} CandidateCount(name: string, n: nat)
    requires n >= 1
    ensures |Candidates(name, n)| == n - 1
  {
    if n == 1 {
      assert Candidates(name, 1) == {};
    } else {
      CandidateCount(name, n - 1);
      CandidateIsNew(name, n - 1);
      assert Candidates(name, n) == Candidates(name, n - 1) + {Candidate(name, n - 1)};
    }
  }

  lemma SubsetSize<T>(a: set<T>, b: set<T>)
    requires a <= b
    ensures |a| <= |b|
  {
    assert b == a + (b - a);
  }

  /** A directory can hold only so many of the candidates. */
  lemma TakenCandidates(existing: set<string>, name: string, n: nat)
    requires n >= 1 && Candidates(name, n) <= existing
    ensures n - 1 <= |existing|
  {
    CandidateCount(name, n);
    SubsetSize(Candidates(name, n), existing);
  }

  /** `unique` is `name` if that is free, and otherwise its first free candidate. */
  ghost predicate IsUniqueName(existing: set<string>, name: string, unique: string) {
    && unique !in existing
    && (name !in existing ==> unique == name)
    && (name in existing ==>
          exists i :: 1 <= i && unique == Candidate(name, i) && Candidates(name, i) <= existing)
  }

  method UniqueName(existing: set<string>, name: string) returns (unique: string)
    ensures IsUniqueName(existing, name, unique)
    ensures unique == FreeName(existing, name)
  {
    if name !in existing { return name; }
    var index := 1;
    while true
      invariant index >= 1 && Candidates(name, index) <= existing
      invariant FreeIndex(existing, name, 1) == FreeIndex(existing, name, index)
      decreases |existing| + 1 - index
    {
      var candidate := Candidate(name, index);
      if candidate !in existing { return candidate; }
      NextCandidate(existing, name, index);
      index := index + 1;
    }
  }

  lemma NextCandidate(existing: set<string>, name: string, index: nat)
    requires index >= 1 && Candidates(name, index) <= existing && Candidate(name, index) in existing
    ensures Candidates(name, index + 1) <= existing && index <= |existing|
  {
    assert Candidates(name, index + 1) == Candidates(name, index) + {Candidate(name, index)};
    TakenCandidates(existing, name, index + 1);
  }

  /** The search from `index` on. */
  ghost function FreeIndex(existing: set<string>, name: string, index: nat): (i: nat)
    requires index >= 1 && Candidates(name, index) <= existing
    ensures i >= 1 && Candidates(name, i) <= existing && Candidate(name, i) !in existing
    decreases if index <= |existing| + 1 then |existing| + 1 - index else 0
  {
    if Candidate(name, index) !in existing then index
    else
      NextCandidate(existing, name, index);
      FreeIndex(existing, name, index + 1)
  }

  ghost function FreeName(existing: set<string>, name: string): string {
    if name !in existing then name
    else
      assert Candidates(name, 1) == {};
      Candidate(name, FreeIndex(existing, name, 1))
  }

  lemma FreeNameIsUnique(existing: set<string>, name: string)
    ensures IsUniqueName(existing, name, FreeName(existing, name))
  {
  }

  /** The names before `unique` in the search for a free name are taken. */
  ghost predicate EarlierTaken(existing: set<string>, name: string, unique: string) {
    || unique == name
    || (name in existing && exists i :: 1 <= i && unique == Candidate(name, i) && Candidates(name, i) <= existing)
  }

  /** Among the names whose predecessors are taken the search finds the one that is free. */
  lemma FreeNameExactly(existing: set<string>, name: string, unique: string)
    requires EarlierTaken(existing, name, unique)
    ensures FreeName(existing, name) == unique <==> unique !in existing
  {
    FreeNameIsUnique(existing, name);
    if unique !in existing && unique != name {
      var k :| 1 <= k && unique == Candidate(name, k) && Candidates(name, k) <= existing;
      assert Candidates(name, 1) == {};
      var i := FreeIndex(existing, name, 1);
      assert i < k ==> Candidate(name, i) in Candidates(name, k);
      assert k < i ==> Candidate(name, k) in Candidates(name, i);
    }
  }

  // ---------------------------------------------------------------------------
  // Names that a path cannot have
  // ---------------------------------------------------------------------------

  /** A path component made of such a string is refused when the path is built. */
  predicate HasSlash(s: string) {
    '/' in s
  }

  /** A path with such a string is refused when the file system is asked about it, except that it does not exist. */
  predicate HasNul(s: string) {
    '\0' in s
  }

  /** An id that can be part of a file's name. */
  predicate MakesPath(id: TransferId) {
    !HasSlash(id) && !HasNul(id)
  }

  /** Cleaning a name leaves letters, digits and a few marks. */
  type CleanName = name: FileName | !HasSlash(name) && !HasNul(name) witness ""

  lemma FreeNameIsClean(existing: set<string>, name: CleanName)
    ensures !HasNul(FreeName(existing, name))
  {
    if name in existing {
      assert Candidates(name, 1) == {};
      var digits := Decimal(FreeIndex(existing, name, 1));
      assert name == Stem(name) + Suffix(name);
      assert forall c <- Stem(name) :: c in name;
      assert forall c <- Suffix(name) :: c in name;
      assert forall c <- digits :: IsDigit(c);
    }
  }

  /** A temporary name has the marks of its id. */
  lemma TempNameHasNul(finalName: string, id: TransferId)
    requires !HasNul(finalName)
    ensures HasNul(TempName(finalName, id)) <==> HasNul(id)
  {
    var s := TempName(finalName, id);
    assert s[|finalName| + 1..|s| - |PART|] == id;
    assert forall c <- id :: c in s;
    assert forall c <- PART :: c in ".part";
  }

  // ---------------------------------------------------------------------------
  // Temporary names
  // ---------------------------------------------------------------------------

  const PART := ".part"

  predicate IsTemporary(name: string) {
    |name| >= |PART| && name[|name| - |PART|..] == PART
  }

  function TempName(finalName: string, id: TransferId): string {
    finalName + "." + id + PART
  }

  predicate Dotless(id: TransferId) {
    forall i :: 0 <= i < |id| ==> id[i] != '.'
  }

  lemma {:induction false} LastDotIs(s: string, at: nat, end: nat)
    requires at < end <= |s| && s[at] == '.' && forall k :: at < k < end ==> s[k] != '.'
    ensures LastDot(s, end) == at
  {
    if at < end - 1 { LastDotIs(s, at, end - 1); }
  }

  predicate HasDot(s: string) {
    '.' in s
  }

  /** A numbered name keeps its extension, what is behind its last dot, and counts behind what is before it. */
  lemma CandidateKeepsExtension(stem: string, extension: string, index: nat)
    requires stem != "" && extension != "" && !HasDot(extension)
    ensures Candidate(stem + "." + extension, index) == stem + "-" + Decimal(index) + "." + extension
  {
    var name := stem + "." + extension;
    LastDotIs(name, |stem|, |name|);
    assert name[..|stem|] == stem && name[|stem|..] == "." + extension;
    assert Candidate(name, index) == stem + "-" + Decimal(index) + ("." + extension);
  }

  lemma {:induction false} NoLastDot(s: string, end: nat)
    requires end <= |s| && !HasDot(s[..end])
    ensures LastDot(s, end) == -1
  {
    if end > 0 {
      assert s[end - 1] in s[..end];
      assert s[..end - 1] == s[..end][..end - 1];
      NoLastDot(s, end - 1);
    }
  }

  /** One without an extension, with no dot or with one only at its start or its end, counts at its end. */
  lemma CandidateWithoutExtension(name: string, index: nat)
    requires !HasDot(name) || (name[0] == '.' && !HasDot(name[1..])) || name[|name| - 1] == '.'
    ensures Candidate(name, index) == name + "-" + Decimal(index)
  {
    assert SuffixStart(name) == |name| by {
      if !HasDot(name) {
        assert name[..|name|] == name;
        NoLastDot(name, |name|);
      } else if name[|name| - 1] != '.' {
        forall k | 0 < k < |name| ensures name[k] != '.' { assert name[1..][k - 1] == name[k]; }
        LastDotIs(name, 0, |name|);
      }
    }
    assert name[..|name|] == name && name[|name|..] == "";
    assert Candidate(name, index) == name + "-" + Decimal(index) + "";
  }

  /** The final name ends where the last dot before the ending is. */
  lemma FinalNameOf(a: string, id: TransferId)
    requires Dotless(id)
    ensures var s := TempName(a, id);
      && |PART| < |s|
      && LastDot(s, |s| - |PART|) == |a|
  {
    var s := TempName(a, id);
    LastDotIs(s, |a|, |s| - |PART|);
  }

  /** Transfers with different dotless ids never share a temporary file. */
  lemma TempNamesAreDistinct(a: string, i: TransferId, b: string, j: TransferId)
    requires Dotless(i) && Dotless(j) && TempName(a, i) == TempName(b, j)
    ensures i == j && a == b
  {
    FinalNameOf(a, i);
    FinalNameOf(b, j);
    var s := TempName(a, i);
    assert s[..|a|] == a && s[..|b|] == b;
    assert s[|a| + 1..|s| - |PART|] == i && s[|b| + 1..|s| - |PART|] == j;
  }

  lemma TempNameIsTemporary(a: string, i: TransferId)
    ensures IsTemporary(TempName(a, i))
  {
  }

  lemma DigitNearTheEnd(name: string, k: nat)
    requires |name| - |PART| <= k < |name| && IsDigit(name[k])
    ensures !IsTemporary(name)
  {
    assert forall j :: 0 <= j < |PART| ==> !IsDigit(PART[j]);
    if |name| >= |PART| { assert name[|name| - |PART|..][k - (|name| - |PART|)] == name[k]; }
  }

  /** Numbering a name does not make it look temporary. */
  lemma CandidateStaysFinal(name: string, index: nat)
    requires !IsTemporary(name)
    ensures !IsTemporary(Candidate(name, index))
  {
    var digits := Decimal(index);
    var c := Stem(name) + "-" + digits + Suffix(name);
    var last := |c| - |Suffix(name)| - 1;
    assert IsDigit(c[last]) by { assert c[last] == digits[|digits| - 1]; }
    assert name == Stem(name) + Suffix(name);
    if last >= |c| - |PART| {
      DigitNearTheEnd(c, last);
    } else {
      assert c[|c| - |PART|..] == name[|name| - |PART|..];
    }
  }

  lemma FreeNameStaysFinal(existing: set<string>, name: string)
    requires !IsTemporary(name)
    ensures !IsTemporary(FreeName(existing, name))
  {
    if name in existing {
      assert Candidates(name, 1) == {};
      CandidateStaysFinal(name, FreeIndex(existing, name, 1));
    }
  }
}
