/** How the CAEN file writer chooses its next set of file names (`FileGenerator::next`). */
module CaenNaming {
  type Name = string

  datatype Policy = Overwrite | NextFilenames | StopWriting

  datatype Error =
    | NoError
    | ConflictFilesystem
    | ConflictGenerated
    | NotChanged
    | NotOpened
    | MaxTotalReached

  type Positive = n: nat | n > 0 witness 1

  // What one call sees: the names for each file number at this moment, the number of file numbers, the names that exist
  // in the file system, the policy, and the names of the previous set.
  datatype Call = Call(names: nat -> seq<Name>, modulus: Positive, existing: set<Name>, policy: Policy,
                       previous: seq<Name>)

  ghost predicate Distinct(names: seq<Name>) {
    forall i, j :: 0 <= i < j < |names| ==> names[i] != names[j]
  }

  ghost predicate Exist(call: Call, names: seq<Name>) {
    exists n <- names :: n in call.existing
  }

  datatype Verdict = Accept | Reject(error: Error) | Retry

  /** One round of the loop for the names of one file number. */
  ghost function Judge(call: Call, names: seq<Name>): Verdict {
    if !Distinct(names) then Reject(ConflictGenerated)
    else if !Exist(call, names) then Accept
    else
      match call.policy
      case Overwrite => Accept
      case StopWriting => Reject(ConflictFilesystem)
      case NextFilenames => if Distinct(names + call.previous) then Retry else Reject(NotChanged)
  }

  /** The file number after `f`; the counter wraps around. */
  function Next(f: nat, modulus: Positive): nat {
    if f + 1 == modulus then 0 else f + 1
  }

  function Nth(f: nat, j: nat, modulus: Positive): nat {
    if j == 0 then f else Next(Nth(f, j - 1, modulus), modulus)
  }

  ghost predicate Decides(call: Call, f: nat, j: nat) {
    Judge(call, call.names(Nth(f, j, call.modulus))) != Retry
  }

  /** The first number, counted from `f`, at which the loop stops. */
  ghost predicate FirstDecision(call: Call, f: nat, j: nat) {
    Decides(call, f, j) && forall i :: 0 <= i < j ==> !Decides(call, f, i)
  }

  /** The loop ends exactly when some number makes it stop. */
  ghost predicate Terminates(call: Call, f: nat) {
    exists j: nat :: Decides(call, f, j)
  }

  lemma {:induction false} FirstExists(call: Call, f: nat, j: nat) returns (first: nat)
    requires Decides(call, f, j)
    ensures first <= j && FirstDecision(call, f, first)
  {
    if i: nat :| i < j && Decides(call, f, i) {
      first := FirstExists(call, f, i);
    } else {
      first := j;
    }
  }

  // The outcome: names or an error, and the file number to use next.
  datatype Result = Result(filenames: seq<Name>, error: Error, filenum: nat)

  /** What the caller gets when the loop stops at the j-th number. */
  ghost predicate Outcome(call: Call, f: nat, j: nat, r: Result) {
    var names := call.names(Nth(f, j, call.modulus));
    && FirstDecision(call, f, j)
    && r.filenum == Nth(f, j + 1, call.modulus)
    && (if Judge(call, names) == Accept then r.filenames == names && r.error == NoError
        else r.filenames == [] && Judge(call, names) == Reject(r.error))
  }

  /** The promises of a call, whatever the policy. */
  ghost predicate Promised(call: Call, r: Result) {
    && (r.error == NoError ==> Distinct(r.filenames) && (call.policy != Overwrite ==> !Exist(call, r.filenames)))
    && (r.error != NoError ==> r.filenames == [])
    && (r.error == ConflictFilesystem ==> call.policy == StopWriting)
    && (r.error == NotChanged ==> call.policy == NextFilenames && call.previous != [])
    && r.error != NotOpened && r.error != MaxTotalReached
  }

  lemma OutcomePromised(call: Call, f: nat, j: nat, r: Result)
    requires Outcome(call, f, j, r)
    ensures Promised(call, r)
  {
    var names := call.names(Nth(f, j, call.modulus));
    assert names + [] == names;
  }

  /** The names of the i-th number are distinct, some of them exist, and the policy is to go on to other names. */
  ghost predicate PassedOver(call: Call, f: nat, i: nat) {
    var names := call.names(Nth(f, i, call.modulus));
    Distinct(names) && Exist(call, names) && call.policy == NextFilenames && Distinct(names + call.previous)
  }

  /** What the outcome means for the names proposed: every number before the last was passed over; the last one decides,
      and the error tells why. */
  lemma OutcomeMeans(call: Call, f: nat, j: nat, r: Result)
    requires Outcome(call, f, j, r)
    ensures forall i :: 0 <= i < j ==> PassedOver(call, f, i)
    ensures var names := call.names(Nth(f, j, call.modulus));
            && (r.error == ConflictGenerated <==> !Distinct(names))
            && (r.error == ConflictFilesystem <==> Distinct(names) && Exist(call, names) && call.policy == StopWriting)
            && (r.error == NotChanged <==>
                  Distinct(names) && Exist(call, names) && call.policy == NextFilenames
                  && !Distinct(names + call.previous))
            && (r.error == NoError <==> Distinct(names) && (call.policy == Overwrite || !Exist(call, names)))
            && r.filenames == (if r.error == NoError then names else [])
            && r.filenum == Nth(f, j + 1, call.modulus)
  {
    hide Distinct, Exist;
    forall i | 0 <= i < j ensures PassedOver(call, f, i) {
      assert !Decides(call, f, i);
    }
  }

  method HasDuplicate(names: seq<Name>) returns (found: bool)
    ensures found <==> !Distinct(names)
  {
    for i := 0 to |names|
      invariant Distinct(names[..i])
    {
      for j := 0 to i
        invariant forall k :: 0 <= k < j ==> names[k] != names[i]
      {
        if names[j] == names[i] {
          return true;
        }
      }
      assert names[..i + 1] == names[..i] + [names[i]];
    }
    assert names[..|names|] == names;
    return false;
  }

  method AnyExists(names: seq<Name>, existing: set<Name>) returns (found: bool)
    ensures found <==> exists n <- names :: n in existing
  {
    for i := 0 to |names|
      invariant forall k :: 0 <= k < i ==> names[k] !in existing
    {
      if names[i] in existing {
        return true;
      }
    }
    return false;
  }

  /** Looks for file names from number `filenum` on. The only demand on the caller is that the search ends. */
  method NextFiles(call: Call, filenum: nat) returns (r: Result, ghost round: nat)
    requires Terminates(call, filenum)
    ensures Outcome(call, filenum, round, r) && Promised(call, r)
  {
    ghost var limit: nat :| Decides(call, filenum, limit);
    ghost var last := FirstExists(call, filenum, limit);
    round := 0;
    var f := filenum;
    while true
      invariant round <= last && f == Nth(filenum, round, call.modulus)
      invariant forall i :: 0 <= i < round ==> !Decides(call, filenum, i)
      decreases last - round
    {
      var names := call.names(f);
      f := Next(f, call.modulus);
      r := Result([], NoError, f);
      var duplicate := HasDuplicate(names);
      var conflict := AnyExists(names, call.existing);
      if duplicate {
        r := r.(error := ConflictGenerated);
        break;
      }
      if !conflict || call.policy == Overwrite {
        r := r.(filenames := names);
        break;
      }
      if call.policy == StopWriting {
        r := r.(error := ConflictFilesystem);
        break;
      }
      var repeated := HasDuplicate(names + call.previous);
      if repeated {
        r := r.(error := NotChanged);
        break;
      }
      assert !Decides(call, filenum, round);
      round := round + 1;
    }
    OutcomePromised(call, filenum, round, r);
  }

  // --- when the loop ends ---

  lemma {:induction false} NthIs(f: nat, j: nat, modulus: Positive)
    requires f < modulus && j < modulus
    ensures Nth(f, j, modulus) == if f + j < modulus then f + j else f + j - modulus
  {
    if j > 0 {
      NthIs(f, j - 1, modulus);
    }
  }

  /** Different file numbers give different names. */
  ghost predicate Disjoint(call: Call) {
    forall f: nat, g: nat :: f < g < call.modulus ==> NoCommon(call.names(f), call.names(g))
  }

  ghost predicate NoCommon(a: seq<Name>, b: seq<Name>) {
    forall n <- a :: n !in b
  }

  ghost predicate NamedBefore(call: Call, f: nat, k: nat, n: Name) {
    exists j :: 0 <= j < k && n in call.names(Nth(f, j, call.modulus))
  }

  /** One existing name for each of the first `k` numbers, all different. */
  lemma {:induction false} Hits(call: Call, f: nat, k: nat) returns (hits: set<Name>)
    requires Disjoint(call) && f < call.modulus && k <= call.modulus
    requires forall j :: 0 <= j < k ==> !Decides(call, f, j)
    ensures |hits| == k && hits <= call.existing
    ensures forall n <- hits :: NamedBefore(call, f, k, n)
  {
    hide Nth, Decides;
    if k == 0 {
      return {};
    }
    var front := Hits(call, f, k - 1);
    var n := RetryHits(call, f, k - 1);
    forall m <- front ensures m != n && NamedBefore(call, f, k, m) {
      assert NamedBefore(call, f, k - 1, m);
      var j :| 0 <= j < k - 1 && m in call.names(Nth(f, j, call.modulus));
      OtherNames(call, f, j, k - 1);
    }
    assert NamedBefore(call, f, k, n);
    hits := front + {n};
  }

  lemma RetryHits(call: Call, f: nat, j: nat) returns (n: Name)
    requires !Decides(call, f, j)
    ensures n in call.names(Nth(f, j, call.modulus)) && n in call.existing
  {
    n :| n in call.names(Nth(f, j, call.modulus)) && n in call.existing;
  }

  lemma OtherNames(call: Call, f: nat, i: nat, j: nat)
    requires Disjoint(call) && f < call.modulus && i < j < call.modulus
    ensures NoCommon(call.names(Nth(f, i, call.modulus)), call.names(Nth(f, j, call.modulus)))
  {
    NthIs(f, i, call.modulus);
    NthIs(f, j, call.modulus);
    var a, b := Nth(f, i, call.modulus), Nth(f, j, call.modulus);
    assert if a < b then NoCommon(call.names(a), call.names(b)) else NoCommon(call.names(b), call.names(a));
  }

  /** With different names for different numbers the search ends after at most one round more than there are files. */
  lemma TerminatesIfDisjoint(call: Call, f: nat)
    requires Disjoint(call) && f < call.modulus && |call.existing| < call.modulus
    ensures exists j :: 0 <= j <= |call.existing| && Decides(call, f, j)
    ensures Terminates(call, f)
  {
    var k := |call.existing| + 1;
    if forall j :: 0 <= j < k ==> !Decides(call, f, j) {
      var hits := Hits(call, f, k);
      Subset(hits, call.existing);
      assert false;
    }
  }

  lemma Subset(a: set<Name>, b: set<Name>)
    requires a <= b
    ensures |a| <= |b|
  {
    assert b == a + (b - a);
  }

  /** Without a file number in the pattern, and with no previous names as in every call the writer makes, the search for
      other names never ends once one of the names exists: the check for changed names compares with nothing. */
  lemma ConstantNamesTerminateIff(call: Call, f: nat, names: seq<Name>)
    requires (forall g: nat :: call.names(g) == names) && call.previous == []
    ensures Terminates(call, f) <==> !(call.policy == NextFilenames && Distinct(names) && Exist(call, names))
  {
    assert names + [] == names;
    if !(call.policy == NextFilenames && Distinct(names) && Exist(call, names)) {
      assert Decides(call, f, 0);
    }
  }
}
