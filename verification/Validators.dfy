/** Snapshot order of the validator set: an attestation's bit i always names the vote key of
    validator i, because addresses and keys are sorted as pairs. */
module Validators {
  import opened Base
  import opened Vote
  import opened Headers
  import opened Lex
  import opened Snapshot
  import opened Runs

  predicate LessAt(s: seq<Address>, i: nat, j: nat)
    requires i < |s| && j < |s|
  {
    Less(s[i].bytes, s[j].bytes)
  }

  /** Strictly increasing: sorted, and no address twice. */
  predicate Increasing(s: seq<Address>) {
    forall i: nat, j: nat | i < j < |s| :: LessAt(s, i, j)
  }

  // ----- sorting -----

  lemma {:induction false} InsertPermutes(v: SealingValidator, s: seq<SealingValidator>)
    ensures multiset(InsertValidator(v, s)) == multiset(s) + multiset{v}
  {
    if s != [] && Less(s[0].address.bytes, v.address.bytes) {
      InsertPermutes(v, s[1..]);
      FirstApart(s);
    }
  }

  lemma FirstApart(s: seq<SealingValidator>)
    requires s != []
    ensures multiset(s) == multiset(s[1..]) + multiset{s[0]}
  {
    assert s == [s[0]] + s[1..];
  }

  /** Sorting loses no validator, adds none, and keeps every key with its address. */
  lemma {:induction false} SortPermutes(vals: seq<SealingValidator>)
    ensures multiset(SortValidators(vals)) == multiset(vals)
  {
    if vals != [] {
      SortPermutes(vals[1..]);
      InsertPermutes(vals[0], SortValidators(vals[1..]));
      FirstApart(vals);
    }
  }

  lemma MembersKept(vals: seq<SealingValidator>, v: SealingValidator)
    ensures v in SortValidators(vals) <==> v in vals
  {
    SortPermutes(vals);
    assert v in SortValidators(vals) <==> v in multiset(SortValidators(vals));
    assert v in vals <==> v in multiset(vals);
  }

  lemma ConsIncreasing(a: Address, rest: seq<Address>)
    requires Increasing(rest) && (rest != [] ==> Less(a.bytes, rest[0].bytes))
    ensures Increasing([a] + rest)
  {
    var all := [a] + rest;
    forall i: nat, j: nat | i < j < |all|
      ensures LessAt(all, i, j)
    {
      if i > 0 {
        assert LessAt(rest, i - 1, j - 1);
      } else if j > 1 {
        assert LessAt(rest, 0, j - 1);
        Transitive(a.bytes, rest[0].bytes, rest[j - 1].bytes);
      }
    }
  }

  lemma TailIncreasing(s: seq<Address>)
    requires Increasing(s) && s != []
    ensures Increasing(s[1..])
  {
    forall i: nat, j: nat | i < j < |s[1..]|
      ensures LessAt(s[1..], i, j)
    {
      assert LessAt(s, i + 1, j + 1);
    }
  }

  lemma AddressesOfCons(v: SealingValidator, s: seq<SealingValidator>)
    ensures AddressesOf([v] + s) == [v.address] + AddressesOf(s)
  {
  }

  lemma AddressesOfTail(s: seq<SealingValidator>)
    requires s != []
    ensures AddressesOf(s)[0] == s[0].address && AddressesOf(s)[1..] == AddressesOf(s[1..])
  {
  }

  lemma {:induction false} InsertIncreasing(v: SealingValidator, s: seq<SealingValidator>)
    requires Increasing(AddressesOf(s)) && v.address !in AddressesOf(s)
    ensures Increasing(AddressesOf(InsertValidator(v, s)))
    ensures AddressesOf(InsertValidator(v, s))[0] == v.address || (s != [] && AddressesOf(InsertValidator(v, s))[0] == s[0].address)
  {
    var a := AddressesOf(s);
    if s == [] || !Less(s[0].address.bytes, v.address.bytes) {
      AddressesOfCons(v, s);
      if s != [] {
        Trichotomy(v.address.bytes, a[0].bytes);
      }
      ConsIncreasing(v.address, a);
    } else {
      TailIncreasing(a);
      AddressesOfTail(s);
      InsertIncreasing(v, s[1..]);
      var r := InsertValidator(v, s[1..]);
      AddressesOfCons(s[0], r);
      if |s| > 1 { assert LessAt(a, 0, 1); }
      ConsIncreasing(s[0].address, AddressesOf(r));
    }
  }

  lemma SortedAddresses(vals: seq<SealingValidator>, a: Address)
    requires a in AddressesOf(SortValidators(vals))
    ensures a in AddressesOf(vals)
  {
    var r := SortValidators(vals);
    var i :| 0 <= i < |r| && AddressesOf(r)[i] == a;
    MembersKept(vals, r[i]);
    var j :| 0 <= j < |vals| && vals[j] == r[i];
    assert AddressesOf(vals)[j] == a;
  }

  /** Distinct addresses come out strictly increasing. */
  lemma {:induction false} SortIncreasing(vals: seq<SealingValidator>)
    requires DistinctAddresses(vals)
    ensures Increasing(AddressesOf(SortValidators(vals)))
  {
    if vals != [] {
      SortIncreasing(vals[1..]);
      if vals[0].address in AddressesOf(SortValidators(vals[1..])) {
        SortedAddresses(vals[1..], vals[0].address);
      }
      InsertIncreasing(vals[0], SortValidators(vals[1..]));
    }
  }

  // ----- the order depends on addresses alone -----

  lemma {:induction false} InsertAlike(v: SealingValidator, w: SealingValidator, s: seq<SealingValidator>, t: seq<SealingValidator>)
    requires v.address == w.address && AddressesOf(s) == AddressesOf(t)
    ensures AddressesOf(InsertValidator(v, s)) == AddressesOf(InsertValidator(w, t))
  {
    AddressesOfCons(v, s);
    AddressesOfCons(w, t);
    if s != [] {
      AddressesOfTail(s);
      AddressesOfTail(t);
      if Less(s[0].address.bytes, v.address.bytes) {
        InsertAlike(v, w, s[1..], t[1..]);
        AddressesOfCons(s[0], InsertValidator(v, s[1..]));
        AddressesOfCons(t[0], InsertValidator(w, t[1..]));
      }
    }
  }

  lemma {:induction false} SortAlike(s: seq<SealingValidator>, t: seq<SealingValidator>)
    requires AddressesOf(s) == AddressesOf(t)
    ensures AddressesOf(SortValidators(s)) == AddressesOf(SortValidators(t))
  {
    if s != [] {
      AddressesOfTail(s);
      AddressesOfTail(t);
      SortAlike(s[1..], t[1..]);
      InsertAlike(s[0], t[0], SortValidators(s[1..]), SortValidators(t[1..]));
    }
  }

  // ----- every run -----

  /** Validators in strict order, and the vote set, when known, in the very same order. */
  ghost predicate Aligned(s: Snap) {
    Increasing(s.validators) && (s.voteSet != [] ==> AddressesOf(s.voteSet) == s.validators) &&
    (s.pending.Some? ==> Increasing(s.pending.value.validators) && |s.pending.value.voteKeys| == |s.pending.value.validators|)
  }

  lemma ZipAddresses(a: seq<Address>, keys: seq<VoteKey>)
    requires |a| == |keys|
    ensures AddressesOf(Zip(a, keys)) == a
  {
  }

  predicate DistinctSet(s: seq<Address>) {
    forall i, j | 0 <= i < j < |s| :: s[i] != s[j]
  }

  /** A checkpoint with distinct sealers boots aligned, whatever order it lists them in. */
  lemma CheckpointAligned(cp: Checkpoint, turnLength: nat)
    requires DistinctSet(cp.sealingSet)
    ensures Aligned(FromCheckpoint(cp))
    ensures SeedTurnLength(FromCheckpoint(cp), turnLength).Some? ==> Aligned(SeedTurnLength(FromCheckpoint(cp), turnLength).value)
  {
    var plain := Unkeyed(cp.sealingSet);
    assert AddressesOf(plain) == cp.sealingSet;
    assert forall i | 0 <= i < |plain| :: plain[i].address == cp.sealingSet[i];
    SortIncreasing(plain);
    if cp.voteKeys.Some? && |cp.voteKeys.value| == |cp.sealingSet| {
      ZipAddresses(cp.sealingSet, cp.voteKeys.value);
      SortAlike(Zip(cp.sealingSet, cp.voteKeys.value), plain);
    }
  }

  lemma {:induction false} InsertAddresses(v: SealingValidator, s: seq<SealingValidator>)
    ensures multiset(AddressesOf(InsertValidator(v, s))) == multiset(AddressesOf(s)) + multiset{v.address}
  {
    AddressesOfCons(v, s);
    if s != [] && Less(s[0].address.bytes, v.address.bytes) {
      AddressesOfTail(s);
      InsertAddresses(v, s[1..]);
      AddressesOfCons(s[0], InsertValidator(v, s[1..]));
      assert AddressesOf(s) == [s[0].address] + AddressesOf(s[1..]);
    }
  }

  lemma {:induction false} SortAddresses(vals: seq<SealingValidator>)
    ensures multiset(AddressesOf(SortValidators(vals))) == multiset(AddressesOf(vals))
  {
    if vals != [] {
      AddressesOfTail(vals);
      SortAddresses(vals[1..]);
      InsertAddresses(vals[0], SortValidators(vals[1..]));
      assert AddressesOf(vals) == [vals[0].address] + AddressesOf(vals[1..]);
    }
  }

  /** A checkpoint boots with exactly its sealers and exactly its pairs of sealer and key, on its block, with
      nothing walked and the turn length of the live forks. */
  lemma CheckpointKept(cp: Checkpoint)
    ensures var s := FromCheckpoint(cp);
            s.number == cp.number && s.hash == cp.hash && s.turnLength == 8 && s.enforceInturn && s.walkStart == cp.number + 1 &&
            multiset(s.validators) == multiset(cp.sealingSet) &&
            (cp.voteKeys.Some? && |cp.voteKeys.value| == |cp.sealingSet| ==>
               multiset(s.voteSet) == multiset(Zip(cp.sealingSet, cp.voteKeys.value))) &&
            (cp.voteKeys.None? ==> s.voteSet == [])
  {
    var plain := Unkeyed(cp.sealingSet);
    assert AddressesOf(plain) == cp.sealingSet;
    SortAddresses(plain);
    if cp.voteKeys.Some? && |cp.voteKeys.value| == |cp.sealingSet| {
      SortPermutes(Zip(cp.sealingSet, cp.voteKeys.value));
    }
  }

  lemma PendingAligned(s: Snap, h: Header, x: Extra)
    requires Aligned(s) && LayoutOk(h) && x == h.extra.value
    ensures var p := PendingAt(s, h, x); p.Some? ==> Increasing(p.value.validators) && |p.value.voteKeys| == |p.value.validators|
  {
    if IsEpoch(h.number) {
      SortIncreasing(x.validators);
    }
  }

  lemma AlignedStep(s: Snap, m: Move, t: Snap)
    requires Aligned(s) && Chains(s, m, t) && Announces(s, m, t)
    ensures Aligned(t)
  {
    if m.Take? {
      PendingAligned(s, m.header, m.extra);
      var p := PendingAt(s, m.header, m.extra);
      if Switches(p, m.header.number) {
        ZipAddresses(p.value.validators, p.value.voteKeys);
      }
    }
  }

  /** In every state of every run, bit i of an attestation over the current set is validator i's. */
  lemma {:induction false} AlignedAlways(r: Run, k: nat)
    requires IsRun(r) && k <= |r.moves| && Aligned(r.states[0])
    ensures Aligned(r.states[k])
  {
    if k > 0 {
      AlignedAlways(r, k - 1);
      assert ChainsAt(r, k - 1) && AnnouncesAt(r, k - 1);
      AlignedStep(r.states[k - 1], r.moves[k - 1], r.states[k]);
    }
  }
}
