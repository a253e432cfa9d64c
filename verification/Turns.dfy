/** Whose turn it is, and how long everyone else has to wait. */
module Turns {
  import opened Base
  import opened Vote
  import opened Headers
  import opened Snapshot
  import opened Runs
  import opened Lex
  import opened Validators

  lemma SmallMultiple(d: int, t: nat)
    requires t > 0
    ensures d != 0 ==> d * t >= t || d * t + t <= 0
  {
  }

  lemma DivideUnique(x: nat, t: nat, q: nat, o: nat)
    requires t > 0 && o < t && x == q * t + o
    ensures x / t == q
  {
    assert x / t * t + x % t == x;
    SmallMultiple(x / t - q, t);
  }

  // ----- the schedule -----

  /** Height x is block o of validator i's slot in round r. */
  predicate SlotOf(x: nat, n: nat, t: nat, r: nat, i: nat, o: nat) {
    i < n && o < t && x == (r * n + i) * t + o
  }

  ghost predicate InSlot(x: nat, n: nat, t: nat, i: nat) {
    exists r: nat, o: nat :: SlotOf(x, n, t, r, i, o)
  }

  lemma SlotDivides(x: nat, n: nat, t: nat, r: nat, i: nat, o: nat)
    requires SlotOf(x, n, t, r, i, o)
    ensures x / t == r * n + i && x / t / n == r && x / t % n == i && x % t == o
  {
    DivideUnique(x, t, r * n + i, o);
    DivideUnique(r * n + i, n, r, i);
    assert x / t * t + x % t == x;
    assert x / t / n * n + x / t % n == x / t;
  }

  /** Every height lies in exactly one slot. */
  lemma OneSlot(x: nat, n: nat, t: nat)
    requires n > 0 && t > 0
    ensures SlotOf(x, n, t, x / t / n, x / t % n, x % t)
    ensures forall r: nat, i: nat, o: nat | SlotOf(x, n, t, r, i, o) :: r == x / t / n && i == x / t % n && o == x % t
  {
    assert x / t / n * n + x / t % n == x / t;
    forall r: nat, i: nat, o: nat | SlotOf(x, n, t, r, i, o)
      ensures r == x / t / n && i == x / t % n && o == x % t
    {
      SlotDivides(x, n, t, r, i, o);
    }
  }

  lemma DistinctAt(vals: seq<Address>, i: nat, j: nat)
    requires Increasing(vals) && i < |vals| && j < |vals|
    ensures vals[i] == vals[j] <==> i == j
  {
    if i < j { assert LessAt(vals, i, j); Trichotomy(vals[i].bytes, vals[i].bytes); }
    if j < i { assert LessAt(vals, j, i); Trichotomy(vals[i].bytes, vals[i].bytes); }
  }

  /** Validator i is in turn for the next block if and only if that block lies in its slot of some
      round: turnLength blocks in a row, once every round. */
  lemma TurnSlot(s: Snap, i: nat)
    requires s.turnLength > 0 && i < |s.validators| && Increasing(s.validators)
    ensures InturnValidator(s) == Some(s.validators[i])
            <==> InSlot(s.number + 1, |s.validators|, s.turnLength, i)
  {
    var k := InturnIs(s);
    InSlotIff(s.number + 1, |s.validators|, s.turnLength, i);
    DistinctAt(s.validators, k, i);
  }

  lemma InturnIs(s: Snap) returns (k: nat)
    requires s.turnLength > 0 && s.validators != []
    ensures k == (s.number + 1) / s.turnLength % |s.validators| < |s.validators| && InturnValidator(s) == Some(s.validators[k])
  {
    k := (s.number + 1) / s.turnLength % |s.validators|;
  }

  lemma InSlotIff(x: nat, n: nat, t: nat, i: nat)
    requires n > 0 && t > 0
    ensures InSlot(x, n, t, i) <==> i == x / t % n
  {
    OneSlot(x, n, t);
  }

  // ----- what an accepted header owes to it -----

  lemma EarlyPassed(c: Crypto, s: Snap, h: Header)
    requires ApplyHeader(c, s, h).Accepted?
    ensures EarlyError(s, h, h.miner).None? && BackoffOk(Residue(s), h)
  {
    AcceptFacts(c, s, h);
  }

  lemma EarlyMeans(s: Snap, h: Header)
    requires EarlyError(s, h, h.miner).None?
    ensures h.number == s.number + 1 && (h.difficulty == DIFF_IN_TURN || h.difficulty == DIFF_NO_TURN)
    ensures s.enforceInturn ==> (h.difficulty == DIFF_IN_TURN <==> InturnValidator(s) == Some(h.miner))
  {
  }

  /** The difficulty field tells the schedule: an accepted header at height (r*n+i)*turnLength+o has
      difficulty 2 if and only if validator i sealed it, else 1. */
  lemma DifficultyTellsTurn(c: Crypto, s: Snap, h: Header, r: nat, i: nat, o: nat)
    requires ApplyHeader(c, s, h).Accepted? && s.enforceInturn && s.turnLength > 0
    requires SlotOf(h.number, |s.validators|, s.turnLength, r, i, o)
    ensures h.difficulty == DIFF_IN_TURN <==> h.miner == s.validators[i]
    ensures h.difficulty == DIFF_IN_TURN || h.difficulty == DIFF_NO_TURN
  {
    EarlyPassed(c, s, h);
    EarlyMeans(s, h);
    SlotDivides(h.number, |s.validators|, s.turnLength, r, i, o);
  }

  function InitialBackoff(parentMilli: nat): nat {
    if parentMilli / 1000 >= LORENTZ_TIME then 2000 else 1000
  }

  /** Everything the backoff rule needs to know about the parent is known. */
  predicate BackoffKnown(s: Snap) {
    s.enforceInturn && RecentsWindowWalked(s) && s.lastMilli.Some?
  }

  lemma BackoffFloor(s: Snap, h: Header, v: Address)
    requires BackoffOk(s, h) && BackoffKnown(s) && h.difficulty == DIFF_NO_TURN
    requires InturnValidator(s) == Some(v) && !SignRecently(s, v)
    ensures MilliTimestamp(h) >= SatAdd(SatAdd(s.lastMilli.value, BlockIntervalMs(h.time)), InitialBackoff(s.lastMilli.value))
  {
  }

  lemma ResidueKnows(s: Snap)
    ensures BackoffKnown(Residue(s)) == BackoffKnown(s) && Residue(s).lastMilli == s.lastMilli
    ensures InturnValidator(Residue(s)) == InturnValidator(s)
  {
  }

  /** Once the whole history window has been walked, a sealer out of turn waits the interval and the
      initial backoff, unless the validator in turn has just used up its blocks. */
  lemma OutOfTurnWaits(c: Crypto, s: Snap, h: Header, v: Address)
    requires ApplyHeader(c, s, h).Accepted? && s.number < MAX_NUMBER && BackoffKnown(s)
    requires InturnValidator(s) == Some(v) && h.miner != v && !SignRecently(s, v)
    ensures MilliTimestamp(h) >= SatAdd(SatAdd(s.lastMilli.value, BlockIntervalMs(h.time)), InitialBackoff(s.lastMilli.value))
  {
    EarlyPassed(c, s, h);
    EarlyMeans(s, h);
    ResidueKeepsCounts(s, v);
    ResidueKnows(s);
    BackoffFloor(Residue(s), h, v);
  }
}
