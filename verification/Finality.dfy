/** Confirmation-depth Safe: the parent of the newest suffix with enough distinct sealers. */
module Finality {
  import opened Base
  import opened Vote
  import opened Headers

  datatype Block = Block(
    number: nat, hash: Hash, stateRoot: Digest, miner: Address, milli: nat, gasLimit: nat, header: Option<Header>)

  datatype SafeHead = SafeHead(number: nat, hash: Hash, stateRoot: Digest, distinctSealers: nat, requiredSealers: nat)

  function MinDistinctSealers(nSeal: nat): nat {
    if nSeal == 0 then 0 else 2 * nSeal / 3 + 1
  }

  /** Sealers of chain[i..]. */
  function Tail(chain: seq<Block>, i: nat): set<Address>
    requires i <= |chain|
    decreases |chain| - i
  {
    if i == |chain| then {} else {chain[i].miner} + Tail(chain, i + 1)
  }

  /** Largest start at or below i whose suffix has enough distinct sealers, or -1. */
  function PivotFrom(chain: seq<Block>, threshold: nat, i: int): (p: int)
    requires i < |chain|
    ensures -1 <= p && p < |chain|
  {
    if i < 0 then -1 else if |Tail(chain, i)| >= threshold then i else PivotFrom(chain, threshold, i - 1)
  }

  function Pivot(chain: seq<Block>, threshold: nat): int {
    PivotFrom(chain, threshold, |chain| - 1)
  }

  function NewestSafe(chain: seq<Block>, nSeal: nat): Option<SafeHead> {
    var threshold := MinDistinctSealers(nSeal);
    var p := Pivot(chain, threshold);
    if |chain| < 2 || p <= 0 then None
    else Some(SafeHead(chain[p - 1].number, chain[p - 1].hash, chain[p - 1].stateRoot, |Tail(chain, p)|, threshold))
  }

  // ----- the scan finds the maximum -----

  lemma {:induction false} TailShrinks(chain: seq<Block>, i: nat, j: nat)
    requires i <= j <= |chain|
    ensures Tail(chain, j) <= Tail(chain, i)
    decreases j - i
  {
    if i < j { TailShrinks(chain, i + 1, j); }
  }

  lemma {:induction false} PivotIsLast(chain: seq<Block>, threshold: nat, i: int)
    requires i < |chain|
    ensures var p := PivotFrom(chain, threshold, i);
            (p >= 0 ==> p <= i && |Tail(chain, p)| >= threshold)
            && forall j: nat | p < j <= i :: |Tail(chain, j)| < threshold
  {
    if i >= 0 && |Tail(chain, i)| < threshold {
      PivotIsLast(chain, threshold, i - 1);
    }
  }

  /** The Safe head is the parent of the latest suffix holding the threshold of distinct sealers, and
      that suffix holds exactly the threshold. */
  lemma SafeIsNewest(chain: seq<Block>, nSeal: nat, i: nat)
    requires nSeal > 0 && i < |chain|
    ensures var t := MinDistinctSealers(nSeal);
            Pivot(chain, t) == i <==> |Tail(chain, i)| == t && (i + 1 < |chain| ==> |Tail(chain, i + 1)| < t)
    ensures NewestSafe(chain, nSeal).Some? ==>
            NewestSafe(chain, nSeal).value.distinctSealers == MinDistinctSealers(nSeal)
            && NewestSafe(chain, nSeal).value.requiredSealers == MinDistinctSealers(nSeal)
            && exists p: nat :: SafeAt(chain, nSeal, NewestSafe(chain, nSeal).value, p)
  {
    var t := MinDistinctSealers(nSeal);
    var p := Pivot(chain, t);
    PivotIsLast(chain, t, |chain| - 1);
    if p >= 0 {
      GrowsByOne(chain, p);
    }
    if NewestSafe(chain, nSeal).Some? {
      assert SafeAt(chain, nSeal, NewestSafe(chain, nSeal).value, p);
    }
    if |Tail(chain, i)| == t && (i + 1 < |chain| ==> |Tail(chain, i + 1)| < t) {
      NoneLater(chain, t, i);
    }
  }

  /** The Safe head is the block before position p, from which the threshold of sealers is counted. */
  ghost predicate SafeAt(chain: seq<Block>, nSeal: nat, safe: SafeHead, p: nat) {
    0 < p < |chain| && |Tail(chain, p)| == safe.distinctSealers == MinDistinctSealers(nSeal) &&
    safe.number == chain[p - 1].number && safe.hash == chain[p - 1].hash && safe.stateRoot == chain[p - 1].stateRoot
  }

  /** The threshold is the smallest count above two thirds. */
  lemma SafeIsTwoThirds(chain: seq<Block>, nSeal: nat) returns (p: nat)
    requires nSeal > 0 && NewestSafe(chain, nSeal).Some?
    ensures var safe := NewestSafe(chain, nSeal).value;
            SafeAt(chain, nSeal, safe, p) && safe.requiredSealers == safe.distinctSealers == |Tail(chain, p)|
            && 3 * |Tail(chain, p)| > 2 * nSeal && 3 * (|Tail(chain, p)| - 1) <= 2 * nSeal
  {
    SafeIsNewest(chain, nSeal, 0);
    p :| SafeAt(chain, nSeal, NewestSafe(chain, nSeal).value, p);
  }

  /** Two Safe heads over one set of n validators rest on suffixes that share more than a third of them. */
  lemma SafeSuffixesMeet(a: seq<Block>, b: seq<Block>, vals: set<Address>) returns (p: nat, q: nat)
    requires vals != {} && NewestSafe(a, |vals|).Some? && NewestSafe(b, |vals|).Some?
    requires (forall i | 0 <= i < |a| :: a[i].miner in vals) && forall i | 0 <= i < |b| :: b[i].miner in vals
    ensures SafeAt(a, |vals|, NewestSafe(a, |vals|).value, p) && SafeAt(b, |vals|, NewestSafe(b, |vals|).value, q)
    ensures 3 * |Tail(a, p) * Tail(b, q)| > |vals|
  {
    p := SafeIsTwoThirds(a, |vals|);
    q := SafeIsTwoThirds(b, |vals|);
    TailWithin(a, p, vals);
    TailWithin(b, q, vals);
    var x, y := Tail(a, p), Tail(b, q);
    SubsetSize(x + y, vals);
    assert |x + y| == |x| + |y| - |x * y|;
  }

  lemma {:induction false} TailWithin(chain: seq<Block>, i: nat, vals: set<Address>)
    requires i <= |chain| && forall j | 0 <= j < |chain| :: chain[j].miner in vals
    ensures Tail(chain, i) <= vals
    decreases |chain| - i
  {
    if i < |chain| { TailWithin(chain, i + 1, vals); }
  }

  lemma GrowsByOne(chain: seq<Block>, i: nat)
    requires i < |chain|
    ensures |Tail(chain, i)| <= |Tail(chain, i + 1)| + 1
  {
  }

  lemma {:induction false} NoneLater(chain: seq<Block>, t: nat, i: nat)
    requires i < |chain| && |Tail(chain, i)| >= t && (i + 1 < |chain| ==> |Tail(chain, i + 1)| < t)
    ensures Pivot(chain, t) == i
  {
    PivotIsLast(chain, t, |chain| - 1);
    var p := Pivot(chain, t);
    if p > i {
      TailShrinks(chain, i + 1, p);
      SubsetSize(Tail(chain, p), Tail(chain, i + 1));
    }
  }

  // ----- growing at the end, ageing at the front -----

  lemma {:induction false} TailOfAppend(chain: seq<Block>, more: seq<Block>, i: nat)
    requires i <= |chain|
    ensures Tail(chain, i) <= Tail(chain + more, i)
    decreases |chain| - i
  {
    if i < |chain| { TailOfAppend(chain, more, i + 1); }
  }

  lemma {:induction false} TailOfDrop(chain: seq<Block>, d: nat, i: nat)
    requires d <= |chain| && i <= |chain| - d
    ensures Tail(chain[d..], i) == Tail(chain, d + i)
    decreases |chain| - i
  {
    if i < |chain| - d { TailOfDrop(chain, d, i + 1); }
  }

  /** New blocks never lower the pivot. */
  lemma AppendRaisesPivot(chain: seq<Block>, more: seq<Block>, threshold: nat)
    ensures Pivot(chain, threshold) <= Pivot(chain + more, threshold)
  {
    var p := Pivot(chain, threshold);
    PivotIsLast(chain, threshold, |chain| - 1);
    PivotIsLast(chain + more, threshold, |chain + more| - 1);
    if p >= 0 {
      TailOfAppend(chain, more, p);
      SubsetSize(Tail(chain, p), Tail(chain + more, p));
    }
  }

  lemma {:induction false} DropShiftsFrom(chain: seq<Block>, d: nat, threshold: nat, i: int)
    requires d <= |chain| && -1 <= i < |chain| - d
    ensures var p := PivotFrom(chain, threshold, d + i);
            PivotFrom(chain[d..], threshold, i) == if p >= d then p - d else -1
  {
    if i < 0 {
      PivotIsLast(chain, threshold, d - 1);
    } else {
      TailOfDrop(chain, d, i);
      DropShiftsFrom(chain, d, threshold, i - 1);
    }
  }

  /** Dropping a prefix moves the pivot with the blocks, or loses it. */
  lemma DropShiftsPivot(chain: seq<Block>, d: nat, threshold: nat)
    requires d <= |chain|
    ensures var p := Pivot(chain, threshold);
            Pivot(chain[d..], threshold) == if p >= d then p - d else -1
  {
    DropShiftsFrom(chain, d, threshold, |chain| - d - 1);
  }

  /** Ageing blocks out either leaves the Safe head as it was or makes it None. */
  lemma DropKeepsSafe(chain: seq<Block>, d: nat, nSeal: nat)
    requires d <= |chain|
    ensures NewestSafe(chain[d..], nSeal) == None || NewestSafe(chain[d..], nSeal) == NewestSafe(chain, nSeal)
  {
    var t := MinDistinctSealers(nSeal);
    DropShiftsPivot(chain, d, t);
    var p := Pivot(chain, t);
    if p > d {
      TailOfDrop(chain, d, p - d);
    }
  }

  // ----- the loop of the source -----

  lemma TailStep(chain: seq<Block>, i: nat)
    requires i < |chain|
    ensures |Tail(chain, i)| == |Tail(chain, i + 1)| + if chain[i].miner in Tail(chain, i + 1) then 0 else 1
    ensures forall a :: a in Tail(chain, i) <==> a == chain[i].miner || a in Tail(chain, i + 1)
  {
    if chain[i].miner in Tail(chain, i + 1) {
      assert Tail(chain, i) == Tail(chain, i + 1);
    }
  }

  /** `newest_safe`: the backward loop growing a list of distinct sealers. */
  method NewestSafeLoop(chain: seq<Block>, nSeal: nat) returns (safe: Option<SafeHead>)
    ensures safe == NewestSafe(chain, nSeal)
  {
    if |chain| < 2 {
      return None;
    }
    var threshold := MinDistinctSealers(nSeal);
    var seen: seq<Address> := [];
    var i := |chain|;
    while i > 0
      invariant 0 <= i <= |chain|
      invariant forall a :: a in seen <==> a in Tail(chain, i)
      invariant |seen| == |Tail(chain, i)|
      invariant Pivot(chain, threshold) == PivotFrom(chain, threshold, i - 1)
    {
      i := i - 1;
      TailStep(chain, i);
      if chain[i].miner !in seen {
        seen := seen + [chain[i].miner];
      }
      if |seen| >= threshold {
        if i == 0 {
          return None;
        }
        var s := chain[i - 1];
        return Some(SafeHead(s.number, s.hash, s.stateRoot, |seen|, threshold));
      }
    }
    return None;
  }
}
