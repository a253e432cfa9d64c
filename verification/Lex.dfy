/** Lexicographic order on keys and addresses. */
module Lex {
  function SharedPrefixLen(a: seq<int>, b: seq<int>): (n: nat)
    ensures n <= |a| && n <= |b| && a[..n] == b[..n]
    ensures n < |a| && n < |b| ==> a[n] != b[n]
  {
    if a == [] || b == [] || a[0] != b[0] then 0
    else
      var n := 1 + SharedPrefixLen(a[1..], b[1..]);
      assert a[..n] == [a[0]] + a[1..][..n - 1] && b[..n] == [b[0]] + b[1..][..n - 1];
      n
  }

  predicate Less(a: seq<int>, b: seq<int>) {
    var n := SharedPrefixLen(a, b);
    n < |b| && (n == |a| || a[n] < b[n])
  }

  /** A common prefix never exceeds the longest one. */
  lemma SharedIsLongest(a: seq<int>, b: seq<int>, n: nat)
    requires n <= |a| && n <= |b| && a[..n] == b[..n]
    ensures n <= SharedPrefixLen(a, b)
  {
  }

  lemma SharedIs(a: seq<int>, b: seq<int>, n: nat)
    requires n <= |a| && n <= |b| && a[..n] == b[..n]
    requires n == |a| || n == |b| || a[n] != b[n]
    ensures SharedPrefixLen(a, b) == n
  {
    SharedIsLongest(a, b, n);
  }

  lemma Trichotomy(a: seq<int>, b: seq<int>)
    ensures a == b || Less(a, b) || Less(b, a)
    ensures !(Less(a, b) && Less(b, a)) && !Less(a, a)
  {
    var n := SharedPrefixLen(a, b);
    SharedIs(b, a, n);
    SharedIs(a, a, |a|);
    if n == |a| == |b| {
      assert a == a[..n] && b == b[..n];
    }
  }

  lemma Transitive(a: seq<int>, b: seq<int>, c: seq<int>)
    requires Less(a, b) && Less(b, c)
    ensures Less(a, c)
  {
    var p, q := SharedPrefixLen(a, b), SharedPrefixLen(b, c);
    var m := if p < q then p else q;
    assert a[..m] == a[..p][..m] == b[..p][..m] == b[..m];
    assert c[..m] == c[..q][..m] == b[..q][..m] == b[..m];
    if p < q {
      assert b[p] == b[..q][p] == c[..q][p] == c[p];
    } else if q < p {
      assert a[q] == a[..p][q] == b[..p][q] == b[q];
    }
    SharedIs(a, c, m);
  }
}
