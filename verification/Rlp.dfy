/** RLP (Appendix B of the Ethereum Yellow Paper): the encoder, and the strict decoder that the
    vote reader and the trie-node reader share. They differ only in how deep lists may nest. */
module Rlp {
  import opened Base

  datatype Item = Str(bytes: Bytes) | List(items: seq<Item>)

  const STR_BASE: nat := 0x80
  const LIST_BASE: nat := 0xc0
  /** A vote attestation is two lists deep; a trie node may nest 32 lists. */
  const VOTE_LEVELS: nat := 2
  const NODE_LEVELS: nat := 32

  /** Length bytes of a long payload. The cast to u64 is explicit: it only matters for
      payloads no 64-bit machine can hold. */
  function LenBe(n: nat): (b: Bytes)
    ensures 1 <= |b| <= 8
  {
    var be := ToBe(n % U64);
    Pow256Is64Bits();
    BeLength(n % U64, 8);
    if be == [] then [0] else be
  }

  function LengthHeader(base: nat, n: nat): (b: Bytes)
    requires base == STR_BASE || base == LIST_BASE
    ensures |b| >= 1 && base <= b[0] < base + 64
  {
    if n <= 55 then [base + n] else [base + 55 + |LenBe(n)|] + LenBe(n)
  }

  function EncodeBytes(data: Bytes): Bytes {
    if |data| == 1 && data[0] < 0x80 then data else LengthHeader(STR_BASE, |data|) + data
  }

  function Concat(parts: seq<Bytes>): Bytes {
    if parts == [] then [] else parts[0] + Concat(parts[1..])
  }

  function EncodeList(parts: seq<Bytes>): Bytes {
    LengthHeader(LIST_BASE, |Concat(parts)|) + Concat(parts)
  }

  function EncodeUint(n: nat): Bytes {
    EncodeBytes(ToBe(n))
  }

  /** Encoding of a whole item tree. */
  function Enc(item: Item): (b: Bytes)
    ensures |b| >= 1
    decreases item, 1
  {
    match item
    case Str(s) => EncodeBytes(s)
    case List(items) => LengthHeader(LIST_BASE, |EncAll(items)|) + EncAll(items)
  }

  function EncAll(items: seq<Item>): Bytes
    decreases items, 0
  {
    if items == [] then [] else Enc(items[0]) + EncAll(items[1..])
  }

  /** Lists nest at most `levels` deep. */
  predicate Nests(item: Item, levels: nat)
    decreases item
  {
    match item
    case Str(_) => true
    case List(items) => levels > 0 && forall i | 0 <= i < |items| :: Nests(items[i], levels - 1)
  }

  /** Below 2^64 bytes the length goes before the payload: in one byte from 0x80 or 0xc0 on, or, from 56 on, as
      minimal big-endian bytes, counted from 0xb7 or 0xf7 on. */
  lemma HeaderSpelled(n: nat)
    requires n < U64
    ensures n <= 55 ==> LengthHeader(0x80, n) == [0x80 + n] && LengthHeader(0xc0, n) == [0xc0 + n]
    ensures n > 55 ==> |ToBe(n)| <= 8 && LengthHeader(0x80, n) == [0xb7 + |ToBe(n)|] + ToBe(n) && LengthHeader(0xc0, n) == [0xf7 + |ToBe(n)|] + ToBe(n)
  {
    if n > 55 { LenBeIs(n); }
  }

  /** A single byte under 0x80 stands for itself; any other payload has its length before it. */
  lemma Spelling(s: Bytes, items: seq<Item>)
    ensures Enc(Str(s)) == if |s| == 1 && s[0] < 0x80 then s else LengthHeader(0x80, |s|) + s
    ensures Enc(List(items)) == LengthHeader(0xc0, |EncAll(items)|) + EncAll(items)
  {
  }

  // ----- decoder -----

  function LongLen(buf: Bytes, lenOfLen: nat): Option<nat> {
    if |buf| < lenOfLen || lenOfLen == 0 || buf[0] == 0 then None
    else
      var n := FromBe(buf[..lenOfLen]);
      if n <= 55 then None else Some(n)
  }

  /** Payload length and header size, for a prefix in [base, base + 64). */
  function ReadHeader(buf: Bytes, base: nat): (r: Option<(nat, nat)>)
    requires buf != [] && base <= buf[0] < base + 64
    ensures r.Some? ==> r.value.1 >= 1
  {
    var p := buf[0] - base;
    if p <= 55 then Some((p, 1))
    else match LongLen(buf[1..], p - 55)
      case None => None
      case Some(n) => Some((n, 1 + p - 55))
  }

  function DecodeItem(buf: Bytes, levels: nat): (r: Option<(Item, Bytes)>)
    ensures r.Some? ==> |r.value.1| < |buf|
    decreases |buf|, 0
  {
    if buf == [] then None
    else if buf[0] < STR_BASE then Some((Str(buf[..1]), buf[1..]))
    else
      var base := if buf[0] < LIST_BASE then STR_BASE else LIST_BASE;
      match ReadHeader(buf, base)
      case None => None
      case Some((n, k)) =>
        if |buf| < k + n then None
        else
          var payload, rest := buf[k..k + n], buf[k + n..];
          if base == STR_BASE then
            if n == 1 && payload[0] < 0x80 then None else Some((Str(payload), rest))
          else if levels == 0 then None
          else match DecodeAll(payload, levels - 1)
            case None => None
            case Some(items) => Some((List(items), rest))
  }

  function DecodeAll(payload: Bytes, levels: nat): Option<seq<Item>>
    decreases |payload|, 1
  {
    if payload == [] then Some([])
    else match DecodeItem(payload, levels)
      case None => None
      case Some((item, rest)) =>
        match DecodeAll(rest, levels)
        case None => None
        case Some(items) => Some([item] + items)
  }

  /** Exactly one item that uses up the whole buffer. */
  function DecodeTop(buf: Bytes, levels: nat): Option<Item> {
    match DecodeItem(buf, levels)
    case None => None
    case Some((item, rest)) => if rest == [] then Some(item) else None
  }

  // ----- the decoder inverts the encoder, both ways -----

  /** Below 2^64 the length bytes are the minimal big-endian form. */
  lemma LenBeIs(n: nat)
    requires 55 < n < U64
    ensures LenBe(n) == ToBe(n) && FromBe(LenBe(n)) == n && LenBe(n)[0] != 0
  {
    assert n % U64 == n;
    BeRoundTrip(n);
  }

  lemma LongLenOf(lb: Bytes, tail: Bytes)
    requires lb != [] && lb[0] != 0 && FromBe(lb) > 55
    ensures LongLen(lb + tail, |lb|) == Some(FromBe(lb))
  {
    assert (lb + tail)[..|lb|] == lb;
  }

  lemma HeaderComplete(base: nat, n: nat, tail: Bytes)
    requires base == STR_BASE || base == LIST_BASE
    requires n < U64
    ensures ReadHeader(LengthHeader(base, n) + tail, base) == Some((n, |LengthHeader(base, n)|))
  {
    if n > 55 {
      LenBeIs(n);
      var lb := LenBe(n);
      LongLenOf(lb, tail);
      var first: Byte := base + 55 + |lb|;
      LongHeader(first, lb + tail, base, n, |lb|);
      assert LengthHeader(base, n) + tail == [first] + (lb + tail);
    }
  }

  lemma LongHeader(first: Byte, body: Bytes, base: nat, n: nat, k: nat)
    requires first == base + 55 + k && 1 <= k <= 8
    requires LongLen(body, k) == Some(n)
    ensures ReadHeader([first] + body, base) == Some((n, 1 + k))
  {
    assert ([first] + body)[1..] == body;
  }

  lemma HeaderSound(buf: Bytes, base: nat)
    requires buf != [] && base <= buf[0] < base + 64
    requires base == STR_BASE || base == LIST_BASE
    requires ReadHeader(buf, base).Some?
    ensures var (n, k) := ReadHeader(buf, base).value;
            n < U64 && k <= |buf| && buf[..k] == LengthHeader(base, n)
  {
    var p := buf[0] - base;
    if p > 55 {
      var lb := buf[1..][..p - 55];
      BeBound(lb);
      PowMono(p - 55);
      BeCanonical(lb);
      var n := FromBe(lb);
      assert LenBe(n) == lb;
      assert buf[..1 + p - 55] == [buf[0]] + lb;
    }
  }

  lemma PowMono(k: nat)
    requires k <= 8
    ensures Pow256(k) <= U64
  {
    Pow256Is64Bits();
    var i := k;
    while i < 8
      invariant k <= i <= 8
      invariant Pow256(k) <= Pow256(i)
    {
      i := i + 1;
    }
  }

  /** Whatever is accepted re-encodes to the bytes consumed. */
  lemma {:induction false} DecodeSound(buf: Bytes, levels: nat)
    requires DecodeItem(buf, levels).Some?
    ensures var (item, rest) := DecodeItem(buf, levels).value;
            buf == Enc(item) + rest && Nests(item, levels)
    decreases |buf|, 0
  {
    if buf[0] >= STR_BASE {
      var base := if buf[0] < LIST_BASE then STR_BASE else LIST_BASE;
      var (n, k) := ReadHeader(buf, base).value;
      SplitSound(buf, base);
      if base == LIST_BASE {
        DecodeAllSound(buf[k..k + n], levels - 1);
      }
    }
  }

  lemma SplitSound(buf: Bytes, base: nat)
    requires buf != [] && base <= buf[0] < base + 64
    requires base == STR_BASE || base == LIST_BASE
    requires ReadHeader(buf, base).Some?
    requires var (n, k) := ReadHeader(buf, base).value; k + n <= |buf|
    ensures var (n, k) := ReadHeader(buf, base).value;
            buf == (LengthHeader(base, n) + buf[k..k + n]) + buf[k + n..]
  {
    HeaderSound(buf, base);
    var (n, k) := ReadHeader(buf, base).value;
    ThreeParts(buf, LengthHeader(base, n), k, n);
  }

  lemma ThreeParts(buf: Bytes, head: Bytes, k: nat, n: nat)
    requires k + n <= |buf| && buf[..k] == head
    ensures buf == (head + buf[k..k + n]) + buf[k + n..]
  {
  }

  lemma {:induction false} DecodeAllSound(payload: Bytes, levels: nat)
    requires DecodeAll(payload, levels).Some?
    ensures var items := DecodeAll(payload, levels).value;
            payload == EncAll(items) && forall i | 0 <= i < |items| :: Nests(items[i], levels)
    decreases |payload|, 1
  {
    if payload != [] {
      DecodeSound(payload, levels);
      var (item, rest) := DecodeItem(payload, levels).value;
      DecodeAllSound(rest, levels);
      var items := DecodeAll(payload, levels).value;
      assert items[1..] == DecodeAll(rest, levels).value;
    }
  }

  /** A header followed by its payload and anything splits into those three. */
  lemma SplitComplete(base: nat, payload: Bytes, rest: Bytes)
    requires base == STR_BASE || base == LIST_BASE
    requires |payload| < U64
    ensures var buf := LengthHeader(base, |payload|) + payload + rest;
            var k := |LengthHeader(base, |payload|)|;
            base <= buf[0] < base + 64 && ReadHeader(buf, base) == Some((|payload|, k))
            && buf[k..k + |payload|] == payload && buf[k + |payload|..] == rest
  {
    var h := LengthHeader(base, |payload|);
    assert h + payload + rest == h + (payload + rest);
    HeaderComplete(base, |payload|, payload + rest);
  }

  lemma DecodeStr(s: Bytes, rest: Bytes, levels: nat)
    requires |EncodeBytes(s)| < U64
    ensures DecodeItem(EncodeBytes(s) + rest, levels) == Some((Str(s), rest))
  {
    if |s| == 1 && s[0] < 0x80 {
      assert (s + rest)[..1] == s && (s + rest)[1..] == rest;
    } else {
      SplitComplete(STR_BASE, s, rest);
    }
  }

  /** Every encoding followed by anything decodes back to its item. */
  lemma {:induction false} DecodeComplete(item: Item, rest: Bytes, levels: nat)
    requires Nests(item, levels) && |Enc(item)| < U64
    ensures DecodeItem(Enc(item) + rest, levels) == Some((item, rest))
    decreases item, 1
  {
    match item
    case Str(s) => DecodeStr(s, rest, levels);
    case List(items) =>
      SplitComplete(LIST_BASE, EncAll(items), rest);
      DecodeAllComplete(items, levels - 1);
  }

  lemma EncAllCons(items: seq<Item>)
    requires items != []
    ensures EncAll(items) == Enc(items[0]) + EncAll(items[1..]) && EncAll(items) != []
  {
  }

  lemma DecodeAllStep(payload: Bytes, levels: nat, item: Item, rest: Bytes, items: seq<Item>)
    requires payload != [] && DecodeItem(payload, levels) == Some((item, rest)) && DecodeAll(rest, levels) == Some(items)
    ensures DecodeAll(payload, levels) == Some([item] + items)
  {
  }

  lemma {:induction false} DecodeAllComplete(items: seq<Item>, levels: nat)
    requires forall i | 0 <= i < |items| :: Nests(items[i], levels)
    requires |EncAll(items)| < U64
    ensures DecodeAll(EncAll(items), levels) == Some(items)
    decreases items, 0
  {
    if items != [] {
      DecodeComplete(items[0], EncAll(items[1..]), levels);
      DecodeAllComplete(items[1..], levels);
      EncAllCons(items);
      DecodeAllStep(EncAll(items), levels, items[0], EncAll(items[1..]), items[1..]);
      assert items == [items[0]] + items[1..];
    }
  }

  /** The strict reader accepts a buffer exactly when it is the encoding of an item whose lists
      nest no deeper than allowed, and then returns that item. */
  lemma DecodeTopIff(buf: Bytes, levels: nat, item: Item)
    requires |buf| < U64
    ensures DecodeTop(buf, levels) == Some(item) <==> buf == Enc(item) && Nests(item, levels)
  {
    if DecodeTop(buf, levels) == Some(item) {
      DecodeSound(buf, levels);
      assert Enc(item) + [] == Enc(item);
    }
    if buf == Enc(item) && Nests(item, levels) {
      DecodeComplete(item, [], levels);
      assert Enc(item) + [] == Enc(item);
    }
  }

  /** An empty string inside `depth` lists. */
  function Deep(depth: nat): Item {
    if depth == 0 then Str([]) else List([Deep(depth - 1)])
  }

  lemma {:induction false} DeepNests(depth: nat, levels: nat)
    ensures Nests(Deep(depth), levels) <==> depth <= levels
  {
    if depth > 0 {
      var items := Deep(depth).items;
      assert items[0] == Deep(depth - 1);
      if levels > 0 { DeepNests(depth - 1, levels - 1); }
    }
  }

  /** A vote may nest two lists and a trie node 32, and no more. */
  lemma DepthLimits(depth: nat)
    requires |Enc(Deep(depth))| < U64
    ensures DecodeTop(Enc(Deep(depth)), VOTE_LEVELS).Some? <==> depth <= 2
    ensures DecodeTop(Enc(Deep(depth)), NODE_LEVELS).Some? <==> depth <= 32
  {
    DepthLimit(depth, VOTE_LEVELS);
    DepthLimit(depth, NODE_LEVELS);
  }

  lemma DepthLimit(depth: nat, levels: nat)
    requires |Enc(Deep(depth))| < U64
    ensures DecodeTop(Enc(Deep(depth)), levels).Some? <==> depth <= levels
  {
    DeepNests(depth, levels);
    DecodeTopIff(Enc(Deep(depth)), levels, Deep(depth));
    if DecodeTop(Enc(Deep(depth)), levels).Some? {
      var item := DecodeTop(Enc(Deep(depth)), levels).value;
      DecodeTopIff(Enc(Deep(depth)), levels, item);
      EncInjective(Deep(depth), item);
    }
  }

  /** No byte string spells two items, and no item has two spellings. */
  lemma EncInjective(a: Item, b: Item)
    requires |Enc(a)| < U64
    ensures Enc(a) == Enc(b) <==> a == b
  {
    if Enc(a) == Enc(b) {
      var k := |Enc(a)|;
      NestsWithinSize(a, k);
      NestsWithinSize(b, k);
      DecodeTopIff(Enc(a), k, a);
      DecodeTopIff(Enc(b), k, b);
    }
  }

  /** Encodings are prefix-free: no item's encoding starts another's. */
  lemma EncPrefixFree(a: Item, b: Item)
    requires |Enc(b)| < U64 && Enc(a) <= Enc(b)
    ensures a == b
  {
    var rest := Enc(b)[|Enc(a)|..];
    var k := |Enc(b)|;
    NestsWithinSize(a, k);
    NestsWithinSize(b, k);
    DecodeComplete(a, rest, k);
    DecodeComplete(b, [], k);
    assert Enc(a) + rest == Enc(b) == Enc(b) + [];
  }

  /** Each list costs at least a header byte, so nesting never exceeds the encoded size. */
  lemma {:induction false} NestsWithinSize(item: Item, levels: nat)
    requires |Enc(item)| <= levels
    ensures Nests(item, levels)
    decreases item
  {
    if item.List? {
      forall i | 0 <= i < |item.items|
        ensures Nests(item.items[i], levels - 1)
      {
        EncAllMember(item.items, i);
        NestsWithinSize(item.items[i], levels - 1);
      }
    }
  }

  lemma {:induction false} EncAllMember(items: seq<Item>, i: nat)
    requires i < |items|
    ensures |Enc(items[i])| <= |EncAll(items)|
  {
    if i > 0 {
      EncAllMember(items[1..], i - 1);
    }
  }

  /** The item-tree encoding is the source's list encoder applied to the encoded members. */
  lemma {:induction false} ConcatIsEncAll(items: seq<Item>, parts: seq<Bytes>)
    requires |items| == |parts| && forall i | 0 <= i < |items| :: parts[i] == Enc(items[i])
    ensures Concat(parts) == EncAll(items)
  {
    if items != [] {
      ConcatIsEncAll(items[1..], parts[1..]);
    }
  }

  // ----- the loops of the source -----

  /** `long_len`'s accumulating loop, and `uint_of`'s: the same big-endian fold. */
  method ReadBe(raw: Bytes) returns (n: nat)
    ensures n == FromBe(raw)
    ensures n < Pow256(|raw|)
  {
    n := 0;
    for i := 0 to |raw|
      invariant n == FromBe(raw[..i])
    {
      n := n * 256 + raw[i];
      assert raw[..i + 1][..i] == raw[..i];
    }
    assert raw[..|raw|] == raw;
    BeBound(raw);
  }

  /** `encode_list`'s concatenation loop. */
  method ConcatLoop(parts: seq<Bytes>) returns (payload: Bytes)
    ensures payload == Concat(parts)
  {
    payload := [];
    for i := 0 to |parts|
      invariant payload + Concat(parts[i..]) == Concat(parts)
    {
      assert parts[i..][1..] == parts[i + 1..];
      payload := payload + parts[i];
    }
  }

  /** `decode_list`'s loop over the payload. */
  method DecodeListLoop(payload: Bytes, levels: nat) returns (r: Option<seq<Item>>)
    ensures r == DecodeAll(payload, levels)
  {
    var items: seq<Item> := [];
    var left := payload;
    assert DecodeAll(payload, levels).Some? ==>
        items + DecodeAll(payload, levels).value == DecodeAll(payload, levels).value;
    while left != []
      invariant DecodeAll(payload, levels) ==
                match DecodeAll(left, levels)
                case None => None
                case Some(more) => Some(items + more)
      decreases |left|
    {
      match DecodeItem(left, levels) {
        case None => return None;
        case Some((item, rest)) =>
          assert DecodeAll(rest, levels).Some? ==>
              items + ([item] + DecodeAll(rest, levels).value) == items + [item] + DecodeAll(rest, levels).value;
          items, left := items + [item], rest;
      }
    }
    assert items + [] == items;
    return Some(items);
  }
}
