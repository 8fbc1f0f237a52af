/** The counter-mode generator of `cathedral_thin/core.py`: a buffered block stream, a rejection
    sampler over it, and the sampler of three distinct variables.

    The keyed hash is a parameter. A `Stream` is the infinite list of its 32-byte blocks under one key. */
module RandomStream {
  import opened Prelude

  type Block = s: seq<Byte> | |s| == 32 witness seq(32, _ => 0)
  type Stream = nat -> Block

  /** The stream of blocks under one key. */
  function KeyStream(hmac: (seq<Byte>, nat) -> Block, key: seq<Byte>): Stream {
    (i: nat) => hmac(key, i)
  }

  datatype RngError = ShortKey | NegativeRequest | NonPositiveBound | TooFewVariables

  function ByteAt(s: Stream, i: nat): Byte {
    s(i / 32)[i % 32]
  }

  /** Bytes `from`, ..., `to - 1` of the stream. */
  function Slice(s: Stream, from: nat, to: nat): seq<Byte>
    requires from <= to
  {
    seq<Byte>(to - from, i requires 0 <= i < to - from => ByteAt(s, from + i))
  }

  function BigEndian(bs: seq<Byte>): nat {
    if bs == [] then 0 else 256 * BigEndian(bs[..|bs| - 1]) + bs[|bs| - 1]
  }

  function Pow256(n: nat): nat {
    if n == 0 then 1 else 256 * Pow256(n - 1)
  }

  function BitLength(n: nat): nat {
    if n == 0 then 0 else 1 + BitLength(n / 2)
  }

  /** Bytes read per try. */
  function Width(upper: nat): nat {
    var bytes := (BitLength(upper) + 7) / 8;
    if bytes < 1 then 1 else bytes
  }

  /** Tries at or above this value are thrown away. */
  function Limit(upper: nat): int
    requires 0 < upper
  {
    Pow256(Width(upper)) - Pow256(Width(upper)) % upper
  }

  // ---------------------------------------------------------------------------------------------
  // What a draw means: the first in-range group of bytes at or after a stream position.

  function TryAt(s: Stream, upper: nat, pos: nat): nat {
    BigEndian(Slice(s, pos, pos + Width(upper)))
  }

  function GroupStart(upper: nat, pos: nat, k: nat): nat {
    if k == 0 then pos else GroupStart(upper, pos, k - 1) + Width(upper)
  }

  predicate InRangeAfter(s: Stream, upper: nat, pos: nat, k: nat)
    requires 0 < upper
  {
    TryAt(s, upper, GroupStart(upper, pos, k)) < Limit(upper)
  }

  /** The fairness assumption that makes the rejection loop end: from every position, for every
      bound, some later group of bytes is in range. */
  ghost predicate Fair(s: Stream) {
    forall upper: nat, pos: nat | 0 < upper :: EventuallyInRange(s, upper, pos)
  }

  ghost predicate EventuallyInRange(s: Stream, upper: nat, pos: nat)
    requires 0 < upper
  {
    exists k: nat :: InRangeAfter(s, upper, pos, k)
  }

  ghost function LeastFrom(s: Stream, upper: nat, pos: nat, i: nat, w: nat): (k: nat)
    requires 0 < upper && i <= w
    requires InRangeAfter(s, upper, pos, w)
    requires forall j: nat :: j < i ==> !InRangeAfter(s, upper, pos, j)
    ensures InRangeAfter(s, upper, pos, k)
    ensures forall j: nat :: j < k ==> !InRangeAfter(s, upper, pos, j)
    decreases w - i
  {
    if InRangeAfter(s, upper, pos, i) then i else LeastFrom(s, upper, pos, i + 1, w)
  }

  /** The number of rejected groups before the accepted one. */
  ghost function Rejected(s: Stream, upper: nat, pos: nat): (k: nat)
    requires Fair(s) && 0 < upper
    ensures InRangeAfter(s, upper, pos, k)
    ensures forall j: nat :: j < k ==> !InRangeAfter(s, upper, pos, j)
  {
    assert EventuallyInRange(s, upper, pos);
    var w: nat :| InRangeAfter(s, upper, pos, w);
    LeastFrom(s, upper, pos, 0, w)
  }

  datatype Drawn<T> = Drawn(value: T, next: nat)

  ghost function Draw(s: Stream, upper: nat, pos: nat): Drawn<nat>
    requires Fair(s) && 0 < upper
  {
    var start := GroupStart(upper, pos, Rejected(s, upper, pos));
    Drawn(TryAt(s, upper, start) % upper, start + Width(upper))
  }

  ghost function DrawBit(s: Stream, pos: nat): Drawn<bool>
    requires Fair(s)
  {
    var d := Draw(s, 2, pos);
    Drawn(d.value != 0, d.next)
  }

  lemma EvenBytesAreOneWide()
    ensures Width(2) == 1 && Limit(2) == 256
  {
    assert BitLength(0) == 0 && BitLength(1) == 1 && BitLength(2) == 2;
    assert Pow256(0) == 1 && Pow256(1) == 256;
  }

  /** No byte is ever rejected for a bit: one byte is read, and its lowest bit is the draw. */
  lemma BitIsLowestBit(s: Stream, pos: nat)
    requires Fair(s)
    ensures DrawBit(s, pos) == Drawn(ByteAt(s, pos) % 2 == 1, pos + 1)
  {
    EvenBytesAreOneWide();
    var bytes := Slice(s, pos, pos + 1);
    assert bytes == [ByteAt(s, pos)] && bytes[..0] == [];
    assert BigEndian([]) == 0 && BigEndian(bytes) == ByteAt(s, pos);
    assert GroupStart(2, pos, 0) == pos && TryAt(s, 2, pos) == ByteAt(s, pos);
    assert InRangeAfter(s, 2, pos, 0);
    if Rejected(s, 2, pos) != 0 {
      assert false;
    }
  }

  // ---------------------------------------------------------------------------------------------
  // The same in plain terms.

  /** Bytes are read with the most significant first. */
  lemma {:induction false} FirstByteIsMostSignificant(first: Byte, rest: seq<Byte>)
    ensures BigEndian([first] + rest) == first * Pow256(|rest|) + BigEndian(rest)
    ensures BigEndian(rest) < Pow256(|rest|)
    decreases |rest|
  {
    if rest == [] {
      assert [first] + rest == [first] && [first][..0] == [];
      assert BigEndian([]) == 0 && Pow256(0) == 1;
    } else {
      FirstByteIsMostSignificant(first, rest[..|rest| - 1]);
      assert ([first] + rest)[..|rest|] == [first] + rest[..|rest| - 1];
      Regroup(first, Pow256(|rest| - 1));
    }
  }

  lemma Regroup(first: nat, power: nat)
    ensures 256 * (first * power) == first * (256 * power)
  {
  }

  /** A try takes as few bytes as can hold the bound, and at least one. */
  lemma WidthIsLeast(upper: nat)
    ensures upper < Pow256(Width(upper))
    ensures Width(upper) == 1 || (Width(upper) > 1 && Pow256(Width(upper) - 1) <= upper)
  {
    BitLengthBounds(upper);
    Pow2Bytes(Width(upper));
    Pow2Monotone(BitLength(upper), 8 * Width(upper));
    if Width(upper) > 1 {
      Pow2Bytes(Width(upper) - 1);
      Pow2Monotone(8 * (Width(upper) - 1), BitLength(upper) - 1);
    }
  }

  /** The rejection limit is the largest multiple of the bound that a try can reach. */
  lemma LimitIsLargestMultiple(upper: nat)
    requires 0 < upper
    ensures Limit(upper) % upper == 0 && Limit(upper) <= Pow256(Width(upper)) < Limit(upper) + upper
  {
    LimitCoversHalf(upper);
  }

  lemma {:induction false} GroupsAreConsecutive(upper: nat, pos: nat, k: nat)
    ensures GroupStart(upper, pos, k) == pos + k * Width(upper)
  {
    if k > 0 {
      GroupsAreConsecutive(upper, pos, k - 1);
    }
  }

  /** A draw is the first group of bytes below the limit, reduced by the bound, and the position stands behind it. */
  lemma DrawIsFirstInRange(s: Stream, upper: nat, pos: nat) returns (k: nat)
    requires Fair(s) && 0 < upper
    ensures var start := GroupStart(upper, pos, k);
            var group := BigEndian(Slice(s, start, start + Width(upper)));
            group < Limit(upper) && Draw(s, upper, pos) == Drawn(group % upper, start + Width(upper))
    ensures forall j: nat :: j < k ==>
              var start := GroupStart(upper, pos, j); BigEndian(Slice(s, start, start + Width(upper))) >= Limit(upper)
  {
    k := Rejected(s, upper, pos);
    forall j: nat | j < k
      ensures var start := GroupStart(upper, pos, j); BigEndian(Slice(s, start, start + Width(upper))) >= Limit(upper)
    {
      assert !InRangeAfter(s, upper, pos, j);
    }
  }

  // ---------------------------------------------------------------------------------------------
  // Three draws without replacement.

  datatype Triple = Triple(a: int, b: int, c: int)

  function Min(a: int, b: int): int { if a < b then a else b }
  function Max(a: int, b: int): int { if a < b then b else a }

  /** The source's "skip the values already taken" arithmetic on three independent draws. */
  function SkipTaken(a: nat, b: nat, c: nat): Triple {
    var second := if b >= a then b + 1 else b;
    var low, high := Min(a, second), Max(a, second);
    var past := if c >= low then c + 1 else c;
    var third := if past >= high then past + 1 else past;
    Triple(a + 1, second + 1, third + 1)
  }

  /** The draws that give back an ordered triple of distinct variables. */
  function DrawsFor(t: Triple): (int, int, int) {
    var second := if t.b > t.a then t.b - 2 else t.b - 1;
    var low, high := Min(t.a, t.b), Max(t.a, t.b);
    var third := if t.c > high then t.c - 3 else if t.c > low then t.c - 2 else t.c - 1;
    (t.a - 1, second, third)
  }

  predicate DistinctInRange(t: Triple, upper: nat) {
    && 1 <= t.a <= upper && 1 <= t.b <= upper && 1 <= t.c <= upper
    && t.a != t.b && t.a != t.c && t.b != t.c
  }

  predicate DrawsInRange(d: (int, int, int), upper: nat) {
    0 <= d.0 < upper && 0 <= d.1 < upper - 1 && 0 <= d.2 < upper - 2
  }

  /** The sampler is a bijection from its draws onto ordered triples of distinct variables, so
      uniform draws give every such triple with the same chance: each triple of draws gives a
      distinct triple in range and is found again from it ... */
  lemma SampleIsInjective(upper: nat, a: nat, b: nat, c: nat)
    requires DrawsInRange((a, b, c), upper)
    ensures DistinctInRange(SkipTaken(a, b, c), upper)
    ensures DrawsFor(SkipTaken(a, b, c)) == (a, b, c)
  {
    var second := if b >= a then b + 1 else b;
    if second < a {
      assert Min(a, second) == second && Max(a, second) == a;
    } else {
      assert Min(a, second) == a && Max(a, second) == second;
    }
  }

  /** ... and every triple of distinct variables comes from draws in range. */
  lemma SampleIsSurjective(upper: nat, t: Triple)
    requires DistinctInRange(t, upper)
    ensures DrawsInRange(DrawsFor(t), upper)
    ensures SkipTaken(DrawsFor(t).0, DrawsFor(t).1, DrawsFor(t).2) == t
  {
    if t.a < t.b {
      assert Min(t.a, t.b) == t.a && Max(t.a, t.b) == t.b;
    } else {
      assert Min(t.a, t.b) == t.b && Max(t.a, t.b) == t.a;
    }
  }

  /** Each variable is the one with the drawn rank among those not taken before it, counted from 0. */
  lemma SampleIsByRank(a: nat, b: nat, c: nat)
    ensures var t := SkipTaken(a, b, c);
            && a == t.a - 1
            && b == t.b - 1 - (if t.a < t.b then 1 else 0)
            && c == t.c - 1 - (if t.a < t.c then 1 else 0) - (if t.b < t.c then 1 else 0)
  {
    var second := if b >= a then b + 1 else b;
    assert Min(a, second) == if a < second then a else second;
  }

  ghost function DrawTriple(s: Stream, upper: nat, pos: nat): Drawn<Triple>
    requires Fair(s) && 3 <= upper
  {
    var a := Draw(s, upper, pos);
    var b := Draw(s, upper - 1, a.next);
    var c := Draw(s, upper - 2, b.next);
    Drawn(SkipTaken(a.value, b.value, c.value), c.next)
  }

  // ---------------------------------------------------------------------------------------------
  // Why rejection is unbiased and cheap.

  lemma {:induction false} BitLengthBounds(n: nat)
    ensures n < Pow2(BitLength(n))
    ensures 0 < n ==> Pow2(BitLength(n) - 1) <= n
  {
    if n > 0 {
      BitLengthBounds(n / 2);
    }
  }

  lemma {:induction false} Pow2Bytes(n: nat)
    ensures Pow256(n) == Pow2(8 * n)
  {
    if n > 0 {
      Pow2Bytes(n - 1);
      var e := 8 * (n - 1);
      assert Pow2(e + 8) == 2 * Pow2(e + 7) == 4 * Pow2(e + 6) == 8 * Pow2(e + 5) == 16 * Pow2(e + 4);
      assert Pow2(e + 4) == 2 * Pow2(e + 3) == 4 * Pow2(e + 2) == 8 * Pow2(e + 1) == 16 * Pow2(e);
    }
  }

  lemma {:induction false} Pow2Monotone(a: nat, b: nat)
    requires a <= b
    ensures Pow2(a) <= Pow2(b)
    decreases b
  {
    if a < b {
      Pow2Monotone(a, b - 1);
    }
  }

  /** The rejection limit is a positive multiple of the bound that leaves fewer than half of all
      tries to throw away. */
  lemma LimitCoversHalf(upper: nat)
    requires 0 < upper
    ensures upper < Pow256(Width(upper))
    ensures Limit(upper) % upper == 0
    ensures 0 < Limit(upper) <= Pow256(Width(upper)) < 2 * Limit(upper)
  {
    BitLengthBounds(upper);
    Pow2Bytes(Width(upper));
    Pow2Monotone(BitLength(upper), 8 * Width(upper));
    WholeMultiples(Pow256(Width(upper)), upper);
  }

  lemma WholeMultiples(range: nat, upper: nat)
    requires 0 < upper <= range
    ensures (range - range % upper) % upper == 0
    ensures 0 <= range % upper < range - range % upper
  {
    var q, r := range / upper, range % upper;
    assert q >= 1;
    MultipleMod(q, upper);
    assert range - r == q * upper;
    if q > 1 {
      AtLeastOnce(q - 1, upper);
    }
  }

  lemma {:induction false} MultipleMod(q: nat, upper: nat)
    requires 0 < upper
    ensures (q * upper) % upper == 0
  {
    if q > 0 {
      MultipleMod(q - 1, upper);
      ShiftMod((q - 1) * upper, upper);
      assert q * upper == (q - 1) * upper + upper;
    }
  }

  lemma ShiftMod(x: nat, upper: nat)
    requires 0 < upper
    ensures (x + upper) % upper == x % upper
    ensures (x + upper) / upper == x / upper + 1
  {
    var q, r := x / upper, x % upper;
    assert x + upper == (q + 1) * upper + r;
    QuotientUnique(x + upper, upper, q + 1, r);
  }

  /** How many tries below `bound` reduce to the residue `r`. */
  function ResidueCount(bound: nat, upper: nat, r: nat): nat
    requires 0 < upper
  {
    if bound == 0 then 0
    else ResidueCount(bound - 1, upper, r) + (if (bound - 1) % upper == r then 1 else 0)
  }

  lemma ModOffset(base: nat, k: nat, upper: nat)
    requires k < upper && base % upper == 0
    ensures (base + k) % upper == k
  {
    QuotientUnique(base + k, upper, base / upper, k);
  }

  /** The values just after a multiple of the bound reduce to 0, 1, 2, ... */
  lemma {:induction false} ResidueCountBlock(base: nat, k: nat, upper: nat, r: nat)
    requires r < upper && k <= upper && base % upper == 0
    ensures ResidueCount(base + k, upper, r) == ResidueCount(base, upper, r) + (if r < k then 1 else 0)
    decreases k
  {
    if k > 0 {
      ResidueCountBlock(base, k - 1, upper, r);
      ModOffset(base, k - 1, upper);
      assert base + k - 1 == base + (k - 1);
    }
  }

  function Multiple(q: nat, upper: nat): nat {
    if q == 0 then 0 else Multiple(q - 1, upper) + upper
  }

  lemma {:induction false} MultipleIsProduct(q: nat, upper: nat)
    requires 0 < upper
    ensures Multiple(q, upper) == q * upper
    ensures Multiple(q, upper) % upper == 0
  {
    if q > 0 {
      MultipleIsProduct(q - 1, upper);
      MultipleMod(q, upper);
    }
  }

  lemma {:induction false} ResidueCountMultiple(q: nat, upper: nat, r: nat)
    requires r < upper
    ensures ResidueCount(Multiple(q, upper), upper, r) == q
  {
    if q > 0 {
      ResidueCountMultiple(q - 1, upper, r);
      MultipleIsProduct(q - 1, upper);
      ResidueCountBlock(Multiple(q - 1, upper), upper, upper, r);
    }
  }

  lemma LimitIsTimes(upper: nat)
    requires 0 < upper
    ensures Limit(upper) == Multiple(Pow256(Width(upper)) / upper, upper)
  {
    MultipleIsProduct(Pow256(Width(upper)) / upper, upper);
  }

  /** Every residue is hit by exactly the same number of accepted tries. */
  lemma RejectionIsUnbiased(upper: nat, r: nat)
    requires r < upper
    ensures Limit(upper) >= 0
    ensures ResidueCount(Limit(upper), upper, r) == Pow256(Width(upper)) / upper
  {
    LimitIsTimes(upper);
    ResidueCountMultiple(Pow256(Width(upper)) / upper, upper, r);
  }

  // ---------------------------------------------------------------------------------------------
  // Chunking.

  function Total(counts: seq<nat>): nat {
    if counts == [] then 0 else counts[0] + Total(counts[1..])
  }

  /** The outputs of successive byte requests that start at a stream position. */
  function Chunks(s: Stream, pos: nat, counts: seq<nat>): seq<seq<Byte>>
    decreases |counts|
  {
    if counts == [] then []
    else [Slice(s, pos, pos + counts[0])] + Chunks(s, pos + counts[0], counts[1..])
  }

  function Joined(chunks: seq<seq<Byte>>): seq<Byte> {
    if chunks == [] then [] else chunks[0] + Joined(chunks[1..])
  }

  lemma {:induction false} ChunksJoin(s: Stream, pos: nat, counts: seq<nat>)
    ensures Joined(Chunks(s, pos, counts)) == Slice(s, pos, pos + Total(counts))
    decreases |counts|
  {
    if counts != [] {
      ChunksJoin(s, pos + counts[0], counts[1..]);
      SliceConcat(s, pos, pos + counts[0], pos + Total(counts));
    }
  }

  lemma BlockIsSlice(s: Stream, k: nat)
    ensures Slice(s, 32 * k, 32 * (k + 1)) == s(k)
  {
    forall i | 0 <= i < 32
      ensures ByteAt(s, 32 * k + i) == s(k)[i]
    {
      assert (32 * k + i) / 32 == k && (32 * k + i) % 32 == i;
    }
  }

  lemma SliceConcat(s: Stream, from: nat, mid: nat, to: nat)
    requires from <= mid <= to
    ensures Slice(s, from, mid) + Slice(s, mid, to) == Slice(s, from, to)
  {
  }

  /** However two callers cut up their requests, equal totals read equal bytes. */
  lemma ChunkingIsIrrelevant(s: Stream, pos: nat, one: seq<nat>, other: seq<nat>)
    requires Total(one) == Total(other)
    ensures Joined(Chunks(s, pos, one)) == Joined(Chunks(s, pos, other))
  {
    ChunksJoin(s, pos, one);
    ChunksJoin(s, pos, other);
  }

  /** Fairness can be met: the all-zero stream never rejects. */
  lemma ZeroStreamIsFair(s: Stream)
    requires forall i: nat :: ByteAt(s, i) == 0
    ensures Fair(s)
  {
    forall upper: nat, pos: nat | 0 < upper
      ensures EventuallyInRange(s, upper, pos)
    {
      LimitCoversHalf(upper);
      assert GroupStart(upper, pos, 0) == pos;
      ZeroBytes(Slice(s, pos, pos + Width(upper)));
      assert InRangeAfter(s, upper, pos, 0);
    }
  }

  lemma {:induction false} ZeroBytes(bs: seq<Byte>)
    requires forall i :: 0 <= i < |bs| ==> bs[i] == 0
    ensures BigEndian(bs) == 0
  {
    if bs != [] {
      ZeroBytes(bs[..|bs| - 1]);
    }
  }

  // ---------------------------------------------------------------------------------------------

  /** The generator object. `position` is the number of bytes handed out so far. */
  class HashRng {
    const stream: Stream
    var counter: nat
    var buffer: seq<Byte>
    ghost var position: nat

    ghost predicate Valid()
      reads this
    {
      && position <= 32 * counter
      && buffer == Slice(stream, position, 32 * counter)
    }

    constructor (stream: Stream)
      ensures Valid() && this.stream == stream && position == 0
    {
      this.stream := stream;
      counter := 0;
      buffer := [];
      position := 0;
    }

    static method Create(hmac: (seq<Byte>, nat) -> Block, key: seq<Byte>) returns (r: Result<HashRng, RngError>)
      ensures if |key| < 32 then r == Err(ShortKey) else r.Ok?
      ensures r.Ok? ==> fresh(r.value) && r.value.Valid() && r.value.position == 0
      ensures r.Ok? ==> r.value.stream == KeyStream(hmac, key) && forall i: nat :: r.value.stream(i) == hmac(key, i)
    {
      if |key| < 32 {
        return Err(ShortKey);
      }
      var rng := new HashRng(KeyStream(hmac, key));
      return Ok(rng);
    }

    /** Reads whole blocks until `count` bytes are buffered, and no more than needed. */
    method Fill(count: nat)
      requires Valid()
      modifies this`counter, this`buffer
      ensures Valid() && count <= |buffer|
      ensures counter == old(counter) || |buffer| < count + 32
    {
      while |buffer| < count
        invariant Valid()
        invariant counter == old(counter) || |buffer| < count + 32
        decreases count - |buffer|
      {
        var block := stream(counter);
        BlockIsSlice(stream, counter);
        SliceConcat(stream, position, 32 * counter, 32 * (counter + 1));
        counter := counter + 1;
        buffer := buffer + block;
      }
    }

    method Bytes(count: int) returns (r: Result<seq<Byte>, RngError>)
      requires Valid()
      modifies this
      ensures Valid()
      ensures count < 0 ==> r == Err(NegativeRequest) && position == old(position)
      ensures count >= 0 ==> position == old(position) + count && r == Ok(Slice(stream, old(position), position))
    {
      if count < 0 {
        return Err(NegativeRequest);
      }
      Fill(count);
      var out := buffer[..count];
      assert out == Slice(stream, position, position + count);
      assert buffer[count..] == Slice(stream, position + count, 32 * counter);
      buffer := buffer[count..];
      position := position + count;
      return Ok(out);
    }

    method RandBelow(upper: int) returns (r: Result<nat, RngError>)
      requires Valid() && Fair(stream)
      modifies this
      ensures Valid()
      ensures upper <= 0 ==> r == Err(NonPositiveBound) && position == old(position)
      ensures upper > 0 ==>
                var d := Draw(stream, upper, old(position));
                r == Ok(d.value) && d.value < upper && position == d.next
    {
      if upper <= 0 {
        return Err(NonPositiveBound);
      }
      var width := Width(upper);
      var limit := Limit(upper);
      ghost var k := 0;
      while true
        invariant Valid() && 0 <= k <= Rejected(stream, upper, old(position))
        invariant position == GroupStart(upper, old(position), k)
        decreases Rejected(stream, upper, old(position)) - k
      {
        ghost var before := position;
        var bytes := Bytes(width);
        var value := BigEndian(bytes.value);
        assert value == TryAt(stream, upper, before);
        if value < limit {
          assert InRangeAfter(stream, upper, old(position), k);
          assert k == Rejected(stream, upper, old(position));
          return Ok(value % upper);
        }
        assert !InRangeAfter(stream, upper, old(position), k);
        k := k + 1;
      }
    }

    method Bit() returns (b: bool)
      requires Valid() && Fair(stream)
      modifies this
      ensures Valid()
      ensures var d := DrawBit(stream, old(position)); b == d.value && position == d.next
      ensures b == (ByteAt(stream, old(position)) % 2 == 1) && position == old(position) + 1
    {
      BitIsLowestBit(stream, position);
      var v := RandBelow(2);
      return v.value != 0;
    }

    method Sample3(upper: int) returns (r: Result<Triple, RngError>)
      requires Valid() && Fair(stream)
      modifies this
      ensures Valid()
      ensures upper < 3 ==> r == Err(TooFewVariables) && position == old(position)
      ensures upper >= 3 ==>
                var d := DrawTriple(stream, upper, old(position));
                r == Ok(d.value) && DistinctInRange(d.value, upper) && position == d.next
    {
      if upper < 3 {
        return Err(TooFewVariables);
      }
      var first := RandBelow(upper);
      var second := RandBelow(upper - 1);
      var third := RandBelow(upper - 2);
      SampleIsInjective(upper, first.value, second.value, third.value);
      var t := PastTaken(first.value, second.value, third.value);
      return Ok(t);
    }

    static method PastTaken(a: nat, second: nat, third: nat) returns (t: Triple)
      ensures t == SkipTaken(a, second, third)
    {
      var b := second;
      if b >= a {
        b := b + 1;
      }
      var low, high := Min(a, b), Max(a, b);
      var c := third;
      if c >= low {
        c := c + 1;
      }
      if c >= high {
        c := c + 1;
      }
      t := Triple(a + 1, b + 1, c + 1);
    }
  }
}
