/** The one-bit-per-variable assignment codec of `cathedral_thin/core.py`, at the level of its bytes:
    bit `(v - 1) % 8` of byte `(v - 1) / 8` is set exactly when variable `v` is true. */
module AssignmentCodec {
  import opened Prelude
  import opened Cnfs

  datatype EncodeError = InvalidLiteral | DuplicateOrOutOfRange | Incomplete
  datatype UnpackError = LengthMismatch | NonZeroPadding

  // ---------------------------------------------------------------------------------------------
  // Bits of a non-negative integer.

  predicate Bit(b: nat, j: nat) {
    if j == 0 then b % 2 == 1 else Bit(b / 2, j - 1)
  }

  /** `b | (1 << j)` */
  function SetBit(b: nat, j: nat): nat {
    if j == 0 then b - b % 2 + 1 else 2 * SetBit(b / 2, j - 1) + b % 2
  }

  /** `b >> k` */
  function ShiftRight(b: nat, k: nat): nat {
    if k == 0 then b else ShiftRight(b / 2, k - 1)
  }

  /** Setting one bit sets that bit and leaves every other bit alone. */
  lemma {:induction false} SetBitBits(b: nat, j: nat, i: nat)
    ensures Bit(SetBit(b, j), i) <==> i == j || Bit(b, i)
  {
    if j > 0 {
      assert SetBit(b, j) / 2 == SetBit(b / 2, j - 1) && SetBit(b, j) % 2 == b % 2;
      if i > 0 {
        SetBitBits(b / 2, j - 1, i - 1);
      }
    } else if i > 0 {
      assert SetBit(b, j) / 2 == b / 2;
    }
  }

  lemma {:induction false} SetBitBound(b: nat, j: nat, n: nat)
    requires j < n && b < Pow2(n)
    ensures SetBit(b, j) < Pow2(n)
  {
    assert Pow2(n) == 2 * Pow2(n - 1);
    assert b / 2 < Pow2(n - 1) && b % 2 <= 1;
    if j > 0 {
      SetBitBound(b / 2, j - 1, n - 1);
    }
  }

  lemma {:induction false} SameBitsSameNumber(a: nat, b: nat, n: nat)
    requires a < Pow2(n) && b < Pow2(n)
    requires forall j: nat :: j < n ==> (Bit(a, j) <==> Bit(b, j))
    ensures a == b
  {
    if n > 0 {
      assert Bit(a, 0) <==> Bit(b, 0);
      forall j: nat | j < n - 1
        ensures Bit(a / 2, j) <==> Bit(b / 2, j)
      {
        assert Bit(a, j + 1) <==> Bit(b, j + 1);
      }
      SameBitsSameNumber(a / 2, b / 2, n - 1);
    }
  }

  predicate NoBits(b: nat, lo: nat, hi: nat) {
    forall j: nat :: lo <= j < hi ==> !Bit(b, j)
  }

  lemma NoBitsHalf(b: nat, lo: nat, hi: nat)
    requires 0 < lo && 0 < hi
    ensures NoBits(b, lo, hi) <==> NoBits(b / 2, lo - 1, hi - 1)
  {
    if NoBits(b, lo, hi) {
      forall j: nat | lo - 1 <= j < hi - 1
        ensures !Bit(b / 2, j)
      {
        assert !Bit(b, j + 1);
      }
    }
    if NoBits(b / 2, lo - 1, hi - 1) {
      forall j: nat | lo <= j < hi
        ensures !Bit(b, j)
      {
        assert !Bit(b / 2, j - 1);
      }
    }
  }

  /** Shifting leaves nothing exactly when no bit at or above the shift is set. */
  lemma {:induction false} ShiftedOut(b: nat, k: nat, n: nat)
    requires b < Pow2(n)
    ensures ShiftRight(b, k) == 0 <==> NoBits(b, k, n)
    decreases k
  {
    if k == 0 {
      ZeroHasNoBits(n);
      if NoBits(b, 0, n) {
        SameBitsSameNumber(b, 0, n);
      }
    } else if n == 0 {
      ShiftedOut(b / 2, k - 1, 0);
    } else {
      ShiftedOut(b / 2, k - 1, n - 1);
      NoBitsHalf(b, k, n);
    }
  }

  lemma {:induction false} ZeroHasNoBits(n: nat)
    ensures forall j: nat :: j < n ==> !Bit(0, j)
  {
    forall j: nat | j < n
      ensures !Bit(0, j)
    {
      ZeroBit(j);
    }
  }

  lemma {:induction false} ZeroBit(j: nat)
    ensures !Bit(0, j)
  {
    if j > 0 {
      ZeroBit(j - 1);
    }
  }

  // ---------------------------------------------------------------------------------------------
  // Bytes.

  function ByteCount(nVars: int): int {
    (nVars + 7) / 8
  }

  /** Whether the bit of variable `v` is set. */
  predicate BitOf(packed: seq<Byte>, v: int)
    requires 1 <= v <= 8 * |packed|
  {
    Bit(packed[(v - 1) / 8], (v - 1) % 8)
  }

  function WithBit(packed: seq<Byte>, v: int): (r: seq<Byte>)
    requires 1 <= v <= 8 * |packed|
    ensures |r| == |packed|
  {
    SetBitBound(packed[(v - 1) / 8], (v - 1) % 8, 8);
    packed[(v - 1) / 8 := SetBit(packed[(v - 1) / 8], (v - 1) % 8)]
  }

  /** The bytes after the first `m` variables of a list of literals have been packed. */
  function PackedUpTo(lits: seq<int>, nVars: nat, m: nat): (r: seq<Byte>)
    requires m <= nVars
    ensures |r| == ByteCount(nVars)
  {
    if m == 0 then seq<Byte>(ByteCount(nVars), _ => 0)
    else
      var before := PackedUpTo(lits, nVars, m - 1);
      if m in lits then WithBit(before, m) else before
  }

  function Packed(lits: seq<int>, nVars: nat): (r: seq<Byte>)
    ensures |r| == ByteCount(nVars)
  {
    PackedUpTo(lits, nVars, nVars)
  }

  lemma WithBitBits(packed: seq<Byte>, v: int, u: int)
    requires 1 <= v <= 8 * |packed| && 1 <= u <= 8 * |packed|
    ensures BitOf(WithBit(packed, v), u) <==> u == v || BitOf(packed, u)
  {
    SetBitBits(packed[(v - 1) / 8], (v - 1) % 8, (u - 1) % 8);
  }

  lemma {:induction false} PackedUpToBits(lits: seq<int>, nVars: nat, m: nat, v: int)
    requires m <= nVars && 1 <= v <= 8 * ByteCount(nVars)
    ensures BitOf(PackedUpTo(lits, nVars, m), v) <==> v <= m && v in lits
  {
    if m == 0 {
      ZeroBit((v - 1) % 8);
    } else {
      PackedUpToBits(lits, nVars, m - 1, v);
      if m in lits {
        WithBitBits(PackedUpTo(lits, nVars, m - 1), m, v);
      }
    }
  }

  lemma SameBitsSameBytes(a: seq<Byte>, b: seq<Byte>)
    requires |a| == |b|
    requires forall v :: 1 <= v <= 8 * |a| ==> (BitOf(a, v) <==> BitOf(b, v))
    ensures a == b
  {
    forall k | 0 <= k < |a|
      ensures a[k] == b[k]
    {
      forall j: nat | j < 8
        ensures Bit(a[k], j) <==> Bit(b[k], j)
      {
        var v := 8 * k + j + 1;
        assert (v - 1) / 8 == k && (v - 1) % 8 == j;
        assert BitOf(a, v) <==> BitOf(b, v);
      }
      assert Pow2(8) == 256;
      SameBitsSameNumber(a[k], b[k], 8);
    }
  }

  // ---------------------------------------------------------------------------------------------
  // The codec.

  /** The source's length test and padding test. */
  predicate ShapeAccepted(packed: seq<Byte>, nVars: int) {
    |packed| == ByteCount(nVars)
    && !(nVars % 8 != 0 && packed != [] && ShiftRight(packed[|packed| - 1], nVars % 8) != 0)
  }

  function Unpack(packed: seq<Byte>, nVars: int): Result<seq<int>, UnpackError> {
    if |packed| != ByteCount(nVars) then Err(LengthMismatch)
    else if nVars % 8 != 0 && packed != [] && ShiftRight(packed[|packed| - 1], nVars % 8) != 0 then Err(NonZeroPadding)
    else Ok(Signs(packed, nVars))
  }

  function Signs(packed: seq<Byte>, nVars: int): seq<int>
    requires |packed| == ByteCount(nVars)
  {
    seq(if nVars < 0 then 0 else nVars, i requires 0 <= i < nVars => if BitOf(packed, i + 1) then i + 1 else -(i + 1))
  }

  /** A complete list of literals put in variable order. */
  function InVariableOrder(lits: seq<int>, nVars: nat): seq<int> {
    seq(nVars, i requires 0 <= i < nVars => if i + 1 in lits then i + 1 else -(i + 1))
  }

  /** The padding test is about bits: no bit beyond the last variable may be set. */
  lemma PaddingIsBits(packed: seq<Byte>, nVars: nat)
    requires |packed| == ByteCount(nVars)
    ensures ShapeAccepted(packed, nVars) <==> forall v :: nVars < v <= 8 * |packed| ==> !BitOf(packed, v)
  {
    if nVars % 8 != 0 {
      var last := |packed| - 1;
      assert Pow2(8) == 256;
      ShiftedOut(packed[last], nVars % 8, 8);
      if ShapeAccepted(packed, nVars) {
        forall v | nVars < v <= 8 * |packed|
          ensures !BitOf(packed, v)
        {
          var j: nat := (v - 1) % 8;
          assert (v - 1) / 8 == last && nVars % 8 <= j < 8;
          assert !Bit(packed[last], j);
        }
      } else {
        var j: nat :| nVars % 8 <= j < 8 && Bit(packed[last], j);
        var v := 8 * last + j + 1;
        assert (v - 1) / 8 == last && (v - 1) % 8 == j;
        assert BitOf(packed, v) && nVars < v;
      }
    }
  }

  lemma PackedIsAccepted(lits: seq<int>, nVars: nat)
    ensures ShapeAccepted(Packed(lits, nVars), nVars)
    ensures forall v :: 1 <= v <= nVars ==> (BitOf(Packed(lits, nVars), v) <==> v in lits)
  {
    forall v | 1 <= v <= 8 * ByteCount(nVars)
      ensures BitOf(Packed(lits, nVars), v) <==> v <= nVars && v in lits
    {
      PackedUpToBits(lits, nVars, nVars, v);
    }
    PaddingIsBits(Packed(lits, nVars), nVars);
  }

  /** Unpacking a packed list of literals gives it back in variable order, whatever order it had. */
  lemma UnpackPacked(lits: seq<int>, nVars: nat)
    ensures Unpack(Packed(lits, nVars), nVars) == Ok(InVariableOrder(lits, nVars))
  {
    PackedIsAccepted(lits, nVars);
    assert Signs(Packed(lits, nVars), nVars) == InVariableOrder(lits, nVars);
  }

  /** Packing what was unpacked gives back the same bytes, so an accepted byte string is the one and
      only code of its assignment. */
  lemma PackUnpacked(packed: seq<Byte>, nVars: nat)
    requires ShapeAccepted(packed, nVars)
    ensures Unpack(packed, nVars).Ok?
    ensures Complete(Unpack(packed, nVars).value, nVars)
    ensures Packed(Unpack(packed, nVars).value, nVars) == packed
  {
    var lits := Unpack(packed, nVars).value;
    SignsAreComplete(packed, nVars);
    PaddingIsBits(packed, nVars);
    forall v | 1 <= v <= 8 * |packed|
      ensures BitOf(Packed(lits, nVars), v) <==> BitOf(packed, v)
    {
      PackedUpToBits(lits, nVars, nVars, v);
      if v <= nVars {
        SignAt(packed, nVars, v);
      }
    }
    SameBitsSameBytes(Packed(lits, nVars), packed);
  }

  lemma SignAt(packed: seq<Byte>, nVars: nat, v: int)
    requires |packed| == ByteCount(nVars) && 1 <= v <= nVars
    ensures Names(Signs(packed, nVars), v)
    ensures v in Signs(packed, nVars) <==> BitOf(packed, v)
  {
    assert Signs(packed, nVars)[v - 1] == if BitOf(packed, v) then v else -v;
  }

  lemma SignsAreComplete(packed: seq<Byte>, nVars: nat)
    requires |packed| == ByteCount(nVars)
    ensures Complete(Signs(packed, nVars), nVars)
  {
    var lits := Signs(packed, nVars);
    forall v {:trigger Names(lits, v)} | 1 <= v <= nVars
      ensures Names(lits, v)
    {
      SignAt(packed, nVars, v);
    }
  }

  lemma OneSignEach(lits: seq<int>, nVars: nat, v: int)
    requires Complete(lits, nVars) && 1 <= v <= nVars
    ensures v in lits <==> -v !in lits
  {
    assert Names(lits, v);
  }

  lemma InOrderAt(lits: seq<int>, nVars: nat, v: int)
    requires 1 <= v <= nVars
    ensures Names(InVariableOrder(lits, nVars), v)
    ensures v in InVariableOrder(lits, nVars) <==> v in lits
    ensures -v in InVariableOrder(lits, nVars) <==> v !in lits
  {
    assert InVariableOrder(lits, nVars)[v - 1] == if v in lits then v else -v;
  }

  lemma OrderKeepsLiterals(lits: seq<int>, nVars: nat)
    requires Complete(lits, nVars)
    ensures Complete(InVariableOrder(lits, nVars), nVars)
    ensures forall lit :: lit in InVariableOrder(lits, nVars) <==> lit in lits
  {
    var sorted := InVariableOrder(lits, nVars);
    forall v {:trigger Names(sorted, v)} | 1 <= v <= nVars
      ensures Names(sorted, v)
    {
      InOrderAt(lits, nVars, v);
    }
    forall lit
      ensures lit in sorted <==> lit in lits
    {
      if lit in lits {
        var i :| 0 <= i < |lits| && lits[i] == lit;
        assert LiteralInRange(lits[i], nVars);
      }
      if LiteralInRange(lit, nVars) {
        OneSignEach(lits, nVars, Abs(lit));
        InOrderAt(lits, nVars, Abs(lit));
        assert lit == Abs(lit) || lit == -Abs(lit);
      }
    }
  }

  /** A list of literals with no fault so far. */
  predicate Faultless(lits: seq<int>, nVars: int) {
    InRange(lits, nVars) && DistinctVariables(lits)
  }

  /** `encode_assignment` without its base64 step. It accepts exactly the complete lists; otherwise it
      reports the first faulty literal, or that variables are missing. */
  method EncodeAssignment(assignment: seq<int>, nVars: int) returns (r: Result<seq<Byte>, EncodeError>)
    ensures Complete(assignment, nVars) ==> r == Ok(Packed(assignment, nVars))
    ensures r == Err(Incomplete) <==> Faultless(assignment, nVars) && !Complete(assignment, nVars)
    ensures r == Err(InvalidLiteral) <==>
              exists k :: 0 <= k < |assignment| && Faultless(assignment[..k], nVars) && assignment[k] == 0
    ensures r.Ok? ==> Complete(assignment, nVars)
  {
    var values: map<int, bool> := map[];
    for k := 0 to |assignment|
      invariant Records(values, assignment[..k]) && Faultless(assignment[..k], nVars)
      invariant forall i :: 0 <= i < k ==> assignment[i] != 0
    {
      var lit := assignment[k];
      ghost var longer := assignment[..k] + [lit];
      assert longer == assignment[..k + 1];
      if lit == 0 {
        assert !LiteralInRange(assignment[k], nVars);
        return Err(InvalidLiteral);
      }
      var v := Abs(lit);
      DistinctExtend(values, assignment[..k], lit);
      if v > nVars || v in values {
        FaultStays(assignment, k, nVars);
        return Err(DuplicateOrOutOfRange);
      }
      RecordsExtend(values, assignment[..k], lit);
      values := values[v := lit > 0];
    }
    assert assignment[..|assignment|] == assignment;
    RecordedAll(values, assignment, nVars);
    if |values| != nVars {
      return Err(Incomplete);
    }
    var packed := PackLoop(values, assignment, nVars);
    return Ok(packed);
  }

  lemma FaultStays(lits: seq<int>, k: nat, nVars: int)
    requires k < |lits| && lits[k] != 0
    requires Abs(lits[k]) > nVars || !DistinctVariables(lits[..k + 1])
    ensures !Faultless(lits, nVars)
    ensures forall j :: k < j < |lits| ==> !Faultless(lits[..j], nVars)
  {
    NotComplete(lits, k, nVars);
    forall j | k < j <= |lits|
      ensures !Faultless(lits[..j], nVars)
    {
      var some := lits[..j];
      if Abs(lits[k]) > nVars {
        assert !LiteralInRange(some[k], nVars);
      } else {
        var a, b :| 0 <= a < b < k + 1 && Abs(lits[..k + 1][a]) == Abs(lits[..k + 1][b]);
        assert Abs(some[a]) == Abs(some[b]);
      }
    }
    assert lits[..|lits|] == lits;
  }

  /** The packing loop over a fixed-size buffer of bytes. */
  method PackLoop(values: map<int, bool>, ghost lits: seq<int>, nVars: nat) returns (packed: seq<Byte>)
    requires Records(values, lits) && forall v :: 1 <= v <= nVars ==> v in values
    ensures packed == Packed(lits, nVars)
  {
    var buffer := new Byte[ByteCount(nVars)](_ => 0);
    assert buffer[..] == PackedUpTo(lits, nVars, 0);
    for v := 1 to nVars + 1
      invariant buffer[..] == PackedUpTo(lits, nVars, v - 1)
    {
      RecordedSign(values, lits, v);
      if values[v] {
        ghost var before := buffer[..];
        SetBitBound(buffer[(v - 1) / 8], (v - 1) % 8, 8);
        buffer[(v - 1) / 8] := SetBit(buffer[(v - 1) / 8], (v - 1) % 8);
        assert buffer[..] == WithBit(before, v);
      }
    }
    packed := buffer[..];
  }

  // ---------------------------------------------------------------------------------------------
  // The layout of the bytes.

  lemma {:induction false} BitIsQuotient(b: nat, j: nat)
    ensures Bit(b, j) <==> b / Pow2(j) % 2 == 1
    decreases j
  {
    if j > 0 {
      BitIsQuotient(b / 2, j - 1);
      HalfThenRest(b, Pow2(j - 1));
    }
  }

  lemma HalfThenRest(b: nat, p: nat)
    requires p > 0
    ensures b / 2 / p == b / (2 * p)
  {
    var h, q := b / 2, b / 2 / p;
    var r := h - q * p;
    assert 0 <= r < p;
    assert b == 2 * (q * p + r) + b % 2;
    assert 2 * (q * p + r) + b % 2 == q * (2 * p) + (2 * r + b % 2);
    QuotientUnique(b, 2 * p, q, 2 * r + b % 2);
  }

  /** Enough whole bytes for the variables, and no more. */
  lemma BytesAreEnough(nVars: nat)
    ensures nVars <= 8 * ByteCount(nVars) < nVars + 8
  {
  }

  /** Variable `v` is bit `(v - 1) % 8` of byte `(v - 1) / 8`, the lowest bit first, set when it is true; the bits
      beyond the last variable are clear. */
  lemma PackedLayout(lits: seq<int>, nVars: nat, v: nat)
    requires 1 <= v <= 8 * ByteCount(nVars)
    ensures Packed(lits, nVars)[(v - 1) / 8] / Pow2((v - 1) % 8) % 2 == (if v <= nVars && v in lits then 1 else 0)
  {
    PackedUpToBits(lits, nVars, nVars, v);
    BitIsQuotient(Packed(lits, nVars)[(v - 1) / 8], (v - 1) % 8);
  }

  /** Bytes are an assignment exactly when there are enough of them, no more, and no bit beyond the last variable is
      set; and then they are read with the same layout. */
  lemma UnpackLayout(packed: seq<Byte>, nVars: nat, v: nat)
    requires 1 <= v <= nVars
    ensures Unpack(packed, nVars) == Err(LengthMismatch) <==> |packed| != (nVars + 7) / 8
    ensures Unpack(packed, nVars) == Err(NonZeroPadding) <==>
              |packed| == (nVars + 7) / 8 && exists u :: nVars < u <= 8 * |packed| && BitOf(packed, u)
    ensures Unpack(packed, nVars).Ok? ==>
              && |Unpack(packed, nVars).value| == nVars
              && Unpack(packed, nVars).value[v - 1]
                 == if packed[(v - 1) / 8] / Pow2((v - 1) % 8) % 2 == 1 then v else 0 - v
  {
    BytesAreEnough(nVars);
    if |packed| == ByteCount(nVars) {
      PaddingIsBits(packed, nVars);
      BitIsQuotient(packed[(v - 1) / 8], (v - 1) % 8);
    }
  }
}
