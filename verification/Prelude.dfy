/** What every module shares: result types (the source signals failure by raising, the model by returning
    `Err`), names, and a few facts about sequences. */
module Prelude {

  datatype Option<+T> = None | Some(value: T) {
    function GetOr(default: T): T {
      match this
      case Some(v) => v
      case None => default
    }
  }

  datatype Result<+T, +E> = Ok(value: T) | Err(error: E)

  type Hotkey = string
  type Coldkey = string
  type ClassId = string
  type Digest = string

  type Byte = b: int | 0 <= b < 256

  function Abs(x: int): int {
    if x < 0 then -x else x
  }

  function Pow2(n: nat): (p: nat)
    ensures p >= 1
  {
    if n == 0 then 1 else 2 * Pow2(n - 1)
  }

  predicate NoRepeats<T(==)>(s: seq<T>) {
    forall i, j :: 0 <= i < j < |s| ==> s[i] != s[j]
  }

  lemma SameMembers<T>(a: seq<T>, b: seq<T>)
    requires multiset(a) == multiset(b)
    ensures forall x :: x in a <==> x in b
  {
    forall x: T
      ensures x in a <==> x in b
    {
      assert x in multiset(a) <==> x in multiset(b);
    }
  }

  lemma FirstThenRest<T>(front: seq<T>, more: seq<T>)
    requires more != []
    ensures front + [more[0]] + more[1..] == front + more
  {
  }

  lemma AtLeastOnce(m: nat, upper: nat)
    requires 0 < m
    ensures m * upper >= upper
  {
  }

  lemma MultipleTooSmall(d: int, upper: nat)
    requires 0 - upper < d * upper < upper
    ensures d == 0
  {
    if d > 0 {
      AtLeastOnce(d, upper);
    }
  }

  lemma QuotientUnique(x: nat, upper: nat, q: nat, r: nat)
    requires 0 < upper && r < upper && x == q * upper + r
    ensures x / upper == q && x % upper == r
  {
    var p, t := x / upper, x % upper;
    assert (p - q) * upper == p * upper - q * upper;
    MultipleTooSmall(p - q, upper);
  }
}
