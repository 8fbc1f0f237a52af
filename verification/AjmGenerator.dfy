/** The planted 3-SAT generator of `cathedral_thin/core.py`: random three-variable clauses, kept when
    the hidden assignment makes one or two of their literals true and they were not kept before. */
module AjmGenerator {
  import opened Prelude
  import opened RandomStream
  import opened Cnfs

  datatype GenerateError = ShortSeed | VariablesOutOfBounds | ClausesOutOfBounds | NotEnoughUniqueClauses

  const MIN_ATTEMPTS := 10_000
  const ATTEMPTS_PER_CLAUSE := 32

  function MaxAttempts(nClauses: int): nat {
    if ATTEMPTS_PER_CLAUSE * nClauses > MIN_ATTEMPTS then ATTEMPTS_PER_CLAUSE * nClauses else MIN_ATTEMPTS
  }

  /** What the generator reads from its random stream: a bit or a triple of variables at a stream
      position, with the position after it. */
  datatype Source = Source(bit: nat -> Drawn<bool>, triple: nat -> Drawn<Triple>)

  ghost function SourceOf(s: Stream, nVars: nat): Source
    requires Fair(s) && 3 <= nVars
  {
    Source((pos: nat) => if Fair(s) then DrawBit(s, pos) else Drawn(false, pos),
           (pos: nat) => if Fair(s) && 3 <= nVars then DrawTriple(s, nVars, pos) else Drawn(Triple(1, 2, 3), pos))
  }

  /** `src` gives what the stream gives. */
  ghost predicate Feeds(src: Source, s: Stream, nVars: nat)
    requires Fair(s) && 3 <= nVars
  {
    && (forall pos: nat {:trigger DrawBit(s, pos)} :: src.bit(pos) == DrawBit(s, pos))
    && (forall pos: nat {:trigger DrawTriple(s, nVars, pos)} :: src.triple(pos) == DrawTriple(s, nVars, pos))
  }

  ghost predicate DrawsVariables(src: Source, nVars: nat) {
    forall pos: nat :: DistinctInRange(src.triple(pos).value, nVars)
  }

  lemma SourceDrawsVariables(s: Stream, nVars: nat)
    requires Fair(s) && 3 <= nVars
    ensures DrawsVariables(SourceOf(s, nVars), nVars)
  {
    forall pos: nat
      ensures DistinctInRange(SourceOf(s, nVars).triple(pos).value, nVars)
    {
      var a := Draw(s, nVars, pos);
      var b := Draw(s, nVars - 1, a.next);
      var c := Draw(s, nVars - 2, b.next);
      SampleIsInjective(nVars, a.value, b.value, c.value);
    }
  }

  /** The hidden bits; bit `v - 1` belongs to variable `v`. */
  function HiddenBits(src: Source, pos: nat, n: nat): (d: Drawn<seq<bool>>)
    ensures |d.value| == n
  {
    if n == 0 then Drawn([], pos)
    else
      var before := HiddenBits(src, pos, n - 1);
      var bit := src.bit(before.next);
      Drawn(before.value + [bit.value], bit.next)
  }

  function Sorted(t: Triple): Triple {
    var low, high := Min(t.a, Min(t.b, t.c)), Max(t.a, Max(t.b, t.c));
    Triple(low, t.a + t.b + t.c - low - high, high)
  }

  function Signed(v: int, positive: bool): int {
    if positive then v else -v
  }

  /** One attempt: three sorted variables, then one sign bit for each. */
  function Candidate(src: Source, pos: nat): Drawn<Clause> {
    var t := src.triple(pos);
    var vs := Sorted(t.value);
    var x := src.bit(t.next);
    var y := src.bit(x.next);
    var z := src.bit(y.next);
    Drawn(Clause(Signed(vs.a, x.value), Signed(vs.b, y.value), Signed(vs.c, z.value)), z.next)
  }

  /** The first `k` attempts that start at a stream position. */
  function Candidates(src: Source, pos: nat, k: nat): (d: Drawn<seq<Clause>>)
    ensures |d.value| == k
  {
    if k == 0 then Drawn([], pos)
    else
      var before := Candidates(src, pos, k - 1);
      var c := Candidate(src, before.next);
      Drawn(before.value + [c.value], c.next)
  }

  predicate LiteralTrue(hidden: seq<bool>, lit: int) {
    1 <= Abs(lit) <= |hidden| && (lit > 0) == hidden[Abs(lit) - 1]
  }

  function TrueCount(hidden: seq<bool>, c: Clause): nat {
    (if LiteralTrue(hidden, c.a) then 1 else 0)
    + (if LiteralTrue(hidden, c.b) then 1 else 0)
    + (if LiteralTrue(hidden, c.c) then 1 else 0)
  }

  predicate Admissible(hidden: seq<bool>, c: Clause) {
    TrueCount(hidden, c) == 1 || TrueCount(hidden, c) == 2
  }

  /** The admissible clauses of a list of attempts, repeats dropped, first occurrences in order. */
  function Kept(hidden: seq<bool>, tried: seq<Clause>): seq<Clause> {
    if tried == [] then []
    else
      var kept, c := Kept(hidden, tried[..|tried| - 1]), tried[|tried| - 1];
      if Admissible(hidden, c) && c !in kept then kept + [c] else kept
  }

  /** The clauses a random source determines: the first `nClauses` kept ones, when the attempt bound
      is enough to find that many. */
  function Determined(src: Source, nVars: nat, nClauses: nat): Result<seq<Clause>, GenerateError> {
    var hidden := HiddenBits(src, 0, nVars);
    var all := Kept(hidden.value, Candidates(src, hidden.next, MaxAttempts(nClauses)).value);
    if |all| < nClauses then Err(NotEnoughUniqueClauses) else Ok(all[..nClauses])
  }

  function Planted(hidden: seq<bool>): seq<int> {
    seq(|hidden|, i requires 0 <= i < |hidden| => Signed(i + 1, hidden[i]))
  }

  function Complement(lits: seq<int>): seq<int> {
    seq(|lits|, i requires 0 <= i < |lits| => -lits[i])
  }

  predicate Increasing(c: Clause) {
    Abs(c.a) < Abs(c.b) < Abs(c.c)
  }

  lemma CandidateShape(src: Source, nVars: nat, pos: nat)
    requires DrawsVariables(src, nVars)
    ensures var c := Candidate(src, pos).value; WellFormedClause(c, nVars) && Increasing(c)
  {
    SortedShape(src.triple(pos).value, nVars);
  }

  lemma SortedShape(t: Triple, nVars: nat)
    requires DistinctInRange(t, nVars)
    ensures var r := Sorted(t); 1 <= r.a < r.b < r.c <= nVars
  {
  }

  lemma {:induction false} CandidatesShape(src: Source, nVars: nat, pos: nat, k: nat)
    requires DrawsVariables(src, nVars)
    ensures AllWellShaped(Candidates(src, pos, k).value, nVars)
  {
    if k > 0 {
      CandidatesShape(src, nVars, pos, k - 1);
      CandidateShape(src, nVars, Candidates(src, pos, k - 1).next);
    }
  }

  predicate AllWellShaped(cs: seq<Clause>, nVars: int) {
    forall i :: 0 <= i < |cs| ==> WellFormedClause(cs[i], nVars) && Increasing(cs[i])
  }

  lemma {:induction false} KeptShape(hidden: seq<bool>, tried: seq<Clause>)
    ensures var kept := Kept(hidden, tried);
            (forall i :: 0 <= i < |kept| ==> kept[i] in tried && Admissible(hidden, kept[i])) && NoRepeats(kept)
  {
    if tried != [] {
      var shorter, c := tried[..|tried| - 1], tried[|tried| - 1];
      KeptShape(hidden, shorter);
      assert tried == shorter + [c];
      var kept := Kept(hidden, shorter);
      forall i | 0 <= i < |kept|
        ensures kept[i] in tried && Admissible(hidden, kept[i])
      {
        assert kept[i] in shorter;
      }
    }
  }

  /** Nothing admissible that was tried is lost. */
  lemma {:induction false} KeptIsAll(hidden: seq<bool>, tried: seq<Clause>, i: nat)
    requires i < |tried| && Admissible(hidden, tried[i])
    ensures tried[i] in Kept(hidden, tried)
  {
    if i < |tried| - 1 {
      KeptIsAll(hidden, tried[..|tried| - 1], i);
    }
  }

  lemma {:induction false} CandidatesPrefix(src: Source, pos: nat, j: nat, k: nat)
    requires j <= k
    ensures Candidates(src, pos, k).value[..j] == Candidates(src, pos, j).value
    decreases k
  {
    if j < k {
      CandidatesPrefix(src, pos, j, k - 1);
      var shorter := Candidates(src, pos, k - 1).value;
      var longer := Candidates(src, pos, k).value;
      assert longer[..k - 1] == shorter;
      assert longer[..j] == shorter[..j];
    }
  }

  lemma {:induction false} KeptPrefix(hidden: seq<bool>, tried: seq<Clause>, j: nat)
    requires j <= |tried|
    ensures Kept(hidden, tried[..j]) <= Kept(hidden, tried)
    decreases |tried|
  {
    if j < |tried| {
      var shorter := tried[..|tried| - 1];
      KeptPrefix(hidden, shorter, j);
      assert shorter[..j] == tried[..j];
    } else {
      assert tried[..j] == tried;
    }
  }

  lemma PlantedIsComplete(hidden: seq<bool>)
    ensures Complete(Planted(hidden), |hidden|)
    ensures Complete(Complement(Planted(hidden)), |hidden|)
    ensures forall lit :: LiteralInRange(lit, |hidden|) ==>
              (lit in Planted(hidden) <==> LiteralTrue(hidden, lit))
    ensures forall lit :: LiteralInRange(lit, |hidden|) ==>
              (lit in Complement(Planted(hidden)) <==> !LiteralTrue(hidden, lit))
  {
    var p, q := Planted(hidden), Complement(Planted(hidden));
    forall v | 1 <= v <= |hidden|
      ensures v in p || -v in p
      ensures v in q || -v in q
    {
      assert p[v - 1] == Signed(v, hidden[v - 1]) && q[v - 1] == -p[v - 1];
    }
    forall lit | LiteralInRange(lit, |hidden|)
      ensures lit in p <==> LiteralTrue(hidden, lit)
      ensures lit in q <==> !LiteralTrue(hidden, lit)
    {
      var i := Abs(lit) - 1;
      assert p[i] == Signed(i + 1, hidden[i]) && q[i] == -p[i];
    }
  }

  /** A clause with one or two true literals is satisfied by the hidden assignment and by its flip. */
  lemma AdmissibleMeansBoth(hidden: seq<bool>, c: Clause)
    requires WellFormedClause(c, |hidden|) && Admissible(hidden, c)
    ensures Satisfies(Planted(hidden), c) && Satisfies(Complement(Planted(hidden)), c)
  {
    PlantedIsComplete(hidden);
  }

  /** A clause is kept exactly when it is true under the hidden assignment and under its complement. */
  lemma AdmissibleExactlyWhenBoth(hidden: seq<bool>, c: Clause)
    requires WellFormedClause(c, |hidden|)
    ensures Admissible(hidden, c) <==> Satisfies(Planted(hidden), c) && Satisfies(Complement(Planted(hidden)), c)
  {
    PlantedIsComplete(hidden);
  }

  /** The hidden assignment makes a variable true exactly where its bit is set. */
  lemma PlantedFollowsBits(hidden: seq<bool>, v: nat)
    requires 1 <= v <= |hidden|
    ensures Planted(hidden)[v - 1] == if hidden[v - 1] then v else 0 - v
  {
  }

  /** The hidden bits are the lowest bits of the first bytes of the stream. */
  lemma {:induction false} HiddenBitsAreLowestBits(src: Source, s: Stream, nVars: nat, pos: nat, n: nat)
    requires Fair(s) && 3 <= nVars && Feeds(src, s, nVars)
    ensures var d := HiddenBits(src, pos, n);
            d.next == pos + n && forall i :: 0 <= i < n ==> d.value[i] == (ByteAt(s, pos + i) % 2 == 1)
  {
    if n > 0 {
      HiddenBitsAreLowestBits(src, s, nVars, pos, n - 1);
      BitIsLowestBit(s, pos + n - 1);
    }
  }

  /** An attempt draws three variables and then the sign of each, smallest variable first, from one byte. */
  lemma CandidateIsDrawn(src: Source, s: Stream, nVars: nat, pos: nat)
    requires Fair(s) && 3 <= nVars && Feeds(src, s, nVars)
    ensures var (t, d) := (DrawTriple(s, nVars, pos), Candidate(src, pos));
            && d.next == t.next + 3
            && Abs(d.value.a) < Abs(d.value.b) < Abs(d.value.c)
            && {Abs(d.value.a), Abs(d.value.b), Abs(d.value.c)} == {t.value.a, t.value.b, t.value.c}
            && (d.value.a > 0 <==> ByteAt(s, t.next) % 2 == 1)
            && (d.value.b > 0 <==> ByteAt(s, t.next + 1) % 2 == 1)
            && (d.value.c > 0 <==> ByteAt(s, t.next + 2) % 2 == 1)
  {
    var t := DrawTriple(s, nVars, pos);
    TripleInRange(s, nVars, pos);
    assert src.triple(pos) == t;
    SortedShape(t.value, nVars);
    SortedMembers(t.value);
    BitIsFed(src, s, nVars, t.next);
    BitIsFed(src, s, nVars, t.next + 1);
    BitIsFed(src, s, nVars, t.next + 2);
    var (x, y, z) := (src.bit(t.next).value, src.bit(t.next + 1).value, src.bit(t.next + 2).value);
    CandidateOfBits(src, pos, t, x, y, z);
    SignedClause(Sorted(t.value), x, y, z);
  }

  lemma CandidateOfBits(src: Source, pos: nat, t: Drawn<Triple>, x: bool, y: bool, z: bool)
    requires src.triple(pos) == t && src.bit(t.next) == Drawn(x, t.next + 1)
    requires src.bit(t.next + 1) == Drawn(y, t.next + 2) && src.bit(t.next + 2) == Drawn(z, t.next + 3)
    ensures var v := Sorted(t.value);
            Candidate(src, pos) == Drawn(Clause(Signed(v.a, x), Signed(v.b, y), Signed(v.c, z)), t.next + 3)
  {
  }

  lemma BitIsFed(src: Source, s: Stream, nVars: nat, pos: nat)
    requires Fair(s) && 3 <= nVars && Feeds(src, s, nVars)
    ensures src.bit(pos) == Drawn(ByteAt(s, pos) % 2 == 1, pos + 1)
  {
    BitIsLowestBit(s, pos);
  }

  lemma SignedClause(v: Triple, x: bool, y: bool, z: bool)
    requires 1 <= v.a < v.b < v.c
    ensures var c := Clause(Signed(v.a, x), Signed(v.b, y), Signed(v.c, z));
            && Abs(c.a) == v.a && Abs(c.b) == v.b && Abs(c.c) == v.c
            && (c.a > 0 <==> x) && (c.b > 0 <==> y) && (c.c > 0 <==> z)
  {
  }

  lemma SortedMembers(t: Triple)
    ensures var v := Sorted(t); {v.a, v.b, v.c} == {t.a, t.b, t.c}
  {
    var low, high := Min(t.a, Min(t.b, t.c)), Max(t.a, Max(t.b, t.c));
    assert low in {t.a, t.b, t.c} && high in {t.a, t.b, t.c};
  }

  lemma TripleInRange(s: Stream, nVars: nat, pos: nat)
    requires Fair(s) && 3 <= nVars
    ensures DistinctInRange(DrawTriple(s, nVars, pos).value, nVars)
  {
    var a := Draw(s, nVars, pos);
    var b := Draw(s, nVars - 1, a.next);
    var c := Draw(s, nVars - 2, b.next);
    SampleIsInjective(nVars, a.value, b.value, c.value);
  }

  /** Attempts follow one another on the stream. */
  lemma AttemptsFollow(src: Source, pos: nat, i: nat, k: nat)
    requires i < k
    ensures Candidates(src, pos, k).value[i] == Candidate(src, Candidates(src, pos, i).next).value
    ensures Candidates(src, pos, i + 1).next == Candidate(src, Candidates(src, pos, i).next).next
    ensures Candidates(src, pos, 0).next == pos
  {
    CandidatesPrefix(src, pos, i + 1, k);
    assert Candidates(src, pos, k).value[..i + 1][i] == Candidates(src, pos, k).value[i];
  }

  /** The index of the first occurrence. */
  function First(tried: seq<Clause>, c: Clause): (i: nat)
    requires c in tried
    ensures i < |tried| && tried[i] == c && forall j :: 0 <= j < i ==> tried[j] != c
  {
    if tried[0] == c then 0 else 1 + First(tried[1..], c)
  }

  lemma FirstInFront(front: seq<Clause>, last: Clause, c: Clause)
    requires c in front
    ensures c in front + [last] && First(front + [last], c) == First(front, c)
  {
    var i, j := First(front, c), First(front + [last], c);
    assert (front + [last])[i] == c;
    assert j < |front| ==> front[j] == c;
  }

  /** The kept clauses are the admissible ones tried, each once, in the order of their first attempts. */
  lemma {:induction false} KeptExactly(hidden: seq<bool>, tried: seq<Clause>)
    ensures var kept := Kept(hidden, tried);
            && NoRepeats(kept) && (forall c :: c in kept <==> c in tried && Admissible(hidden, c))
            && forall i, j :: 0 <= i < j < |kept| ==> First(tried, kept[i]) < First(tried, kept[j])
  {
    if tried != [] {
      var front, c := tried[..|tried| - 1], tried[|tried| - 1];
      KeptExactly(hidden, front);
      assert tried == front + [c];
      var kept := Kept(hidden, front);
      forall x | x in kept
        ensures First(tried, x) == First(front, x) < |front|
      {
        FirstInFront(front, c, x);
      }
      if Admissible(hidden, c) && c !in kept {
        assert First(tried, c) == |front|;
      }
    }
  }

  /** The formula's clauses are the first kept ones, and ten thousand attempts are allowed, or thirty-two for each
      clause where that is more. */
  lemma ClausesAreFirstKept(src: Source, nVars: nat, nClauses: nat)
    ensures MaxAttempts(nClauses) == if nClauses <= 312 then 10_000 else 32 * nClauses
    ensures var hidden := HiddenBits(src, 0, nVars);
            var kept := Kept(hidden.value, Candidates(src, hidden.next, MaxAttempts(nClauses)).value);
            (Determined(src, nVars, nClauses).Ok? <==> |kept| >= nClauses)
            && (Determined(src, nVars, nClauses).Ok? ==> Determined(src, nVars, nClauses).value <= kept)
  {
  }

  /** Everything promised of a generated formula. */
  ghost predicate TwoHiddenModels(cnf: Cnf, planted: seq<int>) {
    && WellFormed(cnf)
    && AllWellShaped(cnf.clauses, cnf.nVars)
    && NoRepeats(cnf.clauses)
    && IsModel(planted, cnf)
    && IsModel(Complement(planted), cnf)
  }

  lemma DeterminedHasTwoModels(src: Source, nVars: nat, nClauses: nat)
    requires DrawsVariables(src, nVars) && Determined(src, nVars, nClauses).Ok?
    ensures var clauses := Determined(src, nVars, nClauses).value;
            && |clauses| == nClauses
            && TwoHiddenModels(Cnf(nVars, clauses), Planted(HiddenBits(src, 0, nVars).value))
  {
    var hidden := HiddenBits(src, 0, nVars);
    var tried := Candidates(src, hidden.next, MaxAttempts(nClauses)).value;
    var clauses := Kept(hidden.value, tried)[..nClauses];
    CandidatesShape(src, nVars, hidden.next, MaxAttempts(nClauses));
    KeptShape(hidden.value, tried);
    PlantedIsComplete(hidden.value);
    forall i | 0 <= i < nClauses
      ensures WellFormedClause(clauses[i], nVars) && Increasing(clauses[i])
      ensures Satisfies(Planted(hidden.value), clauses[i])
      ensures Satisfies(Complement(Planted(hidden.value)), clauses[i])
    {
      assert clauses[i] in tried;
      AdmissibleMeansBoth(hidden.value, clauses[i]);
    }
  }

  /** Nothing is generated when more clauses are asked for than the attempts found; and then no
      admissible clause was overlooked. */
  lemma FailureFoundTooFew(src: Source, nVars: nat, nClauses: nat, distinct: seq<Clause>)
    requires Determined(src, nVars, nClauses).Err?
    requires NoRepeats(distinct)
    requires var hidden := HiddenBits(src, 0, nVars);
             forall i :: 0 <= i < |distinct| ==>
               Admissible(hidden.value, distinct[i])
               && distinct[i] in Candidates(src, hidden.next, MaxAttempts(nClauses)).value
    ensures |distinct| < nClauses
  {
    var hidden := HiddenBits(src, 0, nVars);
    var tried := Candidates(src, hidden.next, MaxAttempts(nClauses)).value;
    var kept := Kept(hidden.value, tried);
    forall i | 0 <= i < |distinct|
      ensures distinct[i] in kept
    {
      var k :| 0 <= k < |tried| && tried[k] == distinct[i];
      KeptIsAll(hidden.value, tried, k);
    }
    DistinctFit(distinct, kept);
  }

  lemma {:induction false} DistinctFit(distinct: seq<Clause>, kept: seq<Clause>)
    requires NoRepeats(distinct) && forall i :: 0 <= i < |distinct| ==> distinct[i] in kept
    ensures |distinct| <= |kept|
    decreases |distinct|
  {
    if distinct != [] {
      var last := distinct[|distinct| - 1];
      var k :| 0 <= k < |kept| && kept[k] == last;
      var rest := kept[..k] + kept[k + 1..];
      forall i | 0 <= i < |distinct| - 1
        ensures distinct[i] in rest
      {
        var j :| 0 <= j < |kept| && kept[j] == distinct[i];
        assert rest[if j < k then j else j - 1] == distinct[i];
      }
      DistinctFit(distinct[..|distinct| - 1], rest);
    }
  }

  /** What a seed determines. Generation raises exactly when a dimension is out of bounds, the seed is
      short, or the bounded attempts find too few distinct admissible clauses. */
  ghost function GeneratedFrom(hmac: (seq<Byte>, nat) -> Block, seed: seq<Byte>, nVars: int, nClauses: int)
    : Result<(Cnf, seq<int>), GenerateError>
    requires Fair(KeyStream(hmac, seed))
  {
    if !(3 <= nVars <= 100_000) then Err(VariablesOutOfBounds)
    else if !(1 <= nClauses <= 1_000_000) then Err(ClausesOutOfBounds)
    else if |seed| < 32 then Err(ShortSeed)
    else Generated(SourceOf(KeyStream(hmac, seed), nVars), nVars, nClauses)
  }

  method GenerateAjmCnf(hmac: (seq<Byte>, nat) -> Block, seed: seq<Byte>, nVars: int, nClauses: int)
      returns (r: Result<(Cnf, seq<int>), GenerateError>)
    requires Fair(KeyStream(hmac, seed))
    ensures r == GeneratedFrom(hmac, seed, nVars, nClauses)
    ensures r == Err(VariablesOutOfBounds) <==> nVars < 3 || nVars > 100_000
    ensures r == Err(ClausesOutOfBounds) <==> 3 <= nVars <= 100_000 && (nClauses < 1 || nClauses > 1_000_000)
    ensures r == Err(ShortSeed) <==> 3 <= nVars <= 100_000 && 1 <= nClauses <= 1_000_000 && |seed| < 32
  {
    if !(3 <= nVars <= 100_000) {
      return Err(VariablesOutOfBounds);
    }
    if !(1 <= nClauses <= 1_000_000) {
      return Err(ClausesOutOfBounds);
    }
    var made := HashRng.Create(hmac, seed);
    if made.Err? {
      return Err(ShortSeed);
    }
    ghost var src := SeedSource(hmac, seed, nVars, nClauses);
    r := Generate(made.value, nVars, nClauses, src);
  }

  lemma SeedSource(hmac: (seq<Byte>, nat) -> Block, seed: seq<Byte>, nVars: int, nClauses: int) returns (src: Source)
    requires Fair(KeyStream(hmac, seed)) && 32 <= |seed| && 3 <= nVars <= 100_000 && 1 <= nClauses <= 1_000_000
    ensures Feeds(src, KeyStream(hmac, seed), nVars)
    ensures GeneratedFrom(hmac, seed, nVars, nClauses) == Generated(src, nVars, nClauses)
  {
    src := SourceOf(KeyStream(hmac, seed), nVars);
  }

  /** Within the bounds a seed gives the first clauses kept of the attempts on its own stream, with the hidden bits read
      before them, or fails when these are too few. */
  lemma GeneratedExactly(hmac: (seq<Byte>, nat) -> Block, seed: seq<Byte>, nVars: int, nClauses: int, src: Source)
    requires Fair(KeyStream(hmac, seed)) && 32 <= |seed| && 3 <= nVars <= 100_000 && 1 <= nClauses <= 1_000_000
    requires src == SourceOf(KeyStream(hmac, seed), nVars)
    ensures forall i: nat :: KeyStream(hmac, seed)(i) == hmac(seed, i)
    ensures var hidden := HiddenBits(src, 0, nVars);
            var kept := Kept(hidden.value, Candidates(src, hidden.next, MaxAttempts(nClauses)).value);
            GeneratedFrom(hmac, seed, nVars, nClauses)
            == if |kept| < nClauses then Err(NotEnoughUniqueClauses)
               else Ok((Cnf(nVars, kept[..nClauses]), Planted(hidden.value)))
  {
  }

  function Generated(src: Source, nVars: nat, nClauses: nat): Result<(Cnf, seq<int>), GenerateError> {
    match Determined(src, nVars, nClauses)
    case Err(e) => Err(e)
    case Ok(clauses) => Ok((Cnf(nVars, clauses), Planted(HiddenBits(src, 0, nVars).value)))
  }

  method NextBit(rng: HashRng, ghost nVars: nat, ghost src: Source) returns (b: bool)
    requires rng.Valid() && Fair(rng.stream) && 3 <= nVars && Feeds(src, rng.stream, nVars)
    modifies rng
    ensures rng.Valid()
    ensures Drawn(b, rng.position) == src.bit(old(rng.position))
  {
    b := rng.Bit();
  }

  method NextVariables(rng: HashRng, nVars: nat, ghost src: Source) returns (t: Triple)
    requires rng.Valid() && Fair(rng.stream) && 3 <= nVars && Feeds(src, rng.stream, nVars)
    modifies rng
    ensures rng.Valid() && DistinctInRange(t, nVars)
    ensures Drawn(t, rng.position) == src.triple(old(rng.position))
  {
    var drawn := rng.Sample3(nVars);
    t := drawn.value;
  }

  method HiddenModel(rng: HashRng, nVars: nat, ghost src: Source) returns (model: seq<bool>)
    requires rng.Valid() && Fair(rng.stream) && 3 <= nVars && Feeds(src, rng.stream, nVars)
    modifies rng
    ensures rng.Valid() && |model| == nVars + 1
    ensures Drawn(model[1..], rng.position) == HiddenBits(src, old(rng.position), nVars)
  {
    model := [false];
    assert model[1..] == [];
    for v := 0 to nVars
      invariant rng.Valid() && |model| == v + 1
      invariant Drawn(model[1..], rng.position) == HiddenBits(src, old(rng.position), v)
    {
      ghost var bits := model[1..];
      var bit := NextBit(rng, nVars, src);
      model := model + [bit];
      assert model[1..] == bits + [bit];
    }
  }

  method Attempt(rng: HashRng, nVars: nat, model: seq<bool>, ghost src: Source) returns (clause: Clause, trueCount: nat)
    requires rng.Valid() && Fair(rng.stream) && 3 <= nVars && Feeds(src, rng.stream, nVars)
    requires |model| == nVars + 1
    modifies rng
    ensures rng.Valid()
    ensures Drawn(clause, rng.position) == Candidate(src, old(rng.position))
    ensures trueCount == TrueCount(model[1..], clause)
  {
    var variables := NextVariables(rng, nVars, src);
    var vs := Sorted(variables);
    SortedShape(variables, nVars);
    var x := NextBit(rng, nVars, src);
    var y := NextBit(rng, nVars, src);
    var z := NextBit(rng, nVars, src);
    clause := Clause(Signed(vs.a, x), Signed(vs.b, y), Signed(vs.c, z));
    trueCount := (if (clause.a > 0) == model[Abs(clause.a)] then 1 else 0)
      + (if (clause.b > 0) == model[Abs(clause.b)] then 1 else 0)
      + (if (clause.c > 0) == model[Abs(clause.c)] then 1 else 0);
  }

  method Generate(rng: HashRng, nVars: int, nClauses: int, ghost src: Source)
      returns (r: Result<(Cnf, seq<int>), GenerateError>)
    requires rng.Valid() && Fair(rng.stream) && rng.position == 0
    requires 3 <= nVars && 1 <= nClauses && Feeds(src, rng.stream, nVars)
    modifies rng
    ensures r == Generated(src, nVars, nClauses)
  {
    var model := HiddenModel(rng, nVars, src);
    ghost var hidden := HiddenBits(src, 0, nVars);
    assert model[1..] == hidden.value && rng.position == hidden.next;
    var clauses: seq<Clause> := [];
    var seen: set<Clause> := {};
    var attempts := 0;
    var maxAttempts := MaxAttempts(nClauses);
    while |clauses| < nClauses
      invariant rng.Valid() && 0 <= attempts <= maxAttempts && |clauses| <= nClauses
      invariant rng.position == Candidates(src, hidden.next, attempts).next
      invariant clauses == Kept(hidden.value, Candidates(src, hidden.next, attempts).value)
      invariant forall c :: c in seen <==> c in clauses
      decreases maxAttempts - attempts
    {
      ghost var done := attempts;
      attempts := attempts + 1;
      if attempts > maxAttempts {
        assert done == maxAttempts;
        RunningOut(src, nVars, nClauses);
        return Err(NotEnoughUniqueClauses);
      }
      var clause, trueCount := Attempt(rng, nVars, model, src);
      KeptStep(src, hidden.value, hidden.next, done);
      if trueCount !in {1, 2} || clause in seen {
        continue;
      }
      seen := seen + {clause};
      clauses := clauses + [clause];
    }
    StoppingEarly(src, nVars, nClauses, attempts);
    return Ok((Cnf(nVars, clauses), Planted(model[1..])));
  }

  /** Stopping as soon as enough clauses are kept gives what all the allowed attempts determine. */
  lemma StoppingEarly(src: Source, nVars: nat, nClauses: nat, k: nat)
    requires k <= MaxAttempts(nClauses)
    requires var hidden := HiddenBits(src, 0, nVars);
             |Kept(hidden.value, Candidates(src, hidden.next, k).value)| == nClauses
    ensures var hidden := HiddenBits(src, 0, nVars);
            Determined(src, nVars, nClauses) == Ok(Kept(hidden.value, Candidates(src, hidden.next, k).value))
  {
    var hidden := HiddenBits(src, 0, nVars);
    var all := Candidates(src, hidden.next, MaxAttempts(nClauses)).value;
    CandidatesPrefix(src, hidden.next, k, MaxAttempts(nClauses));
    KeptPrefix(hidden.value, all, k);
    var some := Kept(hidden.value, all[..k]);
    assert Kept(hidden.value, all)[..nClauses] == some;
  }

  lemma RunningOut(src: Source, nVars: nat, nClauses: nat)
    requires var hidden := HiddenBits(src, 0, nVars);
             |Kept(hidden.value, Candidates(src, hidden.next, MaxAttempts(nClauses)).value)| < nClauses
    ensures Generated(src, nVars, nClauses) == Err(NotEnoughUniqueClauses)
  {
  }

  /** What one more attempt does to the kept clauses. */
  lemma KeptStep(src: Source, hidden: seq<bool>, pos: nat, k: nat)
    ensures var kept := Kept(hidden, Candidates(src, pos, k).value);
            var c := Candidate(src, Candidates(src, pos, k).next);
            && Candidates(src, pos, k + 1).next == c.next
            && Kept(hidden, Candidates(src, pos, k + 1).value)
               == if Admissible(hidden, c.value) && c.value !in kept then kept + [c.value] else kept
  {
    var tried := Candidates(src, pos, k + 1).value;
    assert tried[..k] == Candidates(src, pos, k).value;
  }
}
