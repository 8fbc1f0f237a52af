/** Three-literal formulas and the witness checker of `cathedral_thin/core.py`. */
module Cnfs {
  import opened Prelude

  datatype Clause = Clause(a: int, b: int, c: int)

  datatype Cnf = Cnf(nVars: int, clauses: seq<Clause>)

  predicate LiteralInRange(lit: int, nVars: int) {
    lit != 0 && Abs(lit) <= nVars
  }

  predicate ClauseInRange(c: Clause, nVars: int) {
    LiteralInRange(c.a, nVars) && LiteralInRange(c.b, nVars) && LiteralInRange(c.c, nVars)
  }

  predicate LiteralsInRange(cnf: Cnf) {
    forall i :: 0 <= i < |cnf.clauses| ==> ClauseInRange(cnf.clauses[i], cnf.nVars)
  }

  predicate WellFormedClause(c: Clause, nVars: int) {
    && ClauseInRange(c, nVars)
    && Abs(c.a) != Abs(c.b) && Abs(c.a) != Abs(c.c) && Abs(c.b) != Abs(c.c)
  }

  predicate WellFormed(cnf: Cnf) {
    forall i :: 0 <= i < |cnf.clauses| ==> WellFormedClause(cnf.clauses[i], cnf.nVars)
  }

  predicate InRange(lits: seq<int>, nVars: int) {
    forall i :: 0 <= i < |lits| ==> LiteralInRange(lits[i], nVars)
  }

  predicate DistinctVariables(lits: seq<int>) {
    forall i, j :: 0 <= i < j < |lits| ==> Abs(lits[i]) != Abs(lits[j])
  }

  predicate Names(lits: seq<int>, v: int) {
    v in lits || -v in lits
  }

  /** A list of literals that names every variable exactly once, in any order. */
  ghost predicate Complete(lits: seq<int>, nVars: int) {
    nVars >= 0 && InRange(lits, nVars) && DistinctVariables(lits) && forall v :: 1 <= v <= nVars ==> Names(lits, v)
  }

  predicate Satisfies(lits: seq<int>, c: Clause) {
    c.a in lits || c.b in lits || c.c in lits
  }

  ghost predicate IsModel(lits: seq<int>, cnf: Cnf) {
    Complete(lits, cnf.nVars) && forall i :: 0 <= i < |cnf.clauses| ==> Satisfies(lits, cnf.clauses[i])
  }

  /** The dictionary built from a list of literals: the sign recorded for each variable. */
  ghost predicate Records(values: map<int, bool>, lits: seq<int>) {
    && (forall v :: v in values <==> v > 0 && Names(lits, v))
    && (forall v :: v in values ==> (v in lits <==> values[v]) && (-v in lits <==> !values[v]))
    && |values| == |lits|
  }

  predicate SignMatches(values: map<int, bool>, lit: int)
    requires Abs(lit) in values
  {
    values[Abs(lit)] == (lit > 0)
  }

  lemma RecordedSign(values: map<int, bool>, lits: seq<int>, lit: int)
    requires Records(values, lits) && lit != 0 && Abs(lit) in values
    ensures SignMatches(values, lit) <==> lit in lits
  {
    assert lit == Abs(lit) || lit == -Abs(lit);
  }

  /** One more literal for a variable not seen before. */
  lemma RecordsExtend(values: map<int, bool>, lits: seq<int>, lit: int)
    requires Records(values, lits) && lit != 0 && Abs(lit) !in values
    ensures Records(values[Abs(lit) := lit > 0], lits + [lit])
  {
    var more, longer := values[Abs(lit) := lit > 0], lits + [lit];
    assert !Names(lits, Abs(lit));
    assert forall x :: x in longer <==> x in lits || x == lit;
    forall v
      ensures v in more <==> v > 0 && Names(longer, v)
      ensures v in more ==> (v in longer <==> more[v]) && (-v in longer <==> !more[v])
    {
      assert v in values <==> v > 0 && Names(lits, v);
    }
    assert more.Keys == values.Keys + {Abs(lit)};
    assert |more| == |more.Keys| == |values.Keys| + 1 == |values| + 1;
  }

  lemma DistinctExtend(values: map<int, bool>, lits: seq<int>, lit: int)
    requires Records(values, lits) && lit != 0
    ensures DistinctVariables(lits + [lit]) <==> DistinctVariables(lits) && Abs(lit) !in values
  {
    var longer := lits + [lit];
    if Abs(lit) in values {
      var other := if values[Abs(lit)] then Abs(lit) else -Abs(lit);
      assert other in lits;
      var i :| 0 <= i < |lits| && lits[i] == other;
      assert Abs(longer[i]) == Abs(longer[|lits|]);
    } else if DistinctVariables(lits) {
      forall i | 0 <= i < |lits|
        ensures Abs(lits[i]) != Abs(lit)
      {
        assert lits[i] in lits;
      }
    } else {
      var i, j :| 0 <= i < j < |lits| && Abs(lits[i]) == Abs(lits[j]);
      assert Abs(longer[i]) == Abs(longer[j]);
    }
  }

  ghost function UpTo(n: nat): (s: set<int>)
    ensures |s| == n
    ensures forall v :: v in s <==> 1 <= v <= n
  {
    if n == 0 then {} else UpTo(n - 1) + {n}
  }

  lemma SameSizeSubset<T>(small: set<T>, big: set<T>)
    requires small <= big && |small| == |big|
    ensures small == big
  {
    assert |big - small| == |big| - |small|;
  }

  /** Given in-range distinct variables, the dictionary is as large as `nVars` exactly when it names them all. */
  lemma RecordedAll(values: map<int, bool>, lits: seq<int>, nVars: int)
    requires Records(values, lits) && InRange(lits, nVars) && DistinctVariables(lits)
    ensures Complete(lits, nVars) <==> |values| == nVars
    ensures Complete(lits, nVars) ==> forall v :: 1 <= v <= nVars ==> v in values
  {
    if nVars >= 0 {
      assert values.Keys <= UpTo(nVars) by {
        forall v | v in values
          ensures v <= nVars
        {
          var lit := if values[v] then v else -v;
          assert lit in lits;
          var i :| 0 <= i < |lits| && lits[i] == lit;
          assert LiteralInRange(lits[i], nVars);
        }
      }
      assert |values.Keys| == |values|;
      if |values| == nVars {
        SameSizeSubset(values.Keys, UpTo(nVars));
      }
      if Complete(lits, nVars) {
        assert values.Keys == UpTo(nVars);
      }
    }
  }

  lemma NotComplete(lits: seq<int>, k: nat, nVars: int)
    requires k < |lits|
    requires Abs(lits[k]) > nVars || !DistinctVariables(lits[..k + 1])
    ensures !Complete(lits, nVars)
  {
    if Abs(lits[k]) <= nVars {
      var i, j :| 0 <= i < j < k + 1 && Abs(lits[..k + 1][i]) == Abs(lits[..k + 1][j]);
      assert Abs(lits[i]) == Abs(lits[j]);
    } else {
      assert !LiteralInRange(lits[k], nVars);
    }
  }

  /** The checker accepts exactly the complete lists of literals that satisfy every clause. */
  method VerifyWitness(cnf: Cnf, assignment: seq<int>) returns (ok: bool)
    requires LiteralsInRange(cnf)
    ensures ok <==> IsModel(assignment, cnf)
  {
    var values: map<int, bool> := map[];
    for k := 0 to |assignment|
      invariant Records(values, assignment[..k])
      invariant InRange(assignment[..k], cnf.nVars) && DistinctVariables(assignment[..k])
    {
      var lit := assignment[k];
      ghost var longer := assignment[..k] + [lit];
      assert longer == assignment[..k + 1];
      if lit == 0 {
        return false;
      }
      var v := Abs(lit);
      DistinctExtend(values, assignment[..k], lit);
      if v > cnf.nVars || v in values {
        NotComplete(assignment, k, cnf.nVars);
        return false;
      }
      RecordsExtend(values, assignment[..k], lit);
      values := values[v := lit > 0];
    }
    assert assignment[..|assignment|] == assignment;
    RecordedAll(values, assignment, cnf.nVars);
    if |values| != cnf.nVars || exists v :: 1 <= v <= cnf.nVars && v !in values {
      return false;
    }
    ok := ClausesHold(cnf, values, assignment);
  }

  method ClausesHold(cnf: Cnf, values: map<int, bool>, ghost lits: seq<int>) returns (ok: bool)
    requires LiteralsInRange(cnf) && Records(values, lits) && forall v :: 1 <= v <= cnf.nVars ==> v in values
    ensures ok <==> forall i :: 0 <= i < |cnf.clauses| ==> Satisfies(lits, cnf.clauses[i])
  {
    for k := 0 to |cnf.clauses|
      invariant forall i :: 0 <= i < k ==> Satisfies(lits, cnf.clauses[i])
    {
      var c := cnf.clauses[k];
      ClauseRecorded(values, lits, c, cnf.nVars);
      if !(SignMatches(values, c.a) || SignMatches(values, c.b) || SignMatches(values, c.c)) {
        return false;
      }
    }
    return true;
  }

  lemma ClauseRecorded(values: map<int, bool>, lits: seq<int>, c: Clause, nVars: int)
    requires Records(values, lits) && ClauseInRange(c, nVars)
    requires forall v :: 1 <= v <= nVars ==> v in values
    ensures Abs(c.a) in values && Abs(c.b) in values && Abs(c.c) in values
    ensures Satisfies(lits, c) <==> SignMatches(values, c.a) || SignMatches(values, c.b) || SignMatches(values, c.c)
  {
    RecordedSign(values, lits, c.a);
    RecordedSign(values, lits, c.b);
    RecordedSign(values, lits, c.c);
  }
}
