/** Reading a SAT solver's output (`cathedral_thin/miner.py`), on ASCII text. */
module SolverOutput {
  import opened Prelude
  import opened Decimals
  import opened Cnfs
  import opened Dimacs
  import opened AssignmentCodec

  datatype Reading = Reading(status: Option<bool>, literals: seq<int>)

  datatype ModelError = NotAnInteger | NotSatisfiable | BadAssignment(fault: EncodeError)

  function Upper(s: string): string {
    seq(|s|, i requires 0 <= i < |s| => if 'a' <= s[i] <= 'z' then (s[i] as int - 32) as char else s[i])
  }

  predicate Contains(s: string, part: string) {
    |part| <= |s| && (part <= s || (s != "" && Contains(s[1..], part)))
  }

  predicate StartsWith(s: string, prefix: string) {
    prefix <= s
  }

  function NonZero(ns: seq<int>): seq<int> {
    if ns == [] then [] else (if ns[0] != 0 then [ns[0]] else []) + NonZero(ns[1..])
  }

  /** The status a stripped line announces, if any. */
  function StatusOf(line: string): Option<bool> {
    if StartsWith(line, "c") then None
    else if StartsWith(line, "s ") then
      if Contains(Upper(line), "UNSATISFIABLE") then Some(false)
      else if Contains(Upper(line), "SATISFIABLE") then Some(true)
      else None
    else if line == "SAT" then Some(true)
    else if line == "UNSAT" then Some(false)
    else None
  }

  /** The literals a stripped line lists; `None` where a token is not an integer. */
  function LiteralsOf(line: string): Option<seq<int>> {
    if !StartsWith(line, "v ") then Some([])
    else
      match ReadInts(Words(line[2..]))
      case None => None
      case Some(ns) => Some(NonZero(ns))
  }

  function ReadLine(r: Reading, line: string): Option<Reading> {
    match LiteralsOf(line)
    case None => None
    case Some(ls) => Some(Reading(if StatusOf(line).Some? then StatusOf(line) else r.status, r.literals + ls))
  }

  function ReadLines(lines: seq<string>): Option<Reading> {
    if lines == [] then Some(Reading(None, []))
    else
      match ReadLines(lines[..|lines| - 1])
      case None => None
      case Some(r) => ReadLine(r, Strip(lines[|lines| - 1]))
  }

  /** Only a claimed and complete assignment is returned; whether it satisfies the formula is
      found when it is graded. */
  method ParseModel(output: string, nVars: int) returns (r: Result<seq<int>, ModelError>)
    ensures ReadLines(SplitLines(output)).None? <==> r == Err(NotAnInteger)
    ensures r.Ok? <==> var reading := ReadLines(SplitLines(output));
                       reading.Some? && reading.value.status == Some(true) && Complete(reading.value.literals, nVars)
    ensures r.Ok? ==> r.value == ReadLines(SplitLines(output)).value.literals
    ensures r == Err(NotSatisfiable) <==>
              var reading := ReadLines(SplitLines(output)); reading.Some? && reading.value.status != Some(true)
  {
    var lines := SplitLines(output);
    var status: Option<bool>, literals: seq<int> := None, [];
    for i := 0 to |lines|
      invariant ReadLines(lines[..i]) == Some(Reading(status, literals))
    {
      assert lines[..i + 1][..i] == lines[..i];
      var line := Strip(lines[i]);
      assert ReadLines(lines[..i + 1]) == ReadLine(Reading(status, literals), line);
      assert literals + [] == literals;
      assert StartsWith(line, "c") ==> line[0] == 'c';
      assert StartsWith(line, "s ") ==> line[0] == 's';
      assert StartsWith(line, "v ") ==> line[0] == 'v';
      if line == "" || StartsWith(line, "c") {
        continue;
      }
      if StartsWith(line, "s ") {
        if Contains(Upper(line), "UNSATISFIABLE") {
          status := Some(false);
        } else if Contains(Upper(line), "SATISFIABLE") {
          status := Some(true);
        }
        continue;
      }
      if line == "SAT" {
        status := Some(true);
        continue;
      }
      if line == "UNSAT" {
        status := Some(false);
        continue;
      }
      if StartsWith(line, "v ") {
        var ns := ReadInts(Words(line[2..]));
        if ns.None? {
          OneBadLine(lines, i);
          return Err(NotAnInteger);
        }
        literals := literals + NonZero(ns.value);
      }
    }
    assert lines[..|lines|] == lines;
    if status != Some(true) {
      return Err(NotSatisfiable);
    }
    var encoded := EncodeAssignment(literals, nVars);
    if encoded.Err? {
      return Err(BadAssignment(encoded.error));
    }
    return Ok(literals);
  }

  lemma {:induction false} OneBadLine(lines: seq<string>, i: nat)
    requires i < |lines| && LiteralsOf(Strip(lines[i])).None?
    ensures ReadLines(lines).None?
    decreases |lines|
  {
    if i < |lines| - 1 {
      OneBadLine(lines[..|lines| - 1], i);
    }
  }

  /** The last line that announces a status decides. */
  lemma {:induction false} LastStatusDecides(lines: seq<string>, i: nat)
    requires i < |lines| && ReadLines(lines).Some? && StatusOf(Strip(lines[i])).Some?
    requires forall k :: i < k < |lines| ==> StatusOf(Strip(lines[k])).None?
    ensures ReadLines(lines).value.status == StatusOf(Strip(lines[i]))
    decreases |lines|
  {
    if i < |lines| - 1 {
      LastStatusDecides(lines[..|lines| - 1], i);
    }
  }

  // ---------------------------------------------------------------------------------------------
  // Output as solvers print it is read back.

  function PrintAll(ns: seq<int>): seq<string> {
    seq(|ns|, i requires 0 <= i < |ns| => PrintInt(ns[i]))
  }

  /** A model printed over any number of value lines. */
  function ModelLines(chunks: seq<seq<int>>): seq<string> {
    if chunks == [] then ["s SATISFIABLE"]
    else ModelLines(chunks[..|chunks| - 1]) + [Spaced(["v"] + PrintAll(chunks[|chunks| - 1]))]
  }

  function Together(chunks: seq<seq<int>>): seq<int> {
    if chunks == [] then [] else Together(chunks[..|chunks| - 1]) + chunks[|chunks| - 1]
  }

  lemma {:induction false} PrintedWordsRead(ns: seq<int>)
    ensures AllWords(PrintAll(ns)) && ReadInts(PrintAll(ns)) == Some(ns)
  {
    if ns != [] {
      PrintedWordsRead(ns[1..]);
      PrintedIntIsWord(ns[0]);
      ReadPrintedInt(ns[0]);
      assert PrintAll(ns) == [PrintInt(ns[0])] + PrintAll(ns[1..]);
      ReadIntsCons(PrintInt(ns[0]), PrintAll(ns[1..]));
      assert ns == [ns[0]] + ns[1..];
    }
  }

  lemma ValueLineReads(ns: seq<int>)
    ensures var line := Spaced(["v"] + PrintAll(ns));
            Strip(line) == line && StatusOf(line).None? && LiteralsOf(line) == Some(NonZero(ns))
  {
    var words := PrintAll(ns);
    PrintedWordsRead(ns);
    assert IsWord("v");
    assert AllWords(["v"] + words);
    SpacedIsPlain(["v"] + words);
    StripPlain(Spaced(["v"] + words));
    if ns == [] {
      assert ["v"] + words == ["v"];
    } else {
      assert (["v"] + words)[1..] == words;
      assert Spaced(["v"] + words) == "v" + " " + Spaced(words);
      assert (("v" + " ") + Spaced(words))[2..] == Spaced(words);
      WordsOfSpaced(words);
    }
  }

  lemma StatusLineReads()
    ensures Strip("s SATISFIABLE") == "s SATISFIABLE" && StatusOf("s SATISFIABLE") == Some(true)
    ensures LiteralsOf("s SATISFIABLE") == Some([])
  {
    StripPlain("s SATISFIABLE");
    ContainsStatus();
    UpperStatus();
  }

  lemma UpperStatus()
    ensures Upper("s SATISFIABLE") == "S SATISFIABLE"
  {
  }

  lemma ContainsStatus()
    ensures Contains("S SATISFIABLE", "SATISFIABLE") && !Contains("S SATISFIABLE", "UNSATISFIABLE")
  {
    var s := "S SATISFIABLE";
    assert s[1..] == " SATISFIABLE" && s[1..][1..] == "SATISFIABLE";
    assert Contains("SATISFIABLE", "SATISFIABLE");
    assert Contains(" SATISFIABLE", "SATISFIABLE");
    assert s[0] != "UNSATISFIABLE"[0];
  }

  /** However a solver spreads a model over its value lines, and whether or not it ends with a zero, the
      model is read back in order. */
  lemma {:induction false} PrintedModelReadsBack(chunks: seq<seq<int>>)
    ensures ReadLines(ModelLines(chunks)) == Some(Reading(Some(true), NonZero(Together(chunks))))
  {
    if chunks == [] {
      StatusLineReads();
      assert ["s SATISFIABLE"][..0] == [];
      assert ReadLines([]) == Some(Reading(None, []));
      var none: seq<int> := [];
      assert none + none == none == NonZero(Together(chunks));
      assert ReadLine(Reading(None, none), "s SATISFIABLE") == Some(Reading(Some(true), none));
    } else {
      var front, last := chunks[..|chunks| - 1], chunks[|chunks| - 1];
      PrintedModelReadsBack(front);
      ValueLineReads(last);
      NonZeroConcat(Together(front), last);
      var lines := ModelLines(front) + [Spaced(["v"] + PrintAll(last))];
      assert lines[..|lines| - 1] == ModelLines(front);
    }
  }

  lemma {:induction false} NonZeroConcat(a: seq<int>, b: seq<int>)
    ensures NonZero(a + b) == NonZero(a) + NonZero(b)
  {
    if a == [] {
      assert a + b == b;
    } else {
      assert (a + b)[1..] == a[1..] + b;
      NonZeroConcat(a[1..], b);
    }
  }

  // ---------------------------------------------------------------------------------------------
  // Lines, one by one.

  predicate StandsAt(s: string, i: int, part: string) {
    0 <= i <= |s| - |part| && s[i..i + |part|] == part
  }

  lemma {:induction false} ContainsExactly(s: string, part: string)
    ensures Contains(s, part) <==> exists i :: StandsAt(s, i, part)
  {
    if |part| <= |s| {
      if part <= s {
        assert StandsAt(s, 0, part);
      } else if s != "" {
        ContainsExactly(s[1..], part);
        if i :| StandsAt(s[1..], i, part) {
          assert s[i + 1..i + 1 + |part|] == s[1..][i..i + |part|];
          assert StandsAt(s, i + 1, part);
        }
        if i :| StandsAt(s, i, part) {
          assert i > 0;
          assert s[1..][i - 1..i - 1 + |part|] == s[i..i + |part|];
          assert StandsAt(s[1..], i - 1, part);
        }
      }
    }
  }

  /** A status line that says unsatisfiable is not taken for the word inside it. */
  lemma UnsatisfiableIsNotSatisfiable(line: string, i: nat)
    requires "s " <= line && StandsAt(Upper(line), i, "UNSATISFIABLE")
    ensures StatusOf(line) == Some(false)
  {
    ContainsExactly(Upper(line), "UNSATISFIABLE");
    assert line[0] == 's';
  }

  /** Other status lines say satisfiable exactly when the word is in them, in any case. */
  lemma StatusLinesSay(line: string)
    requires "s " <= line && !exists i :: StandsAt(Upper(line), i, "UNSATISFIABLE")
    ensures StatusOf(line) == if exists i :: StandsAt(Upper(line), i, "SATISFIABLE") then Some(true) else None
  {
    ContainsExactly(Upper(line), "UNSATISFIABLE");
    ContainsExactly(Upper(line), "SATISFIABLE");
    assert line[0] == 's';
  }

  lemma PlainStatusLines(line: string)
    requires !("s " <= line)
    ensures StatusOf("SAT") == Some(true) && StatusOf("UNSAT") == Some(false)
    ensures line != "SAT" && line != "UNSAT" ==> StatusOf(line) == None
  {
    assert "SAT"[0] == 'S' && "UNSAT"[0] == 'U';
  }

  /** Zeros end a list of literals and are dropped; other lines than value lines have no literals. */
  lemma ZerosAreDropped(n: int, ns: seq<int>, line: string)
    ensures NonZero([]) == [] && NonZero([n] + ns) == (if n == 0 then [] else [n]) + NonZero(ns)
    ensures !("v " <= line) ==> LiteralsOf(line) == Some([])
  {
    assert ([n] + ns)[1..] == ns;
  }
}
