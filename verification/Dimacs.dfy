/** The DIMACS printer and strict parser of `cathedral_thin/core.py`, character by character.

    The text is ASCII: the source's decoder rejects anything else before it parses. */
module Dimacs {
  import opened Prelude
  import opened Decimals
  import opened Cnfs

  // ---------------------------------------------------------------------------------------------
  // Python's line splitting, stripping and word splitting on ASCII text.

  predicate IsLineBreak(c: char) {
    c in {'\n', '\r', '\U{0B}', '\U{0C}', '\U{1C}', '\U{1D}', '\U{1E}'}
  }

  predicate IsSpace(c: char) {
    IsLineBreak(c) || c in {' ', '\t', '\U{1F}'}
  }

  /** The index of the first line break, or the length. */
  function LineEnd(s: string): (k: nat)
    ensures k <= |s|
    ensures forall i :: 0 <= i < k ==> !IsLineBreak(s[i])
    ensures k < |s| ==> IsLineBreak(s[k])
  {
    if s == "" || IsLineBreak(s[0]) then 0 else 1 + LineEnd(s[1..])
  }

  function SplitLines(s: string): seq<string>
    decreases |s|
  {
    if s == "" then []
    else
      var k := LineEnd(s);
      if k == |s| then [s]
      else if s[k] == '\r' && k + 1 < |s| && s[k + 1] == '\n' then [s[..k]] + SplitLines(s[k + 2..])
      else [s[..k]] + SplitLines(s[k + 1..])
  }

  function StripSpaceLeft(s: string): string {
    if s != "" && IsSpace(s[0]) then StripSpaceLeft(s[1..]) else s
  }

  function StripSpaceRight(s: string): string {
    if s != "" && IsSpace(s[|s| - 1]) then StripSpaceRight(s[..|s| - 1]) else s
  }

  function Strip(s: string): string {
    StripSpaceRight(StripSpaceLeft(s))
  }

  predicate IsWord(s: string) {
    s != "" && forall i :: 0 <= i < |s| ==> !IsSpace(s[i])
  }

  function WordEnd(s: string): (k: nat)
    ensures k <= |s|
    ensures forall i :: 0 <= i < k ==> !IsSpace(s[i])
    ensures k < |s| ==> IsSpace(s[k])
  {
    if s == "" || IsSpace(s[0]) then 0 else 1 + WordEnd(s[1..])
  }

  function Words(s: string): seq<string>
    decreases |s|
  {
    if s == "" then []
    else if IsSpace(s[0]) then Words(s[1..])
    else [s[..WordEnd(s)]] + Words(s[WordEnd(s)..])
  }

  // ---------------------------------------------------------------------------------------------
  // Printing.

  function Spaced(words: seq<string>): string {
    if words == [] then "" else if |words| == 1 then words[0] else words[0] + " " + Spaced(words[1..])
  }

  function HeaderWords(cnf: Cnf): seq<string> {
    ["p", "cnf", PrintInt(cnf.nVars), PrintInt(|cnf.clauses|)]
  }

  function ClauseWords(c: Clause): seq<string> {
    [PrintInt(c.a), PrintInt(c.b), PrintInt(c.c), "0"]
  }

  function ClauseLines(clauses: seq<Clause>): string {
    if clauses == [] then "" else Spaced(ClauseWords(clauses[0])) + "\n" + ClauseLines(clauses[1..])
  }

  function ToDimacs(cnf: Cnf): string {
    Spaced(HeaderWords(cnf)) + "\n" + ClauseLines(cnf.clauses)
  }

  // ---------------------------------------------------------------------------------------------
  // Parsing.

  datatype ParseError =
    | MultipleHeaders | InvalidHeader | HeaderNotInteger | ClausePrecedesHeader | NonIntegerToken
    | NotOneTerminatedClause | VariablesNotDistinct | LiteralOutOfRange
    | MissingHeader | ClauseCountMismatch | ExpectedVarsMismatch | ExpectedClausesMismatch

  datatype Parsed = Parsed(header: Option<(int, int)>, clauses: seq<Clause>)

  function ReadInts(tokens: seq<string>): Option<seq<int>> {
    if tokens == [] then Some([])
    else
      var n, rest := ReadInt(tokens[0]), ReadInts(tokens[1..]);
      if n.None? || rest.None? then None else Some([n.value] + rest.value)
  }

  function ParseHeader(line: string): Result<(int, int), ParseError> {
    var parts := Words(line);
    if |parts| != 4 || parts[1] != "cnf" then Err(InvalidHeader)
    else
      match (ReadInt(parts[2]), ReadInt(parts[3]))
      case (Some(n), Some(m)) => Ok((n, m))
      case _ => Err(HeaderNotInteger)
  }

  function ParseClause(line: string, nVars: int): Result<Clause, ParseError> {
    match ReadInts(Words(line))
    case None => Err(NonIntegerToken)
    case Some(t) =>
      if |t| != 4 || t[3] != 0 then Err(NotOneTerminatedClause)
      else if Abs(t[0]) == Abs(t[1]) || Abs(t[0]) == Abs(t[2]) || Abs(t[1]) == Abs(t[2]) then Err(VariablesNotDistinct)
      else if !LiteralInRange(t[0], nVars) || !LiteralInRange(t[1], nVars) || !LiteralInRange(t[2], nVars) then
        Err(LiteralOutOfRange)
      else Ok(Clause(t[0], t[1], t[2]))
  }

  predicate Skipped(line: string) {
    line == "" || line[0] == 'c'
  }

  predicate IsHeader(line: string) {
    "p " <= line
  }

  /** What one raw line does to what has been read so far. */
  function ParseLine(st: Parsed, raw: string): Result<Parsed, ParseError> {
    var line := Strip(raw);
    if Skipped(line) then Ok(st)
    else if IsHeader(line) then
      if st.header.Some? then Err(MultipleHeaders)
      else
        match ParseHeader(line)
        case Err(e) => Err(e)
        case Ok(h) => Ok(st.(header := Some(h)))
    else
      match st.header
      case None => Err(ClausePrecedesHeader)
      case Some(h) =>
        match ParseClause(line, h.0)
        case Err(e) => Err(e)
        case Ok(c) => Ok(st.(clauses := st.clauses + [c]))
  }

  function ParseLines(st: Parsed, lines: seq<string>): Result<Parsed, ParseError>
    decreases |lines|
  {
    if lines == [] then Ok(st)
    else
      match ParseLine(st, lines[0])
      case Err(e) => Err(e)
      case Ok(next) => ParseLines(next, lines[1..])
  }

  function Finish(st: Parsed, expectedVars: Option<int>, expectedClauses: Option<int>): Result<Cnf, ParseError> {
    match st.header
    case None => Err(MissingHeader)
    case Some(h) =>
      if |st.clauses| != h.1 then Err(ClauseCountMismatch)
      else if expectedVars.Some? && h.0 != expectedVars.value then Err(ExpectedVarsMismatch)
      else if expectedClauses.Some? && |st.clauses| != expectedClauses.value then Err(ExpectedClausesMismatch)
      else Ok(Cnf(h.0, st.clauses))
  }

  function Parse(text: string, expectedVars: Option<int>, expectedClauses: Option<int>): Result<Cnf, ParseError> {
    match ParseLines(Parsed(None, []), SplitLines(text))
    case Err(e) => Err(e)
    case Ok(st) => Finish(st, expectedVars, expectedClauses)
  }

  /** The strict parser's line loop. */
  method ParseDimacsStrict(text: string, expectedVars: Option<int>, expectedClauses: Option<int>)
      returns (r: Result<Cnf, ParseError>)
    ensures r == Parse(text, expectedVars, expectedClauses)
  {
    var header: Option<(int, int)> := None;
    var clauses: seq<Clause> := [];
    var lines := SplitLines(text);
    for i := 0 to |lines|
      invariant ParseLines(Parsed(None, []), lines) == ParseLines(Parsed(header, clauses), lines[i..])
    {
      assert lines[i..][0] == lines[i] && lines[i..][1..] == lines[i + 1..];
      var line := Strip(lines[i]);
      if Skipped(line) {
        continue;
      }
      if IsHeader(line) {
        if header.Some? {
          return Err(MultipleHeaders);
        }
        var parts := Words(line);
        if |parts| != 4 || parts[1] != "cnf" {
          return Err(InvalidHeader);
        }
        var n, m := ReadInt(parts[2]), ReadInt(parts[3]);
        if n.None? || m.None? {
          return Err(HeaderNotInteger);
        }
        header := Some((n.value, m.value));
        continue;
      }
      if header.None? {
        return Err(ClausePrecedesHeader);
      }
      var tokens := ReadInts(Words(line));
      if tokens.None? {
        return Err(NonIntegerToken);
      }
      var t := tokens.value;
      if |t| != 4 || t[3] != 0 {
        return Err(NotOneTerminatedClause);
      }
      if Abs(t[0]) == Abs(t[1]) || Abs(t[0]) == Abs(t[2]) || Abs(t[1]) == Abs(t[2]) {
        return Err(VariablesNotDistinct);
      }
      if exists k :: 0 <= k < 3 && (t[k] == 0 || Abs(t[k]) > header.value.0) {
        return Err(LiteralOutOfRange);
      }
      clauses := clauses + [Clause(t[0], t[1], t[2])];
    }
    if header.None? {
      return Err(MissingHeader);
    }
    if |clauses| != header.value.1 {
      return Err(ClauseCountMismatch);
    }
    if expectedVars.Some? && header.value.0 != expectedVars.value {
      return Err(ExpectedVarsMismatch);
    }
    if expectedClauses.Some? && |clauses| != expectedClauses.value {
      return Err(ExpectedClausesMismatch);
    }
    return Ok(Cnf(header.value.0, clauses));
  }

  // ---------------------------------------------------------------------------------------------
  // Printed lines come apart into the words they were made of.

  predicate AllWords(words: seq<string>) {
    forall i :: 0 <= i < |words| ==> IsWord(words[i])
  }

  predicate IsPlainLine(s: string) {
    s != "" && !IsSpace(s[0]) && !IsSpace(s[|s| - 1]) && forall i :: 0 <= i < |s| ==> !IsLineBreak(s[i])
  }

  lemma {:induction false} SpacedIsPlain(words: seq<string>)
    requires words != [] && AllWords(words)
    ensures IsPlainLine(Spaced(words))
  {
    if |words| > 1 {
      SpacedIsPlain(words[1..]);
      var head, tail := words[0], Spaced(words[1..]);
      var s := head + " " + tail;
      assert forall i :: 0 <= i < |head| ==> s[i] == head[i];
      assert forall i :: |head| < i < |s| ==> s[i] == tail[i - |head| - 1];
      assert !IsLineBreak(' ');
    }
  }

  lemma {:induction false} WordEndOf(word: string, rest: string)
    requires IsWord(word) && (rest == "" || IsSpace(rest[0]))
    ensures WordEnd(word + rest) == |word|
  {
    var s := word + rest;
    assert forall i :: 0 <= i < |word| ==> s[i] == word[i];
    assert rest != "" ==> s[|word|] == rest[0];
  }

  lemma {:induction false} WordsOfSpaced(words: seq<string>)
    requires AllWords(words)
    ensures Words(Spaced(words)) == words
  {
    if words != [] {
      var head := words[0];
      if |words| == 1 {
        WordEndOf(head, "");
        assert head + "" == head;
        assert Words(head[|head|..]) == [];
        assert words == [head];
      } else {
        var tail := Spaced(words[1..]);
        WordsOfSpaced(words[1..]);
        WordEndOf(head, " " + tail);
        var s := head + (" " + tail);
        assert s == Spaced(words);
        assert s[..|head|] == head && s[|head|..] == " " + tail;
        assert (" " + tail)[1..] == tail;
        assert words == [head] + words[1..];
      }
    }
  }

  lemma StripPlain(s: string)
    requires IsPlainLine(s)
    ensures Strip(s) == s
  {
  }

  lemma {:induction false} LineEndOf(line: string, rest: string)
    requires forall i :: 0 <= i < |line| ==> !IsLineBreak(line[i])
    ensures LineEnd(line + "\n" + rest) == |line|
  {
    var s := line + "\n" + rest;
    assert forall i :: 0 <= i < |line| ==> s[i] == line[i];
    assert s[|line|] == '\n';
  }

  lemma SplitFirstLine(line: string, rest: string)
    requires IsPlainLine(line)
    ensures SplitLines(line + "\n" + rest) == [line] + SplitLines(rest)
  {
    var s := line + "\n" + rest;
    LineEndOf(line, rest);
    assert s[|line|] == '\n' && s[..|line|] == line && s[|line| + 1..] == rest;
  }

  lemma PrintedIntIsWord(n: int)
    ensures IsWord(PrintInt(n))
  {
    PrintNatDigits(if n < 0 then -n else n);
    assert forall c :: IsDigit(c) ==> !IsSpace(c);
  }

  lemma HeaderReadsBack(cnf: Cnf)
    ensures var line := Spaced(HeaderWords(cnf));
            IsPlainLine(line) && IsHeader(line) && !Skipped(line) && ParseHeader(line) == Ok((cnf.nVars, |cnf.clauses|))
  {
    PrintedIntIsWord(cnf.nVars);
    PrintedIntIsWord(|cnf.clauses|);
    assert IsWord("p") && IsWord("cnf");
    SpacedIsPlain(HeaderWords(cnf));
    WordsOfSpaced(HeaderWords(cnf));
    ReadPrintedInt(cnf.nVars);
    ReadPrintedInt(|cnf.clauses|);
    var line := Spaced(HeaderWords(cnf));
    assert line == "p" + " " + Spaced(HeaderWords(cnf)[1..]);
    assert line[..2] == "p ";
  }

  lemma ClauseReadsBack(c: Clause, nVars: int)
    ensures var line := Spaced(ClauseWords(c));
            && IsPlainLine(line) && !IsHeader(line) && !Skipped(line)
            && (WellFormedClause(c, nVars) ==> ParseClause(line, nVars) == Ok(c))
            && (!WellFormedClause(c, nVars) ==> ParseClause(line, nVars).Err?)
  {
    var words := ClauseWords(c);
    PrintedIntIsWord(c.a);
    PrintedIntIsWord(c.b);
    PrintedIntIsWord(c.c);
    assert IsWord("0");
    SpacedIsPlain(words);
    WordsOfSpaced(words);
    var line := Spaced(words);
    assert line == words[0] + " " + Spaced(words[1..]);
    PrintNatDigits(Abs(c.a));
    assert line[0] == words[0][0];
    assert IsDigit(line[0]) || line[0] == '-';
    ReadPrintedInt(c.a);
    ReadPrintedInt(c.b);
    ReadPrintedInt(c.c);
    ReadPrintedInt(0);
    assert PrintInt(0) == "0";
    ReadFour(words[0], words[1], words[2], words[3]);
  }

  lemma ReadIntsCons(token: string, rest: seq<string>)
    requires ReadInt(token).Some? && ReadInts(rest).Some?
    ensures ReadInts([token] + rest) == Some([ReadInt(token).value] + ReadInts(rest).value)
  {
    assert ([token] + rest)[1..] == rest;
  }

  lemma ReadFour(a: string, b: string, c: string, d: string)
    requires ReadInt(a).Some? && ReadInt(b).Some? && ReadInt(c).Some? && ReadInt(d).Some?
    ensures ReadInts([a, b, c, d]) == Some([ReadInt(a).value, ReadInt(b).value, ReadInt(c).value, ReadInt(d).value])
  {
    ReadIntsCons(d, []);
    assert [d] + [] == [d];
    ReadIntsCons(c, [d]);
    assert [c] + [d] == [c, d];
    ReadIntsCons(b, [c, d]);
    assert [b] + [c, d] == [b, c, d];
    ReadIntsCons(a, [b, c, d]);
    assert [a] + [b, c, d] == [a, b, c, d];
    var y, z, w := ReadInt(b).value, ReadInt(c).value, ReadInt(d).value;
    assert [w] + [] == [w] && [z] + [w] == [z, w] && [y] + [z, w] == [y, z, w];
    assert [ReadInt(a).value] + [y, z, w] == [ReadInt(a).value, y, z, w];
  }

  // ---------------------------------------------------------------------------------------------
  // Printing and parsing undo each other.

  predicate AllWellFormed(clauses: seq<Clause>, nVars: int) {
    forall i :: 0 <= i < |clauses| ==> WellFormedClause(clauses[i], nVars)
  }

  lemma AllWellFormedSplit(clauses: seq<Clause>, nVars: int)
    requires clauses != []
    ensures AllWellFormed(clauses, nVars) <==> WellFormedClause(clauses[0], nVars) && AllWellFormed(clauses[1..], nVars)
  {
    assert forall i :: 0 <= i < |clauses[1..]| ==> clauses[1..][i] == clauses[i + 1];
    assert forall i :: 1 <= i < |clauses| ==> clauses[i] == clauses[1..][i - 1];
  }

  function PrintedLines(clauses: seq<Clause>): seq<string> {
    if clauses == [] then [] else [Spaced(ClauseWords(clauses[0]))] + PrintedLines(clauses[1..])
  }

  lemma {:induction false} ClauseLinesSplit(clauses: seq<Clause>)
    ensures SplitLines(ClauseLines(clauses)) == PrintedLines(clauses)
  {
    if clauses != [] {
      ClauseReadsBack(clauses[0], 0);
      SplitFirstLine(Spaced(ClauseWords(clauses[0])), ClauseLines(clauses[1..]));
      ClauseLinesSplit(clauses[1..]);
    }
  }

  lemma PrintedClauseLine(st: Parsed, c: Clause)
    requires st.header.Some?
    ensures WellFormedClause(c, st.header.value.0) ==>
              ParseLine(st, Spaced(ClauseWords(c))) == Ok(st.(clauses := st.clauses + [c]))
    ensures !WellFormedClause(c, st.header.value.0) ==> ParseLine(st, Spaced(ClauseWords(c))).Err?
  {
    ClauseReadsBack(c, st.header.value.0);
    StripPlain(Spaced(ClauseWords(c)));
  }

  lemma {:induction false} GoodClausesReadBack(st: Parsed, clauses: seq<Clause>)
    requires st.header.Some? && AllWellFormed(clauses, st.header.value.0)
    ensures ParseLines(st, PrintedLines(clauses)) == Ok(st.(clauses := st.clauses + clauses))
    decreases |clauses|
  {
    if clauses == [] {
      assert st.clauses + clauses == st.clauses;
    } else {
      PrintedClauseLine(st, clauses[0]);
      AllWellFormedSplit(clauses, st.header.value.0);
      var next := st.(clauses := st.clauses + [clauses[0]]);
      GoodClausesReadBack(next, clauses[1..]);
      FirstThenRest(st.clauses, clauses);
    }
  }

  lemma {:induction false} BadClauseIsRefused(st: Parsed, clauses: seq<Clause>)
    requires st.header.Some? && !AllWellFormed(clauses, st.header.value.0)
    ensures ParseLines(st, PrintedLines(clauses)).Err?
    decreases |clauses|
  {
    PrintedClauseLine(st, clauses[0]);
    AllWellFormedSplit(clauses, st.header.value.0);
    if WellFormedClause(clauses[0], st.header.value.0) {
      BadClauseIsRefused(st.(clauses := st.clauses + [clauses[0]]), clauses[1..]);
    }
  }

  /** Strict parsing of a formula's DIMACS text gives the formula back exactly when it is well formed,
      and fails otherwise. */
  lemma ParseUndoesPrint(cnf: Cnf)
    ensures var r := Parse(ToDimacs(cnf), None, None); if WellFormed(cnf) then r == Ok(cnf) else r.Err?
  {
    HeaderLine(cnf);
    ClauseLinesSplit(cnf.clauses);
    var st := Parsed(Some((cnf.nVars, |cnf.clauses|)), []);
    assert [] + cnf.clauses == cnf.clauses;
    if WellFormed(cnf) {
      GoodClausesReadBack(st, cnf.clauses);
    } else {
      BadClauseIsRefused(st, cnf.clauses);
    }
  }

  lemma HeaderLine(cnf: Cnf)
    ensures ParseLines(Parsed(None, []), SplitLines(ToDimacs(cnf)))
            == ParseLines(Parsed(Some((cnf.nVars, |cnf.clauses|)), []), SplitLines(ClauseLines(cnf.clauses)))
  {
    var line := Spaced(HeaderWords(cnf));
    HeaderReadsBack(cnf);
    StripPlain(line);
    SplitFirstLine(line, ClauseLines(cnf.clauses));
    var lines := SplitLines(ToDimacs(cnf));
    assert lines[0] == line && lines[1..] == SplitLines(ClauseLines(cnf.clauses));
  }

  /** The expectations only filter: they never change what is returned. */
  lemma ExpectationsFilter(text: string, vars: Option<int>, clauses: Option<int>)
    ensures Parse(text, vars, clauses).Ok? <==>
              && Parse(text, None, None).Ok?
              && (vars.Some? ==> vars.value == Parse(text, None, None).value.nVars)
              && (clauses.Some? ==> clauses.value == |Parse(text, None, None).value.clauses|)
    ensures Parse(text, vars, clauses).Ok? ==> Parse(text, vars, clauses) == Parse(text, None, None)
  {
  }

  predicate WellFormedSoFar(st: Parsed) {
    (st.header.None? ==> st.clauses == []) && (st.header.Some? ==> AllWellFormed(st.clauses, st.header.value.0))
  }

  lemma {:induction false} ParseLinesKeeps(st: Parsed, lines: seq<string>)
    requires WellFormedSoFar(st) && ParseLines(st, lines).Ok?
    ensures WellFormedSoFar(ParseLines(st, lines).value)
    ensures st.header.Some? ==> ParseLines(st, lines).value.header == st.header
    decreases |lines|
  {
    if lines != [] {
      ParseLinesKeeps(ParseLine(st, lines[0]).value, lines[1..]);
    }
  }

  /** Anything accepted has clauses over three distinct variables in range, as many as declared. */
  lemma AcceptedIsWellFormed(text: string, vars: Option<int>, clauses: Option<int>)
    requires Parse(text, vars, clauses).Ok?
    ensures WellFormed(Parse(text, vars, clauses).value)
    ensures var st := ParseLines(Parsed(None, []), SplitLines(text)).value;
            st.header == Some((Parse(text, vars, clauses).value.nVars, |Parse(text, vars, clauses).value.clauses|))
  {
    ParseLinesKeeps(Parsed(None, []), SplitLines(text));
  }

  /** Parsing, printing and parsing again is the same as parsing. */
  lemma ParsePrintParse(text: string)
    requires Parse(text, None, None).Ok?
    ensures Parse(ToDimacs(Parse(text, None, None).value), None, None) == Parse(text, None, None)
  {
    AcceptedIsWellFormed(text, None, None);
    ParseUndoesPrint(Parse(text, None, None).value);
  }

  // ---------------------------------------------------------------------------------------------
  // What is accepted, without the parser.

  /** The printed text: a header, and one line of three literals and a zero for each clause. */
  lemma {:induction false} PrintedText(nVars: int, clauses: seq<Clause>, c: Clause)
    ensures ToDimacs(Cnf(nVars, clauses)) ==
            "p cnf " + PrintInt(nVars) + " " + PrintInt(|clauses|) + "\n" + ClauseLines(clauses)
    ensures ClauseLines([]) == ""
    ensures ClauseLines([c] + clauses) ==
            PrintInt(c.a) + " " + PrintInt(c.b) + " " + PrintInt(c.c) + " 0\n" + ClauseLines(clauses)
  {
    var (n, m) := (PrintInt(nVars), PrintInt(|clauses|));
    FourSpaced("p", "cnf", n, m);
    assert "p" + " " + "cnf" + " " == "p cnf ";
    FourSpaced(PrintInt(c.a), PrintInt(c.b), PrintInt(c.c), "0");
    assert ([c] + clauses)[1..] == clauses;
  }

  lemma FourSpaced(a: string, b: string, c: string, d: string)
    ensures Spaced([a, b, c, d]) == a + " " + b + " " + c + " " + d
  {
    assert [a, b, c, d][1..] == [b, c, d] && [b, c, d][1..] == [c, d] && [c, d][1..] == [d];
    assert Spaced([d]) == d;
    assert Spaced([c, d]) == c + " " + d;
    assert Spaced([b, c, d]) == b + " " + c + " " + d;
  }

  /** The white space and the line breaks of ASCII text. */
  lemma SpaceCharacters(c: char)
    ensures IsSpace(c) <==> c in "\t\n\U{0B}\U{0C}\r\U{1C}\U{1D}\U{1E}\U{1F} "
    ensures IsLineBreak(c) <==> c in "\n\U{0B}\U{0C}\r\U{1C}\U{1D}\U{1E}"
  {
  }

  /** White space splits words, and nothing else does. */
  lemma WhiteSpaceSplits(before: string, space: char, rest: string)
    requires IsWord(before) && IsSpace(space)
    ensures Words(before + [space] + rest) == [before] + Words(rest)
    ensures Words([space] + rest) == Words(rest)
  {
    var tail := [space] + rest;
    assert tail[1..] == rest;
    WordEndOf(before, tail);
    assert before + [space] + rest == before + tail;
    assert (before + tail)[..|before|] == before && (before + tail)[|before|..] == tail;
    assert (before + tail)[0] == before[0];
  }

  lemma OneWord(word: string)
    requires IsWord(word)
    ensures Words(word) == [word] && Words("") == []
  {
    WordEndOf(word, "");
    assert word + "" == word && word[..|word|] == word && word[|word|..] == "";
  }

  /** A line ends at any line break ... */
  lemma LineBreakSplits(line: string, br: char, rest: string)
    requires (forall i :: 0 <= i < |line| ==> !IsLineBreak(line[i])) && IsLineBreak(br)
    requires br == '\r' && rest != "" ==> rest[0] != '\n'
    ensures SplitLines(line + [br] + rest) == [line] + SplitLines(rest)
  {
    var tail := [br] + rest;
    LineEndBefore(line, tail);
    assert line + [br] + rest == line + tail && tail[0] == br && tail[1..] == rest;
    assert rest != "" ==> tail[1] == rest[0];
    SplitAt(line, tail);
  }

  /** ... and a carriage return and its newline count as one. */
  lemma CarriageReturnNewline(line: string, rest: string)
    requires forall i :: 0 <= i < |line| ==> !IsLineBreak(line[i])
    ensures SplitLines(line + "\r\n" + rest) == [line] + SplitLines(rest)
  {
    var tail := "\r\n" + rest;
    LineEndBefore(line, tail);
    assert line + "\r\n" + rest == line + tail && tail[0] == '\r' && tail[1] == '\n' && tail[2..] == rest;
    SplitAt(line, tail);
  }

  lemma LastLine(line: string)
    requires forall i :: 0 <= i < |line| ==> !IsLineBreak(line[i])
    ensures SplitLines(line) == if line == "" then [] else [line]
  {
    LineEndBefore(line, "");
    assert line + "" == line;
  }

  lemma {:induction false} LineEndBefore(line: string, tail: string)
    requires forall i :: 0 <= i < |line| ==> !IsLineBreak(line[i])
    requires tail == "" || IsLineBreak(tail[0])
    ensures LineEnd(line + tail) == |line|
  {
    var s := line + tail;
    assert forall i :: 0 <= i < |line| ==> s[i] == line[i];
    assert tail != "" ==> s[|line|] == tail[0];
  }

  lemma SplitAt(line: string, tail: string)
    requires tail != "" && IsLineBreak(tail[0]) && LineEnd(line + tail) == |line|
    ensures SplitLines(line + tail)
            == [line] + SplitLines(if |tail| > 1 && tail[0] == '\r' && tail[1] == '\n' then tail[2..] else tail[1..])
  {
    var s := line + tail;
    assert s[|line|] == tail[0] && s[..|line|] == line;
    assert |tail| > 1 ==> s[|line| + 1] == tail[1];
    assert s[|line| + 1..] == tail[1..];
    assert |tail| > 1 ==> s[|line| + 2..] == tail[2..];
  }

  /** Stripping takes white space off both ends, and only that. */
  lemma {:induction false} StripTrims(s: string) returns (front: string, back: string)
    ensures s == front + Strip(s) + back
    ensures (forall i :: 0 <= i < |front| ==> IsSpace(front[i])) && (forall i :: 0 <= i < |back| ==> IsSpace(back[i]))
    ensures var t := Strip(s); t == "" || (!IsSpace(t[0]) && !IsSpace(t[|t| - 1]))
  {
    front := TrimmedLeft(s);
    back := TrimmedRight(StripSpaceLeft(s));
    var t := Strip(s);
    assert t != "" ==> t[0] == StripSpaceLeft(s)[0];
  }

  lemma {:induction false} TrimmedLeft(s: string) returns (front: string)
    ensures s == front + StripSpaceLeft(s) && forall i :: 0 <= i < |front| ==> IsSpace(front[i])
    ensures var t := StripSpaceLeft(s); t == "" || !IsSpace(t[0])
  {
    if s != "" && IsSpace(s[0]) {
      var more := TrimmedLeft(s[1..]);
      front := [s[0]] + more;
    } else {
      front := "";
    }
  }

  lemma {:induction false} TrimmedRight(s: string) returns (back: string)
    ensures s == StripSpaceRight(s) + back && forall i :: 0 <= i < |back| ==> IsSpace(back[i])
    ensures var t := StripSpaceRight(s); t == "" || !IsSpace(t[|t| - 1])
  {
    if s != "" && IsSpace(s[|s| - 1]) {
      var more := TrimmedRight(s[..|s| - 1]);
      back := more + [s[|s| - 1]];
    } else {
      back := "";
    }
  }

  /** The stripped lines that are neither blank nor comments. */
  function Significant(lines: seq<string>): seq<string> {
    if lines == [] then []
    else
      var line := Strip(lines[0]);
      (if line == "" || line[0] == 'c' then [] else [line]) + Significant(lines[1..])
  }

  predicate SaysHeader(line: string, nVars: int, count: int) {
    var w := Words(line);
    "p " <= line && |w| == 4 && w[1] == "cnf" && ReadInt(w[2]) == Some(nVars) && ReadInt(w[3]) == Some(count)
  }

  predicate SaysClause(line: string, c: Clause) {
    var w := Words(line);
    && !("p " <= line) && |w| == 4 && ReadInt(w[3]) == Some(0)
    && ReadInt(w[0]) == Some(c.a) && ReadInt(w[1]) == Some(c.b) && ReadInt(w[2]) == Some(c.c)
  }

  predicate SayClauses(lines: seq<string>, clauses: seq<Clause>) {
    |lines| == |clauses| && forall i :: 0 <= i < |lines| ==> SaysClause(lines[i], clauses[i])
  }

  lemma {:induction false} ReadsEach(words: seq<string>)
    ensures ReadInts(words).Some? <==> forall i :: 0 <= i < |words| ==> ReadInt(words[i]).Some?
    ensures ReadInts(words).Some? ==>
              |ReadInts(words).value| == |words|
              && forall i :: 0 <= i < |words| ==> ReadInts(words).value[i] == ReadInt(words[i]).value
  {
    if words != [] {
      ReadsEach(words[1..]);
      assert forall i :: 1 <= i < |words| ==> words[i] == words[1..][i - 1];
      assert forall i :: 0 <= i < |words[1..]| ==> words[1..][i] == words[i + 1];
    }
  }

  lemma ClauseLineSays(line: string, nVars: int, c: Clause)
    requires !("p " <= line)
    ensures ParseClause(line, nVars) == Ok(c) <==> SaysClause(line, c) && WellFormedClause(c, nVars)
  {
    ReadsEach(Words(line));
  }

  lemma {:induction false} ClauseLinesSay(st: Parsed, lines: seq<string>, clauses: seq<Clause>)
    requires st.header.Some?
    ensures ParseLines(st, lines) == Ok(st.(clauses := st.clauses + clauses)) <==>
              SayClauses(Significant(lines), clauses) && AllWellFormed(clauses, st.header.value.0)
    decreases |lines|
  {
    if lines == [] {
      assert clauses == [] ==> st.clauses + clauses == st.clauses;
      assert clauses != [] ==> |st.clauses + clauses| > |st.clauses|;
    } else {
      var line, step := Strip(lines[0]), ParseLine(st, lines[0]);
      if Skipped(line) {
        assert Significant(lines) == Significant(lines[1..]);
        ClauseLinesSay(st, lines[1..], clauses);
      } else {
        assert Significant(lines) == [line] + Significant(lines[1..]);
        if step.Err? {
          BadLineSays(st, lines, clauses);
        } else {
          var c := step.value.clauses[|st.clauses|];
          ClauseLineSays(line, st.header.value.0, c);
          if clauses == [] {
            ClausesGrow(step.value, lines[1..]);
          } else {
            ClauseLinesSay(step.value, lines[1..], clauses[1..]);
            SameFirst(st, step.value, c, clauses, lines);
          }
        }
      }
    }
  }

  lemma BadLineSays(st: Parsed, lines: seq<string>, clauses: seq<Clause>)
    requires st.header.Some? && lines != [] && !Skipped(Strip(lines[0])) && ParseLine(st, lines[0]).Err?
    ensures !(SayClauses(Significant(lines), clauses) && AllWellFormed(clauses, st.header.value.0))
  {
    var line := Strip(lines[0]);
    if SayClauses(Significant(lines), clauses) && AllWellFormed(clauses, st.header.value.0) {
      assert Significant(lines)[0] == line;
      assert SaysClause(Significant(lines)[0], clauses[0]);
      ClauseLineSays(line, st.header.value.0, clauses[0]);
      assert false;
    }
  }

  lemma {:induction false} ClausesGrow(st: Parsed, lines: seq<string>)
    ensures ParseLines(st, lines).Ok? ==> st.clauses <= ParseLines(st, lines).value.clauses
    decreases |lines|
  {
    if lines != [] && ParseLine(st, lines[0]).Ok? {
      ClausesGrow(ParseLine(st, lines[0]).value, lines[1..]);
    }
  }

  lemma SameFirst(st: Parsed, next: Parsed, c: Clause, clauses: seq<Clause>, lines: seq<string>)
    requires st.header.Some? && clauses != [] && lines != []
    requires next == st.(clauses := st.clauses + [c]) && ParseLine(st, lines[0]) == Ok(next)
    requires Significant(lines) == [Strip(lines[0])] + Significant(lines[1..])
    requires SaysClause(Strip(lines[0]), c) && WellFormedClause(c, st.header.value.0)
    requires ParseLines(next, lines[1..]) == Ok(next.(clauses := next.clauses + clauses[1..])) <==>
               SayClauses(Significant(lines[1..]), clauses[1..]) && AllWellFormed(clauses[1..], st.header.value.0)
    ensures ParseLines(st, lines) == Ok(st.(clauses := st.clauses + clauses)) <==>
              SayClauses(Significant(lines), clauses) && AllWellFormed(clauses, st.header.value.0)
  {
    AllWellFormedSplit(clauses, st.header.value.0);
    SayFirst(Strip(lines[0]), Significant(lines[1..]), clauses);
    FirstThenRest(st.clauses, clauses);
    ClausesGrow(next, lines[1..]);
    if clauses[0] != c {
      assert (st.clauses + clauses)[|st.clauses|] != next.clauses[|st.clauses|];
    }
  }

  lemma SayFirst(line: string, rest: seq<string>, clauses: seq<Clause>)
    requires clauses != []
    ensures SayClauses([line] + rest, clauses) <==> SaysClause(line, clauses[0]) && SayClauses(rest, clauses[1..])
  {
    var lines := [line] + rest;
    assert forall i :: 1 <= i < |lines| ==> lines[i] == rest[i - 1];
    assert forall i :: 0 <= i < |rest| ==> rest[i] == lines[i + 1];
    assert forall i :: 0 <= i < |clauses[1..]| ==> clauses[1..][i] == clauses[i + 1];
    assert forall i :: 1 <= i < |clauses| ==> clauses[i] == clauses[1..][i - 1];
  }

  lemma {:induction false} HeaderFirst(lines: seq<string>, nVars: int, count: int, clauses: seq<Clause>)
    ensures var sig := Significant(lines);
            ParseLines(Parsed(None, []), lines) == Ok(Parsed(Some((nVars, count)), clauses)) <==>
              sig != [] && SaysHeader(sig[0], nVars, count) && SayClauses(sig[1..], clauses)
              && AllWellFormed(clauses, nVars)
    decreases |lines|
  {
    if lines != [] {
      var line := Strip(lines[0]);
      if Skipped(line) {
        assert Significant(lines) == Significant(lines[1..]);
        HeaderFirst(lines[1..], nVars, count, clauses);
      } else {
        var sig := [line] + Significant(lines[1..]);
        assert Significant(lines) == sig && sig[0] == line && sig[1..] == Significant(lines[1..]);
        if IsHeader(line) && ParseHeader(line).Ok? {
          HeaderThenClauses(lines, nVars, count, clauses);
        }
      }
    }
  }

  lemma HeaderThenClauses(lines: seq<string>, nVars: int, count: int, clauses: seq<Clause>)
    requires lines != [] && var line := Strip(lines[0]); !Skipped(line) && IsHeader(line) && ParseHeader(line).Ok?
    ensures ParseLines(Parsed(None, []), lines) == Ok(Parsed(Some((nVars, count)), clauses)) <==>
              SaysHeader(Strip(lines[0]), nVars, count) && SayClauses(Significant(lines[1..]), clauses)
              && AllWellFormed(clauses, nVars)
  {
    var h := ParseHeader(Strip(lines[0])).value;
    var st := Parsed(Some(h), []);
    assert WellFormedSoFar(st);
    ClauseLinesSay(st, lines[1..], clauses);
    assert [] + clauses == clauses;
    if ParseLines(st, lines[1..]).Ok? {
      ParseLinesKeeps(st, lines[1..]);
    }
  }

  ghost predicate IsText(lines: seq<string>, cnf: Cnf) {
    && lines != [] && SaysHeader(lines[0], cnf.nVars, |cnf.clauses|)
    && SayClauses(lines[1..], cnf.clauses) && WellFormed(cnf)
  }

  lemma FinishedExactly(text: string, cnf: Cnf)
    ensures Parse(text, None, None) == Ok(cnf) <==>
              ParseLines(Parsed(None, []), SplitLines(text))
              == Ok(Parsed(Some((cnf.nVars, |cnf.clauses|)), cnf.clauses))
  {
  }

  /** A text is a formula exactly when its lines, blanks and comments aside, are one header followed by as many
      clauses as it declares, each of three literals and a zero over distinct variables in range. */
  lemma AcceptedExactly(text: string, cnf: Cnf)
    ensures Parse(text, None, None) == Ok(cnf) <==> IsText(Significant(SplitLines(text)), cnf)
  {
    FinishedExactly(text, cnf);
    HeaderFirst(SplitLines(text), cnf.nVars, |cnf.clauses|, cnf.clauses);
  }
}
