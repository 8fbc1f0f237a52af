/** Building, checking and grading one challenge, after `cathedral_thin/core.py`: from the validator's
    secret to the graded answer.

    Hashes and codecs from libraries are parameters. `Lawful` is all that is asked of them. */
module Challenges {
  import opened Prelude
  import opened RandomStream
  import opened Cnfs
  import opened AjmGenerator
  import opened AssignmentCodec
  import opened Dimacs

  const PROTOCOL_VERSION := 1
  const MAX_COMPRESSED_CNF_BYTES := 512_000
  const MAX_DIMACS_BYTES := 4_000_000
  const MAX_CLOCK_SKEW_MS := 30_000

  datatype Inflated = Corrupt | Unfinished | Whole(raw: seq<Byte>)

  datatype SeedFields = SeedFields(netuid: int, validator: string, miner: string, roundId: int, slot: int)

  datatype Libraries = Libraries(
    deriveSeed: (seq<Byte>, SeedFields) -> seq<Byte>,
    hmac: (seq<Byte>, nat) -> Block,
    deflate: seq<Byte> -> seq<Byte>,
    inflate: seq<Byte> -> Inflated,
    toBase64: seq<Byte> -> string,
    fromBase64: string -> Option<seq<Byte>>,
    sha256Hex: seq<Byte> -> string,
    commitment: PublicFields -> string)

  predicate IsLowerHex(c: char) {
    '0' <= c <= '9' || 'a' <= c <= 'f'
  }

  predicate IsHexDigest(s: string) {
    |s| == 64 && forall i :: 0 <= i < 64 ==> IsLowerHex(s[i])
  }

  ghost predicate Lawful(lib: Libraries) {
    && (forall secret, fields :: |lib.deriveSeed(secret, fields)| == 32)
    && (forall seed :: Fair(KeyStream(lib.hmac, seed)))
    && (forall raw :: lib.inflate(lib.deflate(raw)) == Whole(raw))
    && (forall raw :: lib.fromBase64(lib.toBase64(raw)) == Some(raw))
    && (forall raw :: |lib.toBase64(raw)| == (|raw| + 2) / 3 * 4)
    && (forall raw :: IsHexDigest(lib.sha256Hex(raw)))
  }

  // ---------------------------------------------------------------------------------------------
  // The laws can be met.

  function Zeros(n: nat): seq<Byte> {
    seq<Byte>(n, _ => 0)
  }

  function ZeroBlock(): Block {
    Zeros(32)
  }

  /** One character for each byte, filled up to the length base64 has. */
  function PlainText(raw: seq<Byte>): string {
    seq((|raw| + 2) / 3 * 4, i requires 0 <= i => if i < |raw| then raw[i] as char else '\U{100}')
  }

  function PlainLength(text: string): (n: nat)
    ensures n <= |text| && forall i :: 0 <= i < n ==> text[i] as int < 256
  {
    if text != "" && text[0] as int < 256 then 1 + PlainLength(text[1..]) else 0
  }

  function PlainBytes(text: string): Option<seq<Byte>> {
    Some(seq<Byte>(PlainLength(text), i requires 0 <= i < PlainLength(text) => text[i] as int))
  }

  lemma {:induction false} PlainLengthOf(text: string, n: nat)
    requires n <= |text| && (forall i :: 0 <= i < n ==> text[i] as int < 256)
    requires forall i :: n <= i < |text| ==> text[i] as int >= 256
    ensures PlainLength(text) == n
  {
    if n > 0 {
      PlainLengthOf(text[1..], n - 1);
    }
  }

  lemma PlainReadsBack(raw: seq<Byte>)
    ensures PlainBytes(PlainText(raw)) == Some(raw)
  {
    PlainLengthOf(PlainText(raw), |raw|);
    var read := PlainBytes(PlainText(raw)).value;
    forall i | 0 <= i < |raw|
      ensures read[i] == raw[i]
    {
      assert PlainText(raw)[i] == raw[i] as char;
    }
    assert read == raw;
  }

  /** Libraries that do next to nothing, but keep every law. */
  function PlainLibraries(): Libraries {
    Libraries((_, _) => Zeros(32), (_, _) => ZeroBlock(), raw => raw, raw => Whole(raw), PlainText, PlainBytes,
              _ => seq(64, _ => '0'), _ => "")
  }

  /** There are libraries that meet everything asked of them. */
  lemma LawsCanBeMet()
    ensures Lawful(PlainLibraries())
  {
    var lib := PlainLibraries();
    forall seed
      ensures Fair(KeyStream(lib.hmac, seed))
    {
      ZeroStreamIsFair(KeyStream(lib.hmac, seed));
    }
    forall raw
      ensures lib.fromBase64(lib.toBase64(raw)) == Some(raw)
    {
      PlainReadsBack(raw);
    }
  }

  // ---------------------------------------------------------------------------------------------
  // The formula's wire form.

  datatype CnfError =
    | TextTooLong | CompressedTooLong | PayloadTooLong | BadBase64 | BadCompression | TooLongOrTrailing
    | DigestMismatch | NotAscii | BadDimacs(parse: ParseError)

  predicate IsAscii(text: string) {
    forall i :: 0 <= i < |text| ==> text[i] as int < 128
  }

  function AsciiBytes(text: string): seq<Byte>
    requires IsAscii(text)
  {
    seq<Byte>(|text|, i requires 0 <= i < |text| => text[i] as int)
  }

  function AsciiText(raw: seq<Byte>): Option<string> {
    if exists i :: 0 <= i < |raw| && raw[i] >= 128 then None
    else Some(seq(|raw|, i requires 0 <= i < |raw| && raw[i] < 128 => raw[i] as char))
  }

  function Lower(s: string): string {
    seq(|s|, i requires 0 <= i < |s| => if 'A' <= s[i] <= 'Z' then (s[i] as int + 32) as char else s[i])
  }

  function EncodeCnf(lib: Libraries, cnf: Cnf): Result<(string, string), CnfError>
    requires IsAscii(ToDimacs(cnf))
  {
    var raw := AsciiBytes(ToDimacs(cnf));
    if |raw| > MAX_DIMACS_BYTES then Err(TextTooLong)
    else
      var compressed := lib.deflate(raw);
      if |compressed| > MAX_COMPRESSED_CNF_BYTES then Err(CompressedTooLong)
      else Ok((lib.toBase64(compressed), lib.sha256Hex(raw)))
  }

  function DecodeCnf(lib: Libraries, payload: string, sha256: string, vars: int, clauses: int, maxBytes: int)
    : Result<Cnf, CnfError>
  {
    if |payload| > (MAX_COMPRESSED_CNF_BYTES + 2) / 3 * 4 + 8 then Err(PayloadTooLong)
    else
      match lib.fromBase64(payload)
      case None => Err(BadBase64)
      case Some(compressed) =>
        if |compressed| > MAX_COMPRESSED_CNF_BYTES then Err(CompressedTooLong)
        else
          match lib.inflate(compressed)
          case Corrupt => Err(BadCompression)
          case Unfinished => Err(TooLongOrTrailing)
          case Whole(raw) =>
            if |raw| > maxBytes then Err(TooLongOrTrailing)
            else if lib.sha256Hex(raw) != Lower(sha256) then Err(DigestMismatch)
            else
              match AsciiText(raw)
              case None => Err(NotAscii)
              case Some(text) =>
                match Parse(text, Some(vars), Some(clauses))
                case Err(e) => Err(BadDimacs(e))
                case Ok(cnf) => Ok(cnf)
  }

  lemma {:induction false} SpacedIsAscii(words: seq<string>)
    requires forall i :: 0 <= i < |words| ==> IsAscii(words[i])
    ensures IsAscii(Spaced(words))
  {
    if |words| > 1 {
      SpacedIsAscii(words[1..]);
    }
  }

  lemma PrintedIntIsAscii(n: int)
    ensures IsAscii(Decimals.PrintInt(n))
  {
    Decimals.PrintNatDigits(if n < 0 then -n else n);
    assert forall c :: Decimals.IsDigit(c) ==> c as int < 128;
  }

  lemma {:induction false} ClauseLinesAscii(clauses: seq<Clause>)
    ensures IsAscii(ClauseLines(clauses))
  {
    if clauses != [] {
      var c := clauses[0];
      PrintedIntIsAscii(c.a);
      PrintedIntIsAscii(c.b);
      PrintedIntIsAscii(c.c);
      SpacedIsAscii(ClauseWords(c));
      ClauseLinesAscii(clauses[1..]);
    }
  }

  lemma DimacsIsAscii(cnf: Cnf)
    ensures IsAscii(ToDimacs(cnf))
  {
    PrintedIntIsAscii(cnf.nVars);
    PrintedIntIsAscii(|cnf.clauses|);
    SpacedIsAscii(HeaderWords(cnf));
    ClauseLinesAscii(cnf.clauses);
  }

  lemma AsciiRoundTrip(text: string)
    requires IsAscii(text)
    ensures AsciiText(AsciiBytes(text)) == Some(text)
  {
    var raw := AsciiBytes(text);
    assert forall i :: 0 <= i < |raw| ==> raw[i] == text[i] as int;
    assert AsciiText(raw).value == text;
  }

  lemma LowerHexDigest(s: string)
    requires IsHexDigest(s)
    ensures Lower(s) == s
  {
    forall i | 0 <= i < |s|
      ensures Lower(s)[i] == s[i]
    {
      assert IsLowerHex(s[i]);
    }
  }

  /** The miner decodes exactly the formula the validator encoded. */
  lemma DecodeUndoesEncode(lib: Libraries, cnf: Cnf)
    requires Lawful(lib) && WellFormed(cnf)
    requires IsAscii(ToDimacs(cnf)) && EncodeCnf(lib, cnf).Ok?
    ensures var wire := EncodeCnf(lib, cnf).value;
            DecodeCnf(lib, wire.0, wire.1, cnf.nVars, |cnf.clauses|, MAX_DIMACS_BYTES) == Ok(cnf)
  {
    var text := ToDimacs(cnf);
    var raw := AsciiBytes(text);
    AsciiRoundTrip(text);
    LowerHexDigest(lib.sha256Hex(raw));
    ParseUndoesPrint(cnf);
    ExpectationsFilter(text, Some(cnf.nVars), Some(|cnf.clauses|));
    assert lib.inflate(lib.deflate(raw)) == Whole(raw);
    assert |lib.toBase64(lib.deflate(raw))| == (|lib.deflate(raw)| + 2) / 3 * 4;
  }

  // ---------------------------------------------------------------------------------------------
  // The challenge and its envelope check.

  datatype PublicFields = PublicFields(
    protocolVersion: int, validator: string, miner: string, netuid: int, roundId: int,
    issuedAtMs: int, expiresAtMs: int, nVars: int, nClauses: int, cnfSha256: string)

  datatype Challenge = Challenge(challengeId: string, fields: PublicFields, cnfB64: string)

  datatype Request = Request(
    secret: seq<Byte>, netuid: int, validator: string, miner: string, roundId: int,
    issuedAtMs: int, ttlMs: int, nVars: int, nClauses: int, slot: int)

  datatype BuildError =
    | NonPositiveTtl | BadSecret | BadDerivationFields
    | NotGenerated(generate: GenerateError) | NotEncoded(encode: CnfError)

  datatype EnvelopeError =
    | UnsupportedVersion | MissingIdentity | OtherMiner | OtherValidator | InvalidExpiry | Expired
    | IssuedInFuture | VariablesOutsideBounds | ClausesOutsideBounds | InvalidDigest | CommitmentMismatch

  function Seed(lib: Libraries, q: Request): Result<seq<Byte>, BuildError> {
    if |q.secret| != 32 then Err(BadSecret)
    else if q.validator == "" || q.miner == "" || q.roundId < 0 || q.slot < 0 then Err(BadDerivationFields)
    else Ok(lib.deriveSeed(q.secret, SeedFields(q.netuid, q.validator, q.miner, q.roundId, q.slot)))
  }

  function Assemble(lib: Libraries, q: Request, wire: (string, string)): Challenge {
    var fields := PublicFields(PROTOCOL_VERSION, q.validator, q.miner, q.netuid, q.roundId,
                               q.issuedAtMs, q.issuedAtMs + q.ttlMs, q.nVars, q.nClauses, wire.1);
    Challenge(lib.commitment(fields), fields, wire.0)
  }

  /** What a request determines: nothing else enters a challenge. */
  ghost function Built(lib: Libraries, q: Request): Result<(Challenge, Cnf), BuildError>
    requires Lawful(lib)
  {
    if q.ttlMs <= 0 then Err(NonPositiveTtl)
    else
      match Seed(lib, q)
      case Err(e) => Err(e)
      case Ok(seed) =>
        match GeneratedFrom(lib.hmac, seed, q.nVars, q.nClauses)
        case Err(e) => Err(NotGenerated(e))
        case Ok((cnf, _)) =>
          DimacsIsAscii(cnf);
          match EncodeCnf(lib, cnf)
          case Err(e) => Err(NotEncoded(e))
          case Ok(wire) => Ok((Assemble(lib, q, wire), cnf))
  }

  method BuildChallenge(lib: Libraries, q: Request) returns (r: Result<(Challenge, Cnf), BuildError>)
    requires Lawful(lib)
    ensures r == Built(lib, q)
  {
    if q.ttlMs <= 0 {
      return Err(NonPositiveTtl);
    }
    var seed := Seed(lib, q);
    if seed.Err? {
      return Err(seed.error);
    }
    var made := GenerateAjmCnf(lib.hmac, seed.value, q.nVars, q.nClauses);
    if made.Err? {
      return Err(NotGenerated(made.error));
    }
    var cnf := made.value.0;
    DimacsIsAscii(cnf);
    var wire := EncodeCnf(lib, cnf);
    if wire.Err? {
      return Err(NotEncoded(wire.error));
    }
    return Ok((Assemble(lib, q, wire.value), cnf));
  }

  function ValidateEnvelope(lib: Libraries, ch: Challenge, nowMs: int, expectedMiner: Option<string>,
                            expectedValidator: Option<string>): Result<(), EnvelopeError> {
    var f := ch.fields;
    if f.protocolVersion != PROTOCOL_VERSION then Err(UnsupportedVersion)
    else if f.validator == "" || f.miner == "" then Err(MissingIdentity)
    else if expectedMiner.Some? && f.miner != expectedMiner.value then Err(OtherMiner)
    else if expectedValidator.Some? && f.validator != expectedValidator.value then Err(OtherValidator)
    else if f.expiresAtMs <= f.issuedAtMs then Err(InvalidExpiry)
    else if nowMs > f.expiresAtMs then Err(Expired)
    else if f.issuedAtMs > nowMs + MAX_CLOCK_SKEW_MS then Err(IssuedInFuture)
    else if !(3 <= f.nVars <= 100_000) then Err(VariablesOutsideBounds)
    else if !(1 <= f.nClauses <= 1_000_000) then Err(ClausesOutsideBounds)
    else if !IsHexDigest(Lower(f.cnfSha256)) then Err(InvalidDigest)
    else if ch.challengeId != lib.commitment(f) then Err(CommitmentMismatch)
    else Ok(())
  }

  lemma BuiltHasTwoModels(lib: Libraries, q: Request)
    requires Lawful(lib) && Built(lib, q).Ok?
    ensures var (ch, cnf) := Built(lib, q).value;
            && cnf.nVars == q.nVars && |cnf.clauses| == q.nClauses
            && 3 <= q.nVars <= 100_000 && 1 <= q.nClauses <= 1_000_000
            && exists planted :: TwoHiddenModels(cnf, planted)
  {
    var s := KeyStream(lib.hmac, Seed(lib, q).value);
    SourceDrawsVariables(s, q.nVars);
    DeterminedHasTwoModels(SourceOf(s, q.nVars), q.nVars, q.nClauses);
  }

  /** What a built challenge is made of. */
  lemma BuiltParts(lib: Libraries, q: Request)
    requires Lawful(lib) && Built(lib, q).Ok?
    ensures var (ch, cnf) := Built(lib, q).value;
            && IsAscii(ToDimacs(cnf)) && EncodeCnf(lib, cnf).Ok?
            && ch == Assemble(lib, q, EncodeCnf(lib, cnf).value)
            && IsHexDigest(ch.fields.cnfSha256)
            && q.validator != "" && q.miner != "" && q.ttlMs > 0
  {
    DimacsIsAscii(Built(lib, q).value.1);
  }

  /** A challenge says what was asked for and commits to it, and its formula is the one that the seed of the request's
      own fields determines, under its digest. */
  lemma BuiltCommitsToRequest(lib: Libraries, q: Request)
    requires Lawful(lib) && Built(lib, q).Ok?
    ensures var (ch, cnf) := Built(lib, q).value;
            var seed := lib.deriveSeed(q.secret, SeedFields(q.netuid, q.validator, q.miner, q.roundId, q.slot));
            && ch.fields == PublicFields(1, q.validator, q.miner, q.netuid, q.roundId, q.issuedAtMs,
                                         q.issuedAtMs + q.ttlMs, q.nVars, q.nClauses, ch.fields.cnfSha256)
            && ch.challengeId == lib.commitment(ch.fields)
            && Fair(KeyStream(lib.hmac, seed)) && GeneratedFrom(lib.hmac, seed, q.nVars, q.nClauses).Ok?
            && cnf == GeneratedFrom(lib.hmac, seed, q.nVars, q.nClauses).value.0
            && IsAscii(ToDimacs(cnf)) && ch.fields.cnfSha256 == lib.sha256Hex(AsciiBytes(ToDimacs(cnf)))
            && ch.cnfB64 == lib.toBase64(lib.deflate(AsciiBytes(ToDimacs(cnf))))
  {
    BuiltParts(lib, q);
  }

  /** A request is refused before anything is generated exactly for a lifetime, a secret or fields that cannot be
      used, in this order. */
  lemma RequestRefusedExactly(lib: Libraries, q: Request)
    requires Lawful(lib)
    ensures Built(lib, q) == Err(NonPositiveTtl) <==> q.ttlMs <= 0
    ensures Built(lib, q) == Err(BadSecret) <==> q.ttlMs > 0 && |q.secret| != 32
    ensures Built(lib, q) == Err(BadDerivationFields) <==>
              q.ttlMs > 0 && |q.secret| == 32 && (q.validator == "" || q.miner == "" || q.roundId < 0 || q.slot < 0)
  {
  }

  /** An envelope passes exactly when it is of this protocol, names its parties and the expected ones, has a lifetime
      that is not over and did not begin more than 30 s ahead, keeps the bounds, has a hex digest in either case, and
      is committed to. */
  lemma EnvelopePassesExactly(lib: Libraries, ch: Challenge, nowMs: int, miner: Option<string>,
                              validator: Option<string>)
    ensures ValidateEnvelope(lib, ch, nowMs, miner, validator).Ok? <==>
              var f := ch.fields;
              && f.protocolVersion == 1 && f.validator != "" && f.miner != ""
              && (miner.Some? ==> f.miner == miner.value) && (validator.Some? ==> f.validator == validator.value)
              && f.issuedAtMs < f.expiresAtMs && nowMs <= f.expiresAtMs && f.issuedAtMs <= nowMs + 30_000
              && 3 <= f.nVars <= 100_000 && 1 <= f.nClauses <= 1_000_000
              && |f.cnfSha256| == 64 && (forall i :: 0 <= i < 64 ==> f.cnfSha256[i] in "0123456789abcdefABCDEF")
              && ch.challengeId == lib.commitment(f)
  {
    HexInEitherCase(ch.fields.cnfSha256);
  }

  lemma HexInEitherCase(text: string)
    ensures IsHexDigest(Lower(text)) <==>
              |text| == 64 && forall i :: 0 <= i < 64 ==> text[i] in "0123456789abcdefABCDEF"
  {
    assert |text| == 64 ==> forall i :: 0 <= i < 64 ==>
             IsLowerHex(Lower(text)[i]) == (text[i] in "0123456789abcdefABCDEF");
  }

  /** A formula is decoded exactly when the payload is short enough, is the base64 of short enough data that inflates
      whole to short enough ASCII text under the digest, and the text is a formula of the expected size. */
  lemma DecodedExactly(lib: Libraries, payload: string, sha256: string, vars: int, clauses: int, maxBytes: int,
                       cnf: Cnf)
    ensures DecodeCnf(lib, payload, sha256, vars, clauses, maxBytes) == Ok(cnf) <==>
              && |payload| <= (512_000 + 2) / 3 * 4 + 8 && lib.fromBase64(payload).Some?
              && |lib.fromBase64(payload).value| <= 512_000
              && lib.inflate(lib.fromBase64(payload).value).Whole?
              && var raw := lib.inflate(lib.fromBase64(payload).value).raw;
                 && |raw| <= maxBytes && lib.sha256Hex(raw) == Lower(sha256)
                 && (forall i :: 0 <= i < |raw| ==> raw[i] < 128)
                 && Parse(seq(|raw|, i requires 0 <= i < |raw| => raw[i] as char), Some(vars), Some(clauses)) == Ok(cnf)
  {
    if lib.fromBase64(payload).Some? && lib.inflate(lib.fromBase64(payload).value).Whole? {
      var raw := lib.inflate(lib.fromBase64(payload).value).raw;
      if forall i :: 0 <= i < |raw| ==> raw[i] < 128 {
        assert AsciiText(raw).value == seq(|raw|, i requires 0 <= i < |raw| => raw[i] as char);
      }
    }
  }

  /** A built challenge passes its envelope check exactly from 30 s before issue until expiry, for the
      miner and validator it names. */
  lemma BuiltPassesEnvelope(lib: Libraries, q: Request, nowMs: int)
    requires Lawful(lib) && Built(lib, q).Ok?
    ensures ValidateEnvelope(lib, Built(lib, q).value.0, nowMs, Some(q.miner), Some(q.validator)).Ok?
            <==> q.issuedAtMs - 30_000 <= nowMs <= q.issuedAtMs + q.ttlMs
  {
    BuiltParts(lib, q);
    BuiltHasTwoModels(lib, q);
    LowerHexDigest(Built(lib, q).value.0.fields.cnfSha256);
  }

  /** The miner decodes the validator's formula from a built challenge. */
  lemma BuiltDecodes(lib: Libraries, q: Request)
    requires Lawful(lib) && Built(lib, q).Ok?
    ensures var (ch, cnf) := Built(lib, q).value;
            DecodeCnf(lib, ch.cnfB64, ch.fields.cnfSha256, ch.fields.nVars, ch.fields.nClauses, MAX_DIMACS_BYTES)
            == Ok(cnf)
  {
    BuiltParts(lib, q);
    BuiltHasTwoModels(lib, q);
    DecodeUndoesEncode(lib, Built(lib, q).value.1);
  }

  // ---------------------------------------------------------------------------------------------
  // Grading.

  datatype AnswerError = AnswerTooLong | AnswerNotBase64 | AnswerShape(unpack: UnpackError)

  datatype Reason =
    | ChallengeMismatch | MinerIdentityMismatch | ExpiredAnswer | InvalidObservedTime
    | BadAnswer(error: AnswerError) | WitnessFailed | Verified

  datatype Measured = Finite(ms: real) | NotFinite

  datatype Graded = Graded(score: real, reason: Reason)

  datatype GradeError = BadReferenceTime | BadCorrectnessShare

  datatype Answer = Answer(challengeId: string, miner: string, assignmentB64: string)

  function DecodeAssignment(lib: Libraries, payload: string, nVars: int): Result<seq<int>, AnswerError> {
    if |payload| > (ByteCount(nVars) + 2) / 3 * 4 + 4 then Err(AnswerTooLong)
    else
      match lib.fromBase64(payload)
      case None => Err(AnswerNotBase64)
      case Some(packed) =>
        match Unpack(packed, nVars)
        case Err(e) => Err(AnswerShape(e))
        case Ok(lits) => Ok(lits)
  }

  /** The score before it is rounded to nine digits. */
  function Score(observedMs: real, referenceMs: real, correctnessShare: real): (s: real)
    requires observedMs >= 0.0 && referenceMs > 0.0 && 0.0 <= correctnessShare <= 1.0
  {
    var speed := referenceMs / (referenceMs + observedMs);
    var score := correctnessShare + (1.0 - correctnessShare) * speed;
    if score > 1.0 then 1.0 else if score < 0.0 then 0.0 else score
  }

  ghost function Grade(lib: Libraries, ch: Challenge, cnf: Cnf, answer: Answer, observed: Measured, receivedAtMs: int,
                       reference: Measured, correctnessShare: real): Result<Graded, GradeError> {
    if answer.challengeId != ch.challengeId then Ok(Graded(0.0, ChallengeMismatch))
    else if answer.miner != ch.fields.miner then Ok(Graded(0.0, MinerIdentityMismatch))
    else if receivedAtMs > ch.fields.expiresAtMs then Ok(Graded(0.0, ExpiredAnswer))
    else if observed.NotFinite? || observed.ms < 0.0 then Ok(Graded(0.0, InvalidObservedTime))
    else if reference.NotFinite? || reference.ms <= 0.0 then Err(BadReferenceTime)
    else if !(0.0 <= correctnessShare <= 1.0) then Err(BadCorrectnessShare)
    else
      match DecodeAssignment(lib, answer.assignmentB64, cnf.nVars)
      case Err(e) => Ok(Graded(0.0, BadAnswer(e)))
      case Ok(lits) =>
        if !IsModel(lits, cnf) then Ok(Graded(0.0, WitnessFailed))
        else Ok(Graded(Score(observed.ms, reference.ms, correctnessShare), Verified))
  }

  method GradeResponse(lib: Libraries, ch: Challenge, cnf: Cnf, answer: Answer, observed: Measured, receivedAtMs: int,
                       reference: Measured, correctnessShare: real) returns (r: Result<Graded, GradeError>)
    requires LiteralsInRange(cnf)
    ensures r == Grade(lib, ch, cnf, answer, observed, receivedAtMs, reference, correctnessShare)
  {
    if answer.challengeId != ch.challengeId {
      return Ok(Graded(0.0, ChallengeMismatch));
    }
    if answer.miner != ch.fields.miner {
      return Ok(Graded(0.0, MinerIdentityMismatch));
    }
    if receivedAtMs > ch.fields.expiresAtMs {
      return Ok(Graded(0.0, ExpiredAnswer));
    }
    if observed.NotFinite? || observed.ms < 0.0 {
      return Ok(Graded(0.0, InvalidObservedTime));
    }
    if reference.NotFinite? || reference.ms <= 0.0 {
      return Err(BadReferenceTime);
    }
    if !(0.0 <= correctnessShare <= 1.0) {
      return Err(BadCorrectnessShare);
    }
    var assignment := DecodeAssignment(lib, answer.assignmentB64, cnf.nVars);
    if assignment.Err? {
      return Ok(Graded(0.0, BadAnswer(assignment.error)));
    }
    var witnessed := VerifyWitness(cnf, assignment.value);
    if !witnessed {
      return Ok(Graded(0.0, WitnessFailed));
    }
    return Ok(Graded(Score(observed.ms, reference.ms, correctnessShare), Verified));
  }

  lemma SpeedBounds(observedMs: real, referenceMs: real)
    requires observedMs >= 0.0 && referenceMs > 0.0
    ensures 0.0 < referenceMs / (referenceMs + observedMs) <= 1.0
  {
  }

  lemma ScaleBounds(share: real, speed: real)
    requires 0.0 <= share <= 1.0 && 0.0 < speed <= 1.0
    ensures share <= share + (1.0 - share) * speed <= 1.0
    ensures 0.0 < share + (1.0 - share) * speed
  {
    var rest := 1.0 - share;
    ProductNonNegative(rest, 1.0 - speed);
    ProductNonNegative(rest, speed);
    SplitProduct(rest, speed);
    if share == 0.0 {
      assert rest * speed == speed;
    }
  }

  lemma SplitProduct(rest: real, speed: real)
    ensures rest * (1.0 - speed) == rest - rest * speed
  {
  }

  lemma ProductNonNegative(a: real, b: real)
    requires a >= 0.0 && b >= 0.0
    ensures a * b >= 0.0
  {
  }

  /** The pre-rounding score of verified work lies between the correctness share and 1. */
  lemma ScoreBounds(observedMs: real, referenceMs: real, share: real)
    requires observedMs >= 0.0 && referenceMs > 0.0 && 0.0 <= share <= 1.0
    ensures share <= Score(observedMs, referenceMs, share) <= 1.0
    ensures 0.0 < Score(observedMs, referenceMs, share)
  {
    SpeedBounds(observedMs, referenceMs);
    ScaleBounds(share, referenceMs / (referenceMs + observedMs));
  }

  lemma SpeedFalls(fastMs: real, slowMs: real, referenceMs: real)
    requires 0.0 <= fastMs <= slowMs && referenceMs > 0.0
    ensures referenceMs / (referenceMs + slowMs) <= referenceMs / (referenceMs + fastMs)
  {
    var fast, slow := referenceMs / (referenceMs + fastMs), referenceMs / (referenceMs + slowMs);
    SpeedBounds(slowMs, referenceMs);
    DivideBack(referenceMs, referenceMs + fastMs);
    DivideBack(referenceMs, referenceMs + slowMs);
    LargerDivisor(fast, slow, referenceMs + fastMs, referenceMs + slowMs);
  }

  lemma DivideBack(a: real, t: real)
    requires t != 0.0
    ensures a / t * t == a
  {
  }

  lemma LargerDivisor(fast: real, slow: real, few: real, many: real)
    requires fast * few == slow * many && 0.0 < few <= many && slow >= 0.0
    ensures slow <= fast
  {
    ProductNonNegative(slow, many - few);
    assert slow * (many - few) == slow * many - slow * few;
    Cancel(fast, slow, few);
  }

  lemma Cancel(a: real, b: real, c: real)
    requires a * c >= b * c && c > 0.0
    ensures a >= b
  {
  }

  /** A slower answer never scores more. */
  lemma ScoreNeverRisesWithTime(fastMs: real, slowMs: real, referenceMs: real, share: real)
    requires 0.0 <= fastMs <= slowMs && referenceMs > 0.0 && 0.0 <= share <= 1.0
    ensures Score(slowMs, referenceMs, share) <= Score(fastMs, referenceMs, share)
  {
    SpeedFalls(fastMs, slowMs, referenceMs);
    var fast, slow := referenceMs / (referenceMs + fastMs), referenceMs / (referenceMs + slowMs);
    assert (1.0 - share) * slow <= (1.0 - share) * fast;
  }

  /** What a score above the correctness share is to the rest is what the reference time is to the reference time and
      the observed time together. */
  lemma ScoreEquation(observedMs: real, referenceMs: real, share: real)
    requires observedMs >= 0.0 && referenceMs > 0.0 && 0.0 <= share <= 1.0
    ensures (Score(observedMs, referenceMs, share) - share) * (referenceMs + observedMs) == (1.0 - share) * referenceMs
  {
    var rest, speed := 1.0 - share, referenceMs / (referenceMs + observedMs);
    SpeedBounds(observedMs, referenceMs);
    ScaleBounds(share, speed);
    DivideBack(referenceMs, referenceMs + observedMs);
    Reassociate(rest, speed, referenceMs + observedMs);
    assert Score(observedMs, referenceMs, share) - share == rest * speed;
  }

  lemma Reassociate(a: real, b: real, c: real)
    ensures a * b * c == a * (b * c)
  {
  }

  /** Speed is always paid: with any share for speed a slower answer scores strictly less ... */
  lemma ScoreFallsWithTime(fastMs: real, slowMs: real, referenceMs: real, share: real)
    requires 0.0 <= fastMs < slowMs && referenceMs > 0.0 && 0.0 <= share < 1.0
    ensures Score(slowMs, referenceMs, share) < Score(fastMs, referenceMs, share)
  {
    ScoreEquation(fastMs, referenceMs, share);
    ScoreEquation(slowMs, referenceMs, share);
    Positive(1.0 - share, referenceMs);
    StrictlyLarger(Score(fastMs, referenceMs, share) - share, Score(slowMs, referenceMs, share) - share,
                   referenceMs + fastMs, referenceMs + slowMs, (1.0 - share) * referenceMs);
  }

  lemma Positive(a: real, b: real)
    requires a > 0.0 && b > 0.0
    ensures a * b > 0.0
  {
  }

  lemma StrictlyLarger(fast: real, slow: real, few: real, many: real, paid: real)
    requires fast * few == paid && slow * many == paid && paid > 0.0 && 0.0 < few < many
    ensures slow < fast
  {
    PositiveFactor(slow, many);
    Positive(slow, many - few);
    SplitDifference(slow, many, few);
    Cancel(fast, slow, few);
  }

  lemma PositiveFactor(a: real, b: real)
    requires a * b > 0.0 && b > 0.0
    ensures a > 0.0
  {
  }

  lemma SplitDifference(a: real, b: real, c: real)
    ensures a * (b - c) == a * b - a * c
  {
  }

  /** ... and only an instant answer, or no share for speed, scores 1. */
  lemma FullScoreExactly(observedMs: real, referenceMs: real, share: real)
    requires observedMs >= 0.0 && referenceMs > 0.0 && 0.0 <= share <= 1.0
    ensures Score(observedMs, referenceMs, share) == 1.0 <==> observedMs == 0.0 || share == 1.0
  {
    ScoreEquation(0.0, referenceMs, share);
    ScoreBounds(observedMs, referenceMs, share);
    Cancel(Score(0.0, referenceMs, share) - share, 1.0 - share, referenceMs);
    ScoreBounds(0.0, referenceMs, share);
    if observedMs > 0.0 && share < 1.0 {
      ScoreFallsWithTime(0.0, observedMs, referenceMs, share);
    }
  }

  /** Verified work is paid by that equation, and anything else is paid nothing. */
  lemma PaidBySpeed(lib: Libraries, ch: Challenge, cnf: Cnf, answer: Answer, observed: Measured, receivedAtMs: int,
                    reference: Measured, share: real)
    requires Grade(lib, ch, cnf, answer, observed, receivedAtMs, reference, share).Ok?
    ensures var g := Grade(lib, ch, cnf, answer, observed, receivedAtMs, reference, share).value;
            if g.reason == Verified then
              observed.Finite? && reference.Finite?
              && (g.score - share) * (reference.ms + observed.ms) == (1.0 - share) * reference.ms
            else g.score == 0.0
  {
    if Grade(lib, ch, cnf, answer, observed, receivedAtMs, reference, share).value.reason == Verified {
      ScoreEquation(observed.ms, reference.ms, share);
    }
  }

  /** The first fault decides what an answer is told, and a bad setting is an error only when the answer was for this
      challenge, in time and well measured. */
  lemma FirstFaultDecides(lib: Libraries, ch: Challenge, cnf: Cnf, answer: Answer, observed: Measured,
                          receivedAtMs: int, reference: Measured, share: real)
    ensures var r := Grade(lib, ch, cnf, answer, observed, receivedAtMs, reference, share);
            var (mine, own) := (answer.challengeId == ch.challengeId, answer.miner == ch.fields.miner);
            var inTime := receivedAtMs <= ch.fields.expiresAtMs;
            var measured := observed.Finite? && observed.ms >= 0.0;
            var referenced := reference.Finite? && reference.ms > 0.0;
            var decoded := DecodeAssignment(lib, answer.assignmentB64, cnf.nVars);
            && (r == Ok(Graded(0.0, ChallengeMismatch)) <==> !mine)
            && (r == Ok(Graded(0.0, MinerIdentityMismatch)) <==> mine && !own)
            && (r == Ok(Graded(0.0, ExpiredAnswer)) <==> mine && own && !inTime)
            && (r == Ok(Graded(0.0, InvalidObservedTime)) <==> mine && own && inTime && !measured)
            && (r == Err(BadReferenceTime) <==> mine && own && inTime && measured && !referenced)
            && (r == Err(BadCorrectnessShare) <==>
                  mine && own && inTime && measured && referenced && (share < 0.0 || share > 1.0))
            && ((r.Ok? && r.value.reason.BadAnswer?) <==>
                  mine && own && inTime && measured && referenced && 0.0 <= share <= 1.0 && decoded.Err?)
  {
  }

  /** An answer decodes exactly when it is short enough, is base64, and its bytes unpack. */
  lemma AnswerDecodesExactly(lib: Libraries, payload: string, nVars: nat, lits: seq<int>)
    ensures DecodeAssignment(lib, payload, nVars) == Ok(lits) <==>
              && |payload| <= ((nVars + 7) / 8 + 2) / 3 * 4 + 4 && lib.fromBase64(payload).Some?
              && Unpack(lib.fromBase64(payload).value, nVars) == Ok(lits)
  {
  }

  /** The miner's reply to a challenge it solved with a list of literals. */
  function Reply(lib: Libraries, ch: Challenge, lits: seq<int>, nVars: nat): Answer {
    Answer(ch.challengeId, ch.fields.miner, lib.toBase64(Packed(lits, nVars)))
  }

  lemma ModelSurvivesTheWire(lib: Libraries, lits: seq<int>, cnf: Cnf)
    requires Lawful(lib) && IsModel(lits, cnf)
    ensures var r := DecodeAssignment(lib, lib.toBase64(Packed(lits, cnf.nVars)), cnf.nVars);
            r.Ok? && IsModel(r.value, cnf)
  {
    UnpackPacked(lits, cnf.nVars);
    OrderKeepsLiterals(lits, cnf.nVars);
    var sorted := InVariableOrder(lits, cnf.nVars);
    forall i | 0 <= i < |cnf.clauses|
      ensures Satisfies(sorted, cnf.clauses[i])
    {
      assert Satisfies(lits, cnf.clauses[i]);
    }
  }

  /** Completeness: whatever satisfying assignment a miner sends, in any order of its literals, it is
      verified and scored on speed alone. */
  lemma EveryModelIsVerified(lib: Libraries, q: Request, lits: seq<int>, observedMs: real, receivedAtMs: int,
                             referenceMs: real, share: real)
    requires Lawful(lib) && Built(lib, q).Ok? && IsModel(lits, Built(lib, q).value.1)
    requires observedMs >= 0.0 && referenceMs > 0.0 && 0.0 <= share <= 1.0
    requires receivedAtMs <= q.issuedAtMs + q.ttlMs
    ensures var (ch, cnf) := Built(lib, q).value;
            Grade(lib, ch, cnf, Reply(lib, ch, lits, cnf.nVars), Finite(observedMs), receivedAtMs, Finite(referenceMs),
                  share)
            == Ok(Graded(Score(observedMs, referenceMs, share), Verified))
  {
    BuiltParts(lib, q);
    ModelSurvivesTheWire(lib, lits, Built(lib, q).value.1);
  }

  /** Soundness: an answer is paid exactly when it names this challenge and miner, came in time, and
      its decoded bits satisfy every clause. */
  lemma OnlyWitnessesArePaid(lib: Libraries, ch: Challenge, cnf: Cnf, answer: Answer, observed: Measured,
                             receivedAtMs: int, reference: Measured, share: real)
    requires Grade(lib, ch, cnf, answer, observed, receivedAtMs, reference, share).Ok?
    ensures var g := Grade(lib, ch, cnf, answer, observed, receivedAtMs, reference, share).value;
            && (g.reason == Verified <==> g.score > 0.0)
            && (g.score > 0.0 <==>
                && answer.challengeId == ch.challengeId && answer.miner == ch.fields.miner
                && receivedAtMs <= ch.fields.expiresAtMs
                && observed.Finite? && observed.ms >= 0.0
                && DecodeAssignment(lib, answer.assignmentB64, cnf.nVars).Ok?
                && IsModel(DecodeAssignment(lib, answer.assignmentB64, cnf.nVars).value, cnf))
  {
    var g := Grade(lib, ch, cnf, answer, observed, receivedAtMs, reference, share).value;
    if g.reason == Verified {
      ScoreBounds(observed.ms, reference.ms, share);
    }
  }

  /** Every challenge built can be won, and by two different answers. */
  lemma EveryChallengeIsWinnable(lib: Libraries, q: Request, observedMs: real, receivedAtMs: int, referenceMs: real,
                                 share: real)
    requires Lawful(lib) && Built(lib, q).Ok?
    requires observedMs >= 0.0 && referenceMs > 0.0 && 0.0 <= share <= 1.0
    requires receivedAtMs <= q.issuedAtMs + q.ttlMs
    ensures exists one, other :: Wins(lib, q, one, observedMs, receivedAtMs, referenceMs, share)
              && Wins(lib, q, other, observedMs, receivedAtMs, referenceMs, share)
              && Packed(one, q.nVars) != Packed(other, q.nVars)
  {
    BuiltHasTwoModels(lib, q);
    var cnf := Built(lib, q).value.1;
    var planted :| TwoHiddenModels(cnf, planted);
    var flipped := Complement(planted);
    EveryModelIsVerified(lib, q, planted, observedMs, receivedAtMs, referenceMs, share);
    EveryModelIsVerified(lib, q, flipped, observedMs, receivedAtMs, referenceMs, share);
    ScoreBounds(observedMs, referenceMs, share);
    FlipsAreDifferent(planted, cnf.nVars);
    assert Wins(lib, q, planted, observedMs, receivedAtMs, referenceMs, share);
    assert Wins(lib, q, flipped, observedMs, receivedAtMs, referenceMs, share);
  }

  ghost predicate Wins(lib: Libraries, q: Request, lits: seq<int>, observedMs: real, receivedAtMs: int,
                       referenceMs: real, share: real)
    requires Lawful(lib) && Built(lib, q).Ok? && q.nVars >= 0
  {
    var (ch, cnf) := Built(lib, q).value;
    var g := Grade(lib, ch, cnf, Reply(lib, ch, lits, q.nVars), Finite(observedMs), receivedAtMs, Finite(referenceMs),
                   share);
    g.Ok? && g.value.reason == Verified && g.value.score > 0.0
  }

  lemma FlipsAreDifferent(lits: seq<int>, nVars: nat)
    requires 1 <= nVars && Complete(lits, nVars) && Complete(Complement(lits), nVars)
    ensures Packed(lits, nVars) != Packed(Complement(lits), nVars)
  {
    PackedIsAccepted(lits, nVars);
    PackedIsAccepted(Complement(lits), nVars);
    OneSignEach(lits, nVars, 1);
    OneSignEach(Complement(lits), nVars, 1);
    var flipped := Complement(lits);
    if 1 in lits {
      var i :| 0 <= i < |lits| && lits[i] == 1;
      assert flipped[i] == -1;
    } else {
      var i :| 0 <= i < |lits| && lits[i] == -1;
      assert flipped[i] == 1;
    }
    assert BitOf(Packed(lits, nVars), 1) != BitOf(Packed(flipped, nVars), 1);
  }
}
