/** The validator's persisted state (`cathedral_thin/core.py`): the pending weight vector and its digest,
    the retry bookkeeping, and the checks made when the state is loaded.

    The hash of a vector is a parameter. The state file is one cell that is replaced as a whole. */
module SubmissionState {
  import opened Prelude
  import opened Checkpoints
  import opened Collapse

  const STATE_SCHEMA := 5
  const BASE_BACKOFF_MS := 15_000
  const MAX_BACKOFF_MS := 900_000

  datatype StateError =
    | Misaligned | InvalidVector | InvalidProvenance | InvalidBinding | NothingPending
    | UnsupportedSchema | BadMasterSecret | ConfigChanged | ConfigChangeWithPending
    | DigestMismatch | BadRetryMetadata | BadClassCheckpoint | BadRegistrationCheckpoint | BadEma

  // ---------------------------------------------------------------------------------------------
  // Digests.

  predicate IsHexDigit(c: char) {
    '0' <= c <= '9' || 'a' <= c <= 'f' || 'A' <= c <= 'F'
  }

  /** Python's `bytes.fromhex`: pairs of hex digits, white space allowed between pairs. */
  predicate FromHexAccepts(s: string) {
    if s == "" then true
    else if s[0] in {' ', '\t', '\n', '\r', '\U{0B}', '\U{0C}'} then FromHexAccepts(s[1..])
    else |s| >= 2 && IsHexDigit(s[0]) && IsHexDigit(s[1]) && FromHexAccepts(s[2..])
  }

  predicate IsDigest(s: Digest) {
    |s| == 71 && s[..7] == "sha256:" && FromHexAccepts(s[7..])
  }

  /** A weight to twelve decimal digits, ties to even, in units of the last digit. */
  function Round12(w: real): int {
    var scaled := w * 1_000_000_000_000.0;
    var low := scaled.Floor;
    var rest := scaled - low as real;
    if rest < 0.5 then low else if rest > 0.5 then low + 1 else if low % 2 == 0 then low else low + 1
  }

  /** What the digest of a vector is taken over. */
  datatype VectorBody = VectorBody(pairs: seq<(int, Hotkey, int)>, provenance: Option<Digest>,
                                   registrations: map<ClassId, Digest>)

  type Hash = VectorBody -> Digest

  function Pairs(uids: seq<int>, weights: seq<real>, hotkeys: seq<Hotkey>): seq<(int, Hotkey, int)>
    requires |uids| == |weights| == |hotkeys|
  {
    seq(|uids|, i requires 0 <= i < |uids| => (uids[i], hotkeys[i], Round12(weights[i])))
  }

  predicate VectorEntriesValid(uids: seq<int>, weights: seq<real>, hotkeys: seq<Hotkey>)
    requires |uids| == |weights| == |hotkeys|
  {
    && (forall i :: 0 <= i < |uids| ==> uids[i] >= 0 && weights[i] >= 0.0 && hotkeys[i] != "")
    && (forall i, j :: 0 <= i < j < |uids| ==> uids[i] != uids[j])
  }

  predicate BindingsValid(registrationIds: map<ClassId, Digest>) {
    forall c :: c in registrationIds ==> c != "" && IsDigest(registrationIds[c])
  }

  function VectorDigest(hash: Hash, uids: seq<int>, weights: seq<real>, hotkeys: seq<Hotkey>,
                        provenance: Option<Digest>, registrationIds: map<ClassId, Digest>): Result<Digest, StateError>
  {
    if |uids| != |weights| || |uids| != |hotkeys| || uids == [] then Err(Misaligned)
    else if !VectorEntriesValid(uids, weights, hotkeys) then Err(InvalidVector)
    else if provenance.Some? && !IsDigest(provenance.value) then Err(InvalidProvenance)
    else if !BindingsValid(registrationIds) then Err(InvalidBinding)
    else Ok(hash(VectorBody(Pairs(uids, weights, hotkeys), provenance, registrationIds)))
  }

  // ---------------------------------------------------------------------------------------------
  // The state.

  datatype PendingVector = PendingVector(
    digest: Digest, uids: seq<int>, weights: seq<real>, hotkeys: seq<Hotkey>, provenance: Option<Digest>,
    registrationIds: map<ClassId, Digest>, attempts: int, nextRetryAtMs: int, ambiguous: bool)

  datatype State = State(
    schema: int, fingerprint: string, masterSecret: seq<Byte>, lastCompletedRound: int, ema: Scores,
    pending: Option<PendingVector>, confirmedVector: Option<Digest>, confirmedDecision: Option<Digest>,
    classCheckpoints: map<ClassId, SourceCheckpoint>, registrationCheckpoints: map<ClassId, RegistrationCheckpoint>)

  function NewPending(digest: Digest, uids: seq<int>, weights: seq<real>, hotkeys: seq<Hotkey>,
                      provenance: Option<Digest>, registrationIds: map<ClassId, Digest>): PendingVector
  {
    PendingVector(digest, uids, weights, hotkeys, provenance, registrationIds, 0, 0, false)
  }

  function DelayMs(attempts: int): int {
    var exponent := if attempts - 1 < 10 then attempts - 1 else 10;
    var delay := BASE_BACKOFF_MS * Pow2(if exponent < 0 then 0 else exponent);
    if MAX_BACKOFF_MS < delay then MAX_BACKOFF_MS else delay
  }

  function FailedOnce(p: PendingVector, nowMs: int, ambiguous: bool): PendingVector {
    p.(attempts := p.attempts + 1, ambiguous := ambiguous, nextRetryAtMs := nowMs + DelayMs(p.attempts + 1))
  }

  function Confirmed(s: State): State
    requires s.pending.Some?
  {
    s.(pending := None, confirmedVector := Some(s.pending.value.digest),
       confirmedDecision := s.pending.value.provenance)
  }

  lemma {:induction false} Pow2Grows(a: nat, b: nat)
    requires a <= b
    ensures 1 <= Pow2(a) <= Pow2(b)
    decreases b
  {
    if a < b {
      Pow2Grows(a, b - 1);
    } else if b > 0 {
      Pow2Grows(a - 1, b - 1);
    }
  }

  /** Delays start at the base, never shrink as failures add up, and never pass the cap, which the
      seventh failure reaches. */
  lemma DelaysGrowToCap(fewer: int, more: int)
    requires 1 <= fewer <= more
    ensures 15_000 <= DelayMs(fewer) <= DelayMs(more) <= 900_000
    ensures DelayMs(1) == 15_000
    ensures fewer >= 7 ==> DelayMs(fewer) == 900_000
    ensures fewer < 6 ==> DelayMs(fewer + 1) == 2 * DelayMs(fewer)
    ensures fewer == 6 ==> DelayMs(fewer) == 480_000
  {
    var low, high := if fewer - 1 < 10 then fewer - 1 else 10, if more - 1 < 10 then more - 1 else 10;
    Pow2Grows(low, high);
    assert Pow2(5) == 32 && Pow2(6) == 64;
    if fewer >= 7 {
      Pow2Grows(6, low);
    } else {
      Pow2Grows(low, 5);
      assert Pow2(fewer) == 2 * Pow2(fewer - 1);
    }
  }

  // ---------------------------------------------------------------------------------------------
  // Loading.

  predicate PendingMatchesDigest(hash: Hash, p: PendingVector) {
    VectorDigest(hash, p.uids, p.weights, p.hotkeys, p.provenance, p.registrationIds) == Ok(p.digest)
  }

  predicate RetryMetadataValid(p: PendingVector) {
    p.attempts >= 0 && p.nextRetryAtMs >= 0
  }

  predicate ClassCheckpointsValid(cs: map<ClassId, SourceCheckpoint>) {
    forall c :: c in cs ==> c != "" && IsDigest(cs[c].id)
  }

  predicate RegistrationCheckpointsValid(cs: map<ClassId, RegistrationCheckpoint>) {
    forall c :: c in cs ==> c != "" && cs[c].owner != "" && cs[c].delegate != "" && IsDigest(cs[c].id)
  }

  /** Everything checked of a state whose configuration is accepted. */
  predicate Loadable(hash: Hash, s: State) {
    && s.schema == STATE_SCHEMA
    && |s.masterSecret| == 32
    && (s.pending.Some? ==> PendingMatchesDigest(hash, s.pending.value) && RetryMetadataValid(s.pending.value))
    && ClassCheckpointsValid(s.classCheckpoints)
    && RegistrationCheckpointsValid(s.registrationCheckpoints)
    && NonNegative(s.ema)
  }

  function FreshState(fingerprint: string, secret: seq<Byte>): State {
    State(STATE_SCHEMA, fingerprint, secret, -1, map[], None, None, None, map[], map[])
  }

  /** Accepting a changed configuration forgets rounds, averages and confirmations, and keeps checkpoints. */
  function Reconfigured(s: State, fingerprint: string): State {
    s.(fingerprint := fingerprint, lastCompletedRound := -1, ema := map[], confirmedVector := None,
       confirmedDecision := None)
  }

  datatype Loaded = Loaded(result: Result<State, StateError>, saves: seq<State>)

  function Checked(hash: Hash, s: State): Result<State, StateError> {
    if s.pending.Some? && !PendingMatchesDigest(hash, s.pending.value) then Err(DigestMismatch)
    else if s.pending.Some? && !RetryMetadataValid(s.pending.value) then Err(BadRetryMetadata)
    else if !ClassCheckpointsValid(s.classCheckpoints) then Err(BadClassCheckpoint)
    else if !RegistrationCheckpointsValid(s.registrationCheckpoints) then Err(BadRegistrationCheckpoint)
    else if !NonNegative(s.ema) then Err(BadEma)
    else Ok(s)
  }

  function LoadOrCreate(hash: Hash, disk: Option<State>, fingerprint: string, allowChange: bool,
                        secret: seq<Byte>): Loaded
  {
    match disk
    case None => var s := FreshState(fingerprint, secret); Loaded(Ok(s), [s])
    case Some(s) =>
      if s.schema != STATE_SCHEMA then Loaded(Err(UnsupportedSchema), [])
      else if |s.masterSecret| != 32 then Loaded(Err(BadMasterSecret), [])
      else if s.fingerprint == fingerprint then Loaded(Checked(hash, s), [])
      else if !allowChange then Loaded(Err(ConfigChanged), [])
      else if s.pending.Some? then Loaded(Err(ConfigChangeWithPending), [])
      else var t := Reconfigured(s, fingerprint); Loaded(Checked(hash, t), [t])
  }

  /** A file is loaded exactly when its schema is known, its secret has 32 bytes, its configuration is ours
      or may be changed with no vector pending, its pending vector hashes to its digest with retry data that
      is not negative, its checkpoints have names and digests, and its averages, unless forgotten with the
      configuration, are not negative. With no file a new state is made and saved. */
  lemma LoadedExactly(hash: Hash, disk: Option<State>, fingerprint: string, allowChange: bool, secret: seq<Byte>)
    ensures var loaded := LoadOrCreate(hash, disk, fingerprint, allowChange, secret);
            match disk
            case None =>
              var s := State(5, fingerprint, secret, -1, map[], None, None, None, map[], map[]);
              loaded.result == Ok(s) && loaded.saves == [s]
            case Some(s) =>
              var readable := s.schema == 5 && |s.masterSecret| == 32;
              var changed := s.fingerprint != fingerprint;
              var t := State(5, fingerprint, s.masterSecret, -1, map[], s.pending, None, None, s.classCheckpoints,
                             s.registrationCheckpoints);
              && (loaded.result.Ok? <==>
                  && readable && (changed ==> allowChange && s.pending.None?)
                  && (s.pending.Some? ==>
                        var p := s.pending.value;
                        && VectorDigest(hash, p.uids, p.weights, p.hotkeys, p.provenance, p.registrationIds)
                           == Ok(p.digest)
                        && p.attempts >= 0 && p.nextRetryAtMs >= 0)
                  && (forall c :: c in s.classCheckpoints ==> c != "" && IsDigest(s.classCheckpoints[c].id))
                  && (forall c :: c in s.registrationCheckpoints ==>
                        var r := s.registrationCheckpoints[c];
                        c != "" && r.owner != "" && r.delegate != "" && IsDigest(r.id))
                  && (!changed ==> forall h :: h in s.ema ==> s.ema[h] >= 0.0))
              && (loaded.result.Ok? ==> loaded.result.value == if changed then t else s)
              && loaded.saves == (if readable && changed && allowChange && s.pending.None? then [t] else [])
  {
  }

  lemma Round12IsNearest(w: real)
    ensures var error := w * 1_000_000_000_000.0 - Round12(w) as real;
            -0.5 <= error <= 0.5 && (error == 0.5 || error == -0.5 ==> Round12(w) % 2 == 0)
  {
  }

  /** A vector has a digest exactly when its lists are of one positive length, its UIDs are distinct and not
      negative, its weights are not negative, its hotkeys are named, and its provenance and bindings are
      digests; the digest is then the hash over all of these, UID by UID. */
  lemma DigestedExactly(hash: Hash, uids: seq<int>, weights: seq<real>, hotkeys: seq<Hotkey>,
                        provenance: Option<Digest>, registrationIds: map<ClassId, Digest>)
    ensures var r := VectorDigest(hash, uids, weights, hotkeys, provenance, registrationIds);
            && (r.Ok? <==>
                && 0 < |uids| == |weights| == |hotkeys|
                && (forall i :: 0 <= i < |uids| ==> uids[i] >= 0 && weights[i] >= 0.0 && hotkeys[i] != "")
                && (forall i, j :: 0 <= i < |uids| && 0 <= j < |uids| && uids[i] == uids[j] ==> i == j)
                && (provenance.Some? ==> IsDigest(provenance.value))
                && (forall c :: c in registrationIds ==> c != "" && IsDigest(registrationIds[c])))
            && (r.Ok? ==> exists pairs :: r.value == hash(VectorBody(pairs, provenance, registrationIds))
                                          && |pairs| == |uids|
                                          && forall i :: 0 <= i < |uids| ==>
                                               pairs[i] == (uids[i], hotkeys[i], Round12(weights[i])))
  {
    var r := VectorDigest(hash, uids, weights, hotkeys, provenance, registrationIds);
    if r.Ok? {
      var pairs := Pairs(uids, weights, hotkeys);
      assert r.value == hash(VectorBody(pairs, provenance, registrationIds));
    }
  }

  predicate HexSpace(c: char) {
    c == ' ' || c == '\t' || c == '\n' || c == '\r' || c == '\U{0B}' || c == '\U{0C}'
  }

  lemma {:induction false} HexDigitsInPairs(s: string)
    requires forall i :: 0 <= i < |s| ==> !HexSpace(s[i])
    ensures FromHexAccepts(s) <==>
              |s| % 2 == 0 && forall i :: 0 <= i < |s| ==>
                                '0' <= s[i] <= '9' || 'a' <= s[i] <= 'f' || 'A' <= s[i] <= 'F'
  {
    if |s| >= 2 {
      HexDigitsInPairs(s[2..]);
      assert s == [s[0], s[1]] + s[2..];
      if FromHexAccepts(s) {
        forall i | 0 <= i < |s|
          ensures '0' <= s[i] <= '9' || 'a' <= s[i] <= 'f' || 'A' <= s[i] <= 'F'
        {
          assert i >= 2 ==> s[2..][i - 2] == s[i];
        }
      }
    }
  }

  /** White space stands only between accepted pieces, so with the law above it stands between pairs. */
  lemma {:induction false} SpacesBetweenPairs(a: string, space: char, b: string)
    requires HexSpace(space)
    ensures FromHexAccepts(a + [space] + b) <==> FromHexAccepts(a) && FromHexAccepts(b)
  {
    var whole := a + [space] + b;
    if a == "" {
      assert whole == [space] + b && whole[1..] == b;
    } else if HexSpace(a[0]) {
      assert whole[1..] == a[1..] + [space] + b;
      SpacesBetweenPairs(a[1..], space, b);
    } else if |a| == 1 {
      assert whole[1] == space;
    } else {
      assert whole[2..] == a[2..] + [space] + b && whole[1] == a[1];
      SpacesBetweenPairs(a[2..], space, b);
    }
  }

  /** The digests the program itself makes, `sha256:` and 64 hex digits, are accepted. */
  lemma HexDigestAccepted(s: Digest)
    requires forall i :: 0 <= i < |s| ==> !HexSpace(s[i])
    ensures IsDigest(s) <==>
              && |s| == 71 && s[..7] == "sha256:"
              && forall i :: 7 <= i < 71 ==> '0' <= s[i] <= '9' || 'a' <= s[i] <= 'f' || 'A' <= s[i] <= 'F'
  {
    if |s| == 71 {
      HexDigitsInPairs(s[7..]);
      assert forall i :: 7 <= i < 71 ==> s[7..][i - 7] == s[i];
    }
  }

  /** A loadable state reloads equal under its own configuration, without writing. */
  lemma LoadableReloads(hash: Hash, s: State, allowChange: bool, secret: seq<Byte>)
    ensures Loadable(hash, s) <==> LoadOrCreate(hash, Some(s), s.fingerprint, allowChange, secret) == Loaded(Ok(s), [])
  {
  }

  // ---------------------------------------------------------------------------------------------
  // The mutable state object and its three operations.

  class ValidatorState {
    var value: State

    constructor (s: State)
      ensures value == s
    {
      value := s;
    }

    /** On any error the state is left as it was. */
    method MarkPending(hash: Hash, uids: seq<int>, weights: seq<real>, hotkeys: seq<Hotkey>, provenance: Option<Digest>,
                       registrationIds: map<ClassId, Digest>) returns (r: Result<PendingVector, StateError>)
      modifies this
      ensures match VectorDigest(hash, uids, weights, hotkeys, provenance, registrationIds)
              case Err(e) => r == Err(e) && value == old(value)
              case Ok(d) =>
                var p := PendingVector(d, uids, weights, hotkeys, provenance, registrationIds, 0, 0, false);
                r == Ok(p) && value == old(value).(pending := Some(p)) && PendingMatchesDigest(hash, p)
    {
      var digest := VectorDigest(hash, uids, weights, hotkeys, provenance, registrationIds);
      if digest.Err? {
        return Err(digest.error);
      }
      var p := NewPending(digest.value, uids, weights, hotkeys, provenance, registrationIds);
      value := value.(pending := Some(p));
      return Ok(p);
    }

    method NoteSubmissionFailure(nowMs: int, ambiguous: bool) returns (r: Result<(), StateError>)
      modifies this
      ensures old(value).pending.None? ==> r == Err(NothingPending) && value == old(value)
      ensures old(value).pending.Some? ==>
                r.Ok? && value == old(value).(pending := Some(FailedOnce(old(value).pending.value, nowMs, ambiguous)))
      ensures old(value).pending.Some? ==>
                var p, q := old(value).pending.value, value.pending.value;
                && q.attempts == p.attempts + 1 && q.ambiguous == ambiguous
                && q.nextRetryAtMs == nowMs + DelayMs(p.attempts + 1)
                && q == p.(attempts := q.attempts, ambiguous := q.ambiguous, nextRetryAtMs := q.nextRetryAtMs)
    {
      if value.pending.None? {
        return Err(NothingPending);
      }
      var p := value.pending.value;
      p := p.(attempts := p.attempts + 1);
      p := p.(ambiguous := ambiguous);
      p := p.(nextRetryAtMs := nowMs + DelayMs(p.attempts));
      value := value.(pending := Some(p));
      return Ok(());
    }

    method NoteSubmissionSuccess() returns (r: Result<(), StateError>)
      modifies this
      ensures old(value).pending.None? ==> r == Err(NothingPending) && value == old(value)
      ensures old(value).pending.Some? ==> r.Ok? && value == Confirmed(old(value))
      ensures old(value).pending.Some? ==>
                && value.pending.None? && value.confirmedVector == Some(old(value).pending.value.digest)
                && value.confirmedDecision == old(value).pending.value.provenance
                && value == old(value).(pending := None, confirmedVector := value.confirmedVector,
                                        confirmedDecision := value.confirmedDecision)
    {
      if value.pending.None? {
        return Err(NothingPending);
      }
      var p := value.pending.value;
      value := value.(confirmedVector := Some(p.digest));
      value := value.(confirmedDecision := p.provenance);
      value := value.(pending := None);
      return Ok(());
    }
  }
}
