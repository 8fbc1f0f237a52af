/** One validator tick (`cathedral_thin/validator.py`): submitting a pending vector, or starting a round.

    `Tick` and `Submit` say what a tick does to the state in memory and which effects it has on the world,
    in order: state files written and vectors sent. `ValidatorRunner` is the object that does it. Scheduling
    is sequential, and a round's composed vector is an arbitrary input, since the chain library may replace
    it. */
module Validator {
  import opened Prelude
  import opened Checkpoints
  import opened Collapse
  import opened Metagraphs
  import opened SubmissionState

  // ---------------------------------------------------------------------------------------------
  // What a tick reads from the outside.

  datatype Fetched<+T> = Got(value: T) | RpcFailed

  datatype OwnerRead = Owner(coldkey: Coldkey) | NoOwner | OwnerRpcFailed

  /** The shapes a weight submission may answer with. */
  datatype Response =
    | Bool(flag: bool)
    | Tuple(first: Option<bool>)
    | Nothing
    | Object(isSuccess: Option<bool>, success: Option<bool>, receiptField: Option<ReceiptField>, ambiguousField: bool)

  /** Present only on responses of a modern library. */
  datatype ReceiptField = ReceiptField(hasReceipt: bool, hasError: bool, hasExtrinsic: bool)

  datatype Reply = Raised | Replied(response: Response)

  function ResponseSucceeded(r: Response): bool {
    match r
    case Bool(b) => b
    case Tuple(first) => first.GetOr(false)
    case Nothing => false
    case Object(isSuccess, success, _, _) => if isSuccess.Some? then isSuccess.value else success.GetOr(false)
  }

  function FailureIsAmbiguous(r: Response): bool {
    match r
    case Nothing => true
    case Object(_, _, Some(f), _) => !f.hasReceipt && (f.hasError || f.hasExtrinsic)
    case Object(_, _, None, ambiguous) => ambiguous
    case _ => false
  }

  predicate Succeeded(reply: Reply) {
    reply.Replied? && ResponseSucceeded(reply.response)
  }

  datatype Vector = Vector(uids: seq<int>, weights: seq<real>)

  datatype TickInput = TickInput(
    nowMs: nat,
    metagraph: Fetched<Metagraph>,
    block: Fetched<nat>,
    owners: map<int, OwnerRead>,
    registrations: map<ClassId, seq<Option<Registration>>>,
    reports: map<ClassId, seq<Option<Report>>>,
    observations: Scores,
    vector: Option<Vector>,
    decisionDigest: Digest,
    reply: Reply)

  datatype ExternalClass = ExternalClass(id: ClassId, sourceNetuid: Option<int>)

  datatype Config = Config(
    fingerprint: string, roundBlocks: nat, alpha: real, hasLocal: bool, hasBurn: bool, externals: seq<ExternalClass>)

  datatype Mode = Mode(broadcast: bool, retryAmbiguous: bool)

  /** What a tick does that outlives the process. `retry` is the process's explicit retry flag. */
  datatype Effect =
    | Saved(state: State, retry: bool)
    | Sent(vector: PendingVector, peers: seq<Peer>, current: Option<map<ClassId, Digest>>, nowMs: nat, retry: bool,
           reply: Reply)

  // ---------------------------------------------------------------------------------------------
  // Owner registrations.

  datatype LoadFailure = AuthorityChanged | DelegateDeregistered | Unavailable | OtherException

  type Registrations = map<ClassId, (Registration, RegistrationCheckpoint)>

  function OwnerOf(owners: map<int, OwnerRead>, netuid: int): OwnerRead {
    if netuid in owners then owners[netuid] else OwnerRpcFailed
  }

  /** All owners are read before any class is loaded. */
  function ReadOwners(classes: seq<ExternalClass>, owners: map<int, OwnerRead>): Option<LoadFailure> {
    if classes == [] then None
    else
      var front, last := ReadOwners(classes[..|classes| - 1], owners), classes[|classes| - 1];
      if front.Some? || last.sourceNetuid.None? then front
      else
        match OwnerOf(owners, last.sourceNetuid.value)
        case Owner(_) => None
        case NoOwner => Some(Unavailable)
        case OwnerRpcFailed => Some(OtherException)
  }

  function LookUp<T>(m: map<ClassId, T>, id: ClassId): Option<T> {
    if id in m then Some(m[id]) else None
  }

  function Mirrors<T>(m: map<ClassId, seq<Option<T>>>, id: ClassId): seq<Option<T>> {
    if id in m then m[id] else []
  }

  /** Why a class's accepted authority is no longer in force, if it is not. */
  function AuthorityLost(c: ExternalClass, peers: seq<Peer>, input: TickInput,
                         checkpoints: map<ClassId, RegistrationCheckpoint>): Option<LoadFailure>
  {
    if c.sourceNetuid.None? || c.id !in checkpoints then None
    else
      var (owner, checkpoint) := (OwnerOf(input.owners, c.sourceNetuid.value), checkpoints[c.id]);
      if owner != Owner(checkpoint.owner) then Some(AuthorityChanged)
      else if LookUp(ColdkeyOf(peers), checkpoint.delegate) != Some(checkpoint.owner) then Some(DelegateDeregistered)
      else None
  }

  /** The first class, in the policy's order, whose authority is lost. Every class is tested before the mirrors
      of any have answered. */
  function FirstAuthorityLost(classes: seq<ExternalClass>, peers: seq<Peer>, input: TickInput,
                              checkpoints: map<ClassId, RegistrationCheckpoint>): Option<LoadFailure>
  {
    if classes == [] then None
    else
      var lost := AuthorityLost(classes[0], peers, input, checkpoints);
      if lost.Some? then lost else FirstAuthorityLost(classes[1..], peers, input, checkpoints)
  }

  function LoadClass(id: ClassId, owner: Coldkey, mirrors: seq<Option<Registration>>, peers: seq<Peer>,
                     checkpoint: Option<RegistrationCheckpoint>)
    : Result<(Registration, RegistrationCheckpoint), LoadFailure>
  {
    match LoadRegistration(Load(mirrors, owner, ColdkeyOf(peers)), checkpoint)
    case Err(_) => Err(Unavailable)
    case Ok(pair) => Ok(pair)
  }

  function LoadClasses(classes: seq<ExternalClass>, peers: seq<Peer>, input: TickInput,
                       checkpoints: map<ClassId, RegistrationCheckpoint>): Result<Registrations, LoadFailure>
  {
    if classes == [] then Ok(map[])
    else
      var last := classes[|classes| - 1];
      match LoadClasses(classes[..|classes| - 1], peers, input, checkpoints)
      case Err(e) => Err(e)
      case Ok(front) =>
        if last.sourceNetuid.None? then Ok(front)
        else
          match OwnerOf(input.owners, last.sourceNetuid.value)
          case Owner(owner) =>
            (match LoadClass(last.id, owner, Mirrors(input.registrations, last.id), peers, LookUp(checkpoints, last.id))
             case Err(e) => Err(e)
             case Ok(pair) => Ok(front[last.id := pair]))
          case NoOwner => Err(Unavailable)
          case OwnerRpcFailed => Err(OtherException)
  }

  function LoadOwnerRegistrations(cfg: Config, peers: seq<Peer>, input: TickInput,
                                  checkpoints: map<ClassId, RegistrationCheckpoint>, requireSame: bool)
    : Result<Registrations, LoadFailure>
  {
    match ReadOwners(cfg.externals, input.owners)
    case Some(e) => Err(e)
    case None =>
      var lost := if requireSame then FirstAuthorityLost(cfg.externals, peers, input, checkpoints) else None;
      if lost.Some? then Err(lost.value) else LoadClasses(cfg.externals, peers, input, checkpoints)
  }

  function RegistrationIds(regs: Registrations): map<ClassId, Digest> {
    map c | c in regs :: regs[c].0.id
  }

  // ---------------------------------------------------------------------------------------------
  // Submitting the pending vector.

  datatype Step = Step(state: State, effects: seq<Effect>)

  /** Every UID still belongs to the hotkey recorded for it. */
  predicate OwnersMatch(p: PendingVector, peers: seq<Peer>) {
    forall i :: 0 <= i < |p.uids| && i < |p.hotkeys| ==> LookUpUid(peers, p.uids[i]) == Some(p.hotkeys[i])
  }

  function LookUpUid(peers: seq<Peer>, uid: int): Option<Hotkey> {
    if uid in HotkeyByUid(peers) then Some(HotkeyByUid(peers)[uid]) else None
  }

  function Fail(st: State, nowMs: int, ambiguous: bool, retry: bool): Step
    requires st.pending.Some?
  {
    var t := st.(pending := Some(FailedOnce(st.pending.value, nowMs, ambiguous)));
    Step(t, [Saved(t, retry)])
  }

  function Cancel(st: State, retry: bool): Step {
    var t := st.(pending := None);
    Step(t, [Saved(t, retry)])
  }

  function Send(st: State, peers: seq<Peer>, current: Option<map<ClassId, Digest>>, input: TickInput, retry: bool): Step
    requires st.pending.Some?
  {
    var sent := Sent(st.pending.value, peers, current, input.nowMs, retry, input.reply);
    match input.reply
    case Raised =>
      var after := Fail(st, input.nowMs, true, retry);
      Step(after.state, [sent] + after.effects)
    case Replied(response) =>
      if ResponseSucceeded(response) then Step(Confirmed(st), [sent, Saved(Confirmed(st), retry)])
      else
        var after := Fail(st, input.nowMs, FailureIsAmbiguous(response), retry);
        Step(after.state, [sent] + after.effects)
  }

  predicate WasConfirmed(step: Step) {
    step.effects != [] && step.effects[0].Sent? && Succeeded(step.effects[0].reply)
  }

  datatype Refresh = Ids(ids: map<ClassId, Digest>) | Revoked | Held | Escaped

  /** The registrations in force: those the round just loaded, or a fresh read that also requires the
      authority of the accepted checkpoints to be unchanged. */
  function RefreshIds(st: State, cfg: Config, peers: seq<Peer>, given: Option<map<ClassId, Digest>>,
                      input: TickInput): Refresh
  {
    if given.Some? then Ids(given.value)
    else if input.block.RpcFailed? then Escaped
    else
      match LoadOwnerRegistrations(cfg, peers, input, st.registrationCheckpoints, true)
      case Ok(regs) => Ids(RegistrationIds(regs))
      case Err(AuthorityChanged) => Revoked
      case Err(DelegateDeregistered) => Revoked
      case Err(Unavailable) => Held
      case Err(OtherException) => Escaped
  }

  lemma {:induction false} LoadingKeepsAuthority(classes: seq<ExternalClass>, peers: seq<Peer>, input: TickInput,
                                                checkpoints: map<ClassId, RegistrationCheckpoint>)
    ensures var loaded := LoadClasses(classes, peers, input, checkpoints);
            loaded.Err? ==> loaded.error in {Unavailable, OtherException}
  {
    if classes != [] {
      LoadingKeepsAuthority(classes[..|classes| - 1], peers, input, checkpoints);
    }
  }

  lemma {:induction false} AnyAuthorityLost(classes: seq<ExternalClass>, peers: seq<Peer>, input: TickInput,
                                           checkpoints: map<ClassId, RegistrationCheckpoint>)
    ensures var lost := FirstAuthorityLost(classes, peers, input, checkpoints);
            && (lost.Some? ==> lost.value in {AuthorityChanged, DelegateDeregistered})
            && (lost.Some? <==>
                  exists i :: 0 <= i < |classes| && AuthorityLost(classes[i], peers, input, checkpoints).Some?)
  {
    if classes != [] {
      AnyAuthorityLost(classes[1..], peers, input, checkpoints);
      if exists i :: 0 <= i < |classes| && AuthorityLost(classes[i], peers, input, checkpoints).Some? {
        var i :| 0 <= i < |classes| && AuthorityLost(classes[i], peers, input, checkpoints).Some?;
        assert i > 0 ==> classes[1..][i - 1] == classes[i];
      }
    }
  }

  /** A fresh read revokes a pending vector exactly when every owner could be read and the accepted authority of
      some class is lost, whatever the mirrors of that or any other class serve. */
  lemma RevokedExactlyWhenAuthorityLost(st: State, cfg: Config, peers: seq<Peer>, input: TickInput)
    ensures RefreshIds(st, cfg, peers, None, input) == Revoked <==>
              && input.block.Got? && ReadOwners(cfg.externals, input.owners).None?
              && exists i :: 0 <= i < |cfg.externals|
                   && AuthorityLost(cfg.externals[i], peers, input, st.registrationCheckpoints).Some?
  {
    LoadingKeepsAuthority(cfg.externals, peers, input, st.registrationCheckpoints);
    AnyAuthorityLost(cfg.externals, peers, input, st.registrationCheckpoints);
    OwnersReadFail(cfg.externals, input.owners);
  }

  lemma {:induction false} OwnersReadFail(classes: seq<ExternalClass>, owners: map<int, OwnerRead>)
    ensures var failed := ReadOwners(classes, owners); failed.Some? ==> failed.value in {Unavailable, OtherException}
  {
    if classes != [] {
      OwnersReadFail(classes[..|classes| - 1], owners);
    }
  }

  function Peers(given: Option<Metagraph>, input: TickInput): Option<seq<Peer>> {
    if given.Some? then SnapshotPeers(given.value)
    else if input.metagraph.RpcFailed? then None
    else SnapshotPeers(input.metagraph.value)
  }

  function Submit(st: State, cfg: Config, mode: Mode, given: Option<Metagraph>, givenIds: Option<map<ClassId, Digest>>,
                  input: TickInput): Step
  {
    if st.pending.None? then Step(st, [])
    else
      var p := st.pending.value;
      if p.ambiguous && !mode.retryAmbiguous then Step(st, [])
      else if p.nextRetryAtMs > input.nowMs then Step(st, [])
      else if !mode.broadcast then Step(st, [])
      else
        match Peers(given, input)
        case None => Fail(st, input.nowMs, p.ambiguous, mode.retryAmbiguous)
        case Some(peers) => SubmitTo(st, cfg, mode, peers, givenIds, input)
  }

  /** The identity and authority checks, and then the submission itself. */
  function SubmitTo(st: State, cfg: Config, mode: Mode, peers: seq<Peer>, givenIds: Option<map<ClassId, Digest>>,
                    input: TickInput): Step
    requires st.pending.Some?
  {
    var p := st.pending.value;
    if !OwnersMatch(p, peers) then Cancel(st, mode.retryAmbiguous)
    else if p.registrationIds == map[] then Send(st, peers, None, input, mode.retryAmbiguous)
    else
      match RefreshIds(st, cfg, peers, givenIds, input)
      case Ids(ids) =>
        if ids != p.registrationIds then Cancel(st, mode.retryAmbiguous)
        else Send(st, peers, Some(ids), input, mode.retryAmbiguous)
      case Revoked => Cancel(st, mode.retryAmbiguous)
      case Held => Fail(st, input.nowMs, p.ambiguous, mode.retryAmbiguous)
      case Escaped => Step(st, [])
  }

  // ---------------------------------------------------------------------------------------------
  // Starting a round.

  datatype Advanced = Advanced(classes: map<ClassId, SourceCheckpoint>,
                               registrations: map<ClassId, RegistrationCheckpoint>)

  /** Each external class is loaded against the checkpoint of the round's start. A class that fails
      keeps its checkpoints when there is a burn destination, and stops the round when there is none. */
  function Advance(classes: seq<ExternalClass>, st: State, hasBurn: bool, regs: Registrations,
                   input: TickInput): Option<Advanced>
  {
    if classes == [] then Some(Advanced(st.classCheckpoints, st.registrationCheckpoints))
    else
      match Advance(classes[..|classes| - 1], st, hasBurn, regs, input)
      case None => None
      case Some(front) => AdvanceClass(front, classes[|classes| - 1], st, hasBurn, regs, input)
  }

  function AdvanceClass(front: Advanced, c: ExternalClass, st: State, hasBurn: bool, regs: Registrations,
                        input: TickInput)
    : Option<Advanced>
  {
    var skipped := if hasBurn then Some(front) else None;
    if c.sourceNetuid.Some? && c.id !in regs then skipped
    else
      match LoadBest(Mirrors(input.reports, c.id), LookUp(st.classCheckpoints, c.id))
      case Err(_) => skipped
      case Ok((_, checkpoint)) =>
        Some(Advanced(
          front.classes[c.id := checkpoint],
          if c.sourceNetuid.Some? then front.registrations[c.id := regs[c.id].1] else front.registrations))
  }

  /** An unavailable owner authorization counts as no registrations when there is a burn destination. */
  function RoundRegistrations(cfg: Config, peers: seq<Peer>, input: TickInput, st: State): Option<Registrations> {
    match LoadOwnerRegistrations(cfg, peers, input, st.registrationCheckpoints, false)
    case Ok(regs) => Some(regs)
    case Err(OtherException) => None
    case Err(_) => if cfg.hasBurn then Some(map[]) else None
  }

  function Hotkeys(peers: seq<Peer>): set<Hotkey> {
    set i | 0 <= i < |peers| :: peers[i].hotkey
  }

  /** The averages of a round without raising, or `None`. */
  function RoundEma(cfg: Config, peers: seq<Peer>, input: TickInput, st: State): Option<Scores> {
    if !cfg.hasLocal then Some(st.ema)
    else if EmaAccepts(st.ema, input.observations, Hotkeys(peers), cfg.alpha) then
      Some(Ema(st.ema, input.observations, Hotkeys(peers), cfg.alpha))
    else None
  }

  function HotkeysFor(uids: seq<int>, peers: seq<Peer>): Option<seq<Hotkey>> {
    if exists i :: 0 <= i < |uids| && uids[i] !in HotkeyByUid(peers) then None
    else Some(seq(|uids|, i requires 0 <= i < |uids| && uids[i] in HotkeyByUid(peers) => HotkeyByUid(peers)[uids[i]]))
  }

  datatype Outcome = Outcome(state: State, effects: seq<Effect>, lastDryRun: Option<int>)

  /** The state in memory once a broadcasting round has been evaluated, before it is saved. */
  function Evaluated(st: State, ema: Scores, next: Advanced, round: int): State {
    st.(ema := ema, classCheckpoints := next.classes, registrationCheckpoints := next.registrations,
        lastCompletedRound := round)
  }

  /** The evaluated state with the round's vector marked pending, or `None` where marking it raises. */
  function Marked(hash: Hash, base: State, peers: seq<Peer>, regs: Registrations, vector: Vector,
                  input: TickInput): Option<State>
  {
    match HotkeysFor(vector.uids, peers)
    case None => None
    case Some(hotkeys) =>
      match VectorDigest(hash, vector.uids, vector.weights, hotkeys, Some(input.decisionDigest), RegistrationIds(regs))
      case Err(_) => None
      case Ok(d) =>
        var p := NewPending(d, vector.uids, vector.weights, hotkeys, Some(input.decisionDigest), RegistrationIds(regs));
        Some(base.(pending := Some(p)))
  }

  function SaveThenSubmit(t: State, cfg: Config, mode: Mode, m: Metagraph, ids: map<ClassId, Digest>,
                          input: TickInput): Step
  {
    var after := Submit(t, cfg, mode, Some(m), Some(ids), input);
    Step(after.state, [Saved(t, mode.retryAmbiguous)] + after.effects)
  }

  /** Marks the round's vector, saves it, and submits it. Raising in between leaves the evaluated state in
      memory, unsaved. */
  function Commit(hash: Hash, base: State, cfg: Config, mode: Mode, m: Metagraph, peers: seq<Peer>, regs: Registrations,
                  vector: Vector, input: TickInput): Step
  {
    if vector.uids == [] then Step(base, [Saved(base, mode.retryAmbiguous)])
    else
      match Marked(hash, base, peers, regs, vector, input)
      case None => Step(base, [])
      case Some(t) => SaveThenSubmit(t, cfg, mode, m, RegistrationIds(regs), input)
  }

  function StartRound(hash: Hash, st: State, cfg: Config, mode: Mode, lastDryRun: Option<int>,
                      input: TickInput): Outcome
    requires cfg.roundBlocks > 0
  {
    var idle := Outcome(st, [], lastDryRun);
    if input.metagraph.RpcFailed? then idle
    else
      match SnapshotPeers(input.metagraph.value)
      case None => idle
      case Some(peers) =>
        if input.block.RpcFailed? then idle
        else
          var round := input.block.value / cfg.roundBlocks;
          if !mode.broadcast && lastDryRun == Some(round) then idle
          else if round <= st.lastCompletedRound then idle
          else EvaluateRound(hash, st, cfg, mode, lastDryRun, input, peers, round)
  }

  function EvaluateRound(hash: Hash, st: State, cfg: Config, mode: Mode, lastDryRun: Option<int>, input: TickInput,
                         peers: seq<Peer>, round: int): Outcome
    requires input.metagraph.Got?
  {
    var idle := Outcome(st, [], lastDryRun);
    var ema, regs := RoundEma(cfg, peers, input, st), RoundRegistrations(cfg, peers, input, st);
    if ema.None? || regs.None? then idle
    else
      var next := Advance(cfg.externals, st, cfg.hasBurn, regs.value, input);
      if next.None? || input.vector.None? then idle
      else if !mode.broadcast then Outcome(st, [], Some(round))
      else
        var s := Commit(hash, Evaluated(st, ema.value, next.value, round), cfg, mode, input.metagraph.value, peers,
                        regs.value, input.vector.value, input);
        Outcome(s.state, s.effects, lastDryRun)
  }

  function Tick(hash: Hash, st: State, cfg: Config, mode: Mode, lastDryRun: Option<int>, input: TickInput): Outcome
    requires cfg.roundBlocks > 0
  {
    if st.pending.Some? then
      var s := Submit(st, cfg, mode, None, None, input);
      Outcome(s.state, s.effects, lastDryRun)
    else StartRound(hash, st, cfg, mode, lastDryRun, input)
  }

  // ---------------------------------------------------------------------------------------------
  // The objects.

  function DiskAfter(disk: Option<State>, effects: seq<Effect>): Option<State> {
    if effects == [] then disk
    else
      match effects[|effects| - 1]
      case Saved(s, _) => Some(s)
      case Sent(_, _, _, _, _, _) => DiskAfter(disk, effects[..|effects| - 1])
  }

  lemma {:induction false} DiskAfterConcat(disk: Option<State>, some: seq<Effect>, more: seq<Effect>)
    ensures DiskAfter(disk, some + more) == DiskAfter(DiskAfter(disk, some), more)
    decreases |more|
  {
    if more == [] {
      assert some + more == some;
    } else {
      DiskAfterConcat(disk, some, more[..|more| - 1]);
      assert (some + more)[..|some + more| - 1] == some + more[..|more| - 1];
    }
  }

  lemma OneThenMore(journal: seq<Effect>, disk: Option<State>, one: Effect, more: seq<Effect>)
    ensures journal + [one] + more == journal + ([one] + more)
    ensures DiskAfter(disk, [one] + more) == DiskAfter(DiskAfter(disk, [one]), more)
    ensures one.Saved? ==> DiskAfter(disk, [one]) == Some(one.state)
  {
    DiskAfterConcat(disk, [one], more);
  }

  /** The state file, replaced as a whole, and the record of everything that reached the outside. */
  class StateStore {
    var disk: Option<State>
    ghost var journal: seq<Effect>

    constructor (disk: Option<State>)
      ensures this.disk == disk && journal == []
    {
      this.disk := disk;
      journal := [];
    }

    method Save(s: State, retry: bool)
      modifies this
      ensures disk == Some(s) && journal == old(journal) + [Saved(s, retry)]
    {
      disk := Some(s);
      journal := journal + [Saved(s, retry)];
    }
  }

  class ValidatorRunner {
    const hash: Hash
    const cfg: Config
    const mode: Mode
    const state: ValidatorState
    const store: StateStore
    var lastDryRun: Option<int>

    constructor (hash: Hash, cfg: Config, mode: Mode, state: ValidatorState, store: StateStore)
      ensures this.hash == hash && this.cfg == cfg && this.mode == mode && this.state == state && this.store == store
      ensures lastDryRun == None
    {
      this.hash, this.cfg, this.mode, this.state, this.store := hash, cfg, mode, state, store;
      lastDryRun := None;
    }

    /** The memory, the file and the record after a step. */
    twostate predicate Did(step: Step)
      reads state, store
    {
      && state.value == step.state
      && store.journal == old(store.journal) + step.effects
      && store.disk == DiskAfter(old(store.disk), step.effects)
    }

    method SubmitPending(given: Option<Metagraph>, givenIds: Option<map<ClassId, Digest>>, input: TickInput)
        returns (done: bool)
      modifies state, store
      ensures Did(Submit(old(state.value), cfg, mode, given, givenIds, input))
      ensures done <==> old(state.value).pending.None?
                        || WasConfirmed(Submit(old(state.value), cfg, mode, given, givenIds, input))
    {
      if state.value.pending.None? {
        return true;
      }
      var pending := state.value.pending.value;
      if pending.ambiguous && !mode.retryAmbiguous {
        return false;
      }
      if pending.nextRetryAtMs > input.nowMs {
        return false;
      }
      if !mode.broadcast {
        return false;
      }
      var peers := Peers(given, input);
      if peers.None? {
        HoldPending(input.nowMs, pending.ambiguous);
        return false;
      }
      done := SubmitToPeers(peers.value, givenIds, input);
    }

    method SubmitToPeers(peers: seq<Peer>, givenIds: Option<map<ClassId, Digest>>, input: TickInput)
        returns (done: bool)
      requires state.value.pending.Some?
      modifies state, store
      ensures Did(SubmitTo(old(state.value), cfg, mode, peers, givenIds, input))
      ensures done <==> WasConfirmed(SubmitTo(old(state.value), cfg, mode, peers, givenIds, input))
    {
      var pending := state.value.pending.value;
      if !OwnersMatch(pending, peers) {
        CancelPending();
        return false;
      }
      var current: Option<map<ClassId, Digest>> := None;
      if pending.registrationIds != map[] {
        var refreshed := RefreshIds(state.value, cfg, peers, givenIds, input);
        if refreshed.Escaped? {
          return false;
        }
        if refreshed.Held? {
          HoldPending(input.nowMs, pending.ambiguous);
          return false;
        }
        if refreshed.Revoked? || refreshed.ids != pending.registrationIds {
          CancelPending();
          return false;
        }
        current := Some(refreshed.ids);
      }
      done := Transmit(peers, current, input);
    }

    method HoldPending(nowMs: int, ambiguous: bool)
      requires state.value.pending.Some?
      modifies state, store
      ensures Did(Fail(old(state.value), nowMs, ambiguous, mode.retryAmbiguous))
    {
      var _ := state.NoteSubmissionFailure(nowMs, ambiguous);
      store.Save(state.value, mode.retryAmbiguous);
    }

    method CancelPending()
      modifies state, store
      ensures Did(Cancel(old(state.value), mode.retryAmbiguous))
    {
      state.value := state.value.(pending := None);
      store.Save(state.value, mode.retryAmbiguous);
    }

    method Transmit(peers: seq<Peer>, current: Option<map<ClassId, Digest>>, input: TickInput) returns (done: bool)
      requires state.value.pending.Some?
      modifies state, store
      ensures Did(Send(old(state.value), peers, current, input, mode.retryAmbiguous))
      ensures done <==> Succeeded(input.reply)
    {
      store.journal := store.journal + [Sent(state.value.pending.value, peers, current, input.nowMs,
                                             mode.retryAmbiguous, input.reply)];
      match input.reply {
        case Raised =>
          HoldPending(input.nowMs, true);
          return false;
        case Replied(response) =>
          if ResponseSucceeded(response) {
            var _ := state.NoteSubmissionSuccess();
            store.Save(state.value, mode.retryAmbiguous);
            return true;
          }
          HoldPending(input.nowMs, FailureIsAmbiguous(response));
          return false;
      }
    }

    method AdvanceCheckpoints(regs: Registrations, input: TickInput) returns (next: Option<Advanced>)
      ensures next == Advance(cfg.externals, state.value, cfg.hasBurn, regs, input)
    {
      var front := Advanced(state.value.classCheckpoints, state.value.registrationCheckpoints);
      for i := 0 to |cfg.externals|
        invariant Some(front) == Advance(cfg.externals[..i], state.value, cfg.hasBurn, regs, input)
      {
        assert cfg.externals[..i + 1][..i] == cfg.externals[..i];
        var advanced := AdvanceOneClass(front, cfg.externals[i], regs, input);
        if advanced.None? {
          AdvanceStops(cfg.externals, i + 1, state.value, cfg.hasBurn, regs, input);
          return None;
        }
        front := advanced.value;
      }
      assert cfg.externals[..|cfg.externals|] == cfg.externals;
      return Some(front);
    }

    method AdvanceOneClass(front: Advanced, c: ExternalClass, regs: Registrations, input: TickInput)
        returns (next: Option<Advanced>)
      ensures next == AdvanceClass(front, c, state.value, cfg.hasBurn, regs, input)
    {
      if c.sourceNetuid.Some? && c.id !in regs {
        return if cfg.hasBurn then Some(front) else None;
      }
      var loaded := LoadBestReport(Mirrors(input.reports, c.id), LookUp(state.value.classCheckpoints, c.id));
      if loaded.Err? {
        return if cfg.hasBurn then Some(front) else None;
      }
      var classes := front.classes[c.id := loaded.value.1];
      var registrations := front.registrations;
      if c.sourceNetuid.Some? {
        registrations := registrations[c.id := regs[c.id].1];
      }
      return Some(Advanced(classes, registrations));
    }

    method RunTick(input: TickInput)
      requires cfg.roundBlocks > 0
      modifies this, state, store
      ensures var o := Tick(hash, old(state.value), cfg, mode, old(lastDryRun), input);
              Did(Step(o.state, o.effects)) && lastDryRun == o.lastDryRun
    {
      if state.value.pending.Some? {
        var _ := SubmitPending(None, None, input);
        return;
      }
      if input.metagraph.RpcFailed? {
        return;
      }
      var peers := SnapshotPeers(input.metagraph.value);
      if peers.None? || input.block.RpcFailed? {
        return;
      }
      var round := input.block.value / cfg.roundBlocks;
      if !mode.broadcast && lastDryRun == Some(round) {
        return;
      }
      if round <= state.value.lastCompletedRound {
        return;
      }
      Evaluate(input, peers.value, round);
    }

    method Evaluate(input: TickInput, peers: seq<Peer>, round: int)
      requires input.metagraph.Got?
      modifies this, state, store
      ensures var o := EvaluateRound(hash, old(state.value), cfg, mode, old(lastDryRun), input, peers, round);
              Did(Step(o.state, o.effects)) && lastDryRun == o.lastDryRun
    {
      var ema := Some(state.value.ema);
      if cfg.hasLocal {
        var updated := UpdateEma(state.value.ema, input.observations, Hotkeys(peers), cfg.alpha);
        ema := if updated.Ok? then Some(updated.value) else None;
      }
      var regs := RoundRegistrations(cfg, peers, input, state.value);
      if ema.None? || regs.None? {
        return;
      }
      var next := AdvanceCheckpoints(regs.value, input);
      if next.None? || input.vector.None? {
        return;
      }
      if !mode.broadcast {
        lastDryRun := Some(round);
        return;
      }
      state.value := state.value.(ema := ema.value);
      state.value := state.value.(classCheckpoints := next.value.classes);
      state.value := state.value.(registrationCheckpoints := next.value.registrations);
      state.value := state.value.(lastCompletedRound := round);
      MarkAndSubmit(input, peers, regs.value, input.vector.value);
    }

    method MarkAndSubmit(input: TickInput, peers: seq<Peer>, regs: Registrations, vector: Vector)
      requires input.metagraph.Got?
      modifies state, store
      ensures Did(Commit(hash, old(state.value), cfg, mode, input.metagraph.value, peers, regs, vector, input))
    {
      if vector.uids == [] {
        store.Save(state.value, mode.retryAmbiguous);
        return;
      }
      var hotkeys := HotkeysFor(vector.uids, peers);
      if hotkeys.None? {
        return;
      }
      var marked := state.MarkPending(hash, vector.uids, vector.weights, hotkeys.value, Some(input.decisionDigest),
                                      RegistrationIds(regs));
      if marked.Err? {
        return;
      }
      SaveAndSubmit(input.metagraph.value, RegistrationIds(regs), input);
    }

    method SaveAndSubmit(m: Metagraph, ids: map<ClassId, Digest>, input: TickInput)
      modifies state, store
      ensures Did(SaveThenSubmit(old(state.value), cfg, mode, m, ids, input))
    {
      ghost var saved := Saved(state.value, mode.retryAmbiguous);
      ghost var after := Submit(state.value, cfg, mode, Some(m), Some(ids), input);
      store.Save(state.value, mode.retryAmbiguous);
      var _ := SubmitPending(Some(m), Some(ids), input);
      OneThenMore(old(store.journal), old(store.disk), saved, after.effects);
    }
  }

  lemma {:induction false} AdvanceStops(classes: seq<ExternalClass>, k: nat, st: State, hasBurn: bool,
                                        regs: Registrations, input: TickInput)
    requires k <= |classes| && Advance(classes[..k], st, hasBurn, regs, input).None?
    ensures Advance(classes, st, hasBurn, regs, input).None?
    decreases |classes|
  {
    if k == |classes| {
      assert classes[..k] == classes;
    } else {
      var front := classes[..|classes| - 1];
      assert front[..k] == classes[..k];
      AdvanceStops(front, k, st, hasBurn, regs, input);
    }
  }
}
