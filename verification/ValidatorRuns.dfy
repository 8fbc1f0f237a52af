/** Runs of the validator: ticks, crashes at any point, restarts and accepted configuration changes, under
    arbitrary chain reads and replies.

    What a run has done to the outside is one log of effects. Every safety property is read off a predicate
    on logs, `LogOk`, that all runs keep. */
module ValidatorRuns {
  import opened Prelude
  import opened Checkpoints
  import opened Collapse
  import opened Metagraphs
  import opened SubmissionState
  import opened Validator
  import opened ValidatorPaths

  // ---------------------------------------------------------------------------------------------
  // Worlds and events.

  datatype Process = Down | Up(memory: State, cfg: Config, mode: Mode, lastDryRun: Option<int>)

  datatype World = World(log: seq<Effect>, process: Process)

  datatype Event =
    | Start(cfg: Config, mode: Mode, allowChange: bool, secret: seq<Byte>)
    | FullTick(input: TickInput)
    | CrashedTick(input: TickInput, done: nat)
    | Kill

  /** The state file after a log of effects. */
  function Disk(log: seq<Effect>): Option<State> {
    DiskAfter(None, log)
  }

  function SavedAs(states: seq<State>, retry: bool): seq<Effect> {
    seq(|states|, i requires 0 <= i < |states| => Saved(states[i], retry))
  }

  /** A crashed tick does the first `done` of its effects and loses the memory. */
  function Crashed(log: seq<Effect>, o: Outcome, done: nat): World {
    World(log + o.effects[..if done < |o.effects| then done else |o.effects|], Down)
  }

  function Next(hash: Hash, w: World, e: Event): World {
    match (w.process, e)
    case (Down, Start(cfg, mode, allowChange, secret)) =>
      var loaded := LoadOrCreate(hash, Disk(w.log), cfg.fingerprint, allowChange, secret);
      World(w.log + SavedAs(loaded.saves, mode.retryAmbiguous),
            if loaded.result.Ok? && cfg.roundBlocks > 0 then Up(loaded.result.value, cfg, mode, None) else Down)
    case (Up(memory, cfg, mode, lastDryRun), FullTick(input)) =>
      if cfg.roundBlocks == 0 then w
      else
        var o := Tick(hash, memory, cfg, mode, lastDryRun, input);
        World(w.log + o.effects, Up(o.state, cfg, mode, o.lastDryRun))
    case (Up(memory, cfg, mode, lastDryRun), CrashedTick(input, done)) =>
      if cfg.roundBlocks == 0 then w
      else
        Crashed(w.log, Tick(hash, memory, cfg, mode, lastDryRun, input), done)
    case (Up(_, _, _, _), Kill) => World(w.log, Down)
    case _ => w
  }

  function After(hash: Hash, events: seq<Event>): World {
    if events == [] then World([], Down)
    else Next(hash, After(hash, events[..|events| - 1]), events[|events| - 1])
  }

  /** Documents that verified have ids shaped like digests, agree with `body`, and name their parties. */
  predicate DocumentsSound(input: TickInput, body: ReportBody) {
    && (forall c :: c in input.reports ==> AllAgree(input.reports[c], body))
    && (forall c, i :: c in input.reports && 0 <= i < |input.reports[c]| && input.reports[c][i].Some? ==>
          IsDigest(input.reports[c][i].value.id))
    && (forall c, i ::
          c in input.registrations && 0 <= i < |input.registrations[c]| && input.registrations[c][i].Some? ==>
          RegistrationSound(input.registrations[c][i].value))
  }

  predicate RegistrationSound(r: Registration) {
    IsDigest(r.id) && r.owner != "" && r.delegate != ""
  }

  predicate ConfigSound(cfg: Config) {
    forall i :: 0 <= i < |cfg.externals| ==> cfg.externals[i].id != ""
  }

  predicate EventSound(e: Event, body: ReportBody) {
    match e
    case Start(cfg, _, _, secret) => ConfigSound(cfg) && |secret| == 32
    case FullTick(input) => DocumentsSound(input, body)
    case CrashedTick(input, _) => DocumentsSound(input, body)
    case Kill => true
  }

  predicate RunSound(events: seq<Event>, body: ReportBody) {
    forall i :: 0 <= i < |events| ==> EventSound(events[i], body)
  }

  // ---------------------------------------------------------------------------------------------
  // What may happen next, given a log.

  predicate CheckpointsExtend(s: State, t: State, body: ReportBody) {
    forall c :: c in s.classCheckpoints ==> Extends(Some(s.classCheckpoints[c]), LookUp(t.classCheckpoints, c), body)
  }

  predicate IsFresh(p: PendingVector) {
    p.attempts == 0 && p.nextRetryAtMs == 0 && !p.ambiguous
  }

  /** The same vector, whatever its retry bookkeeping. */
  predicate SameVector(p: PendingVector, q: PendingVector) {
    q == p.(attempts := q.attempts, nextRetryAtMs := q.nextRetryAtMs, ambiguous := q.ambiguous)
  }

  predicate Reconfigures(s: State, t: State) {
    s.pending.None? && t == Reconfigured(s, t.fingerprint) && t.fingerprint != s.fingerprint
  }

  predicate CompletesRound(s: State, t: State) {
    && s.pending.None?
    && t.fingerprint == s.fingerprint && t.confirmedVector == s.confirmedVector
    && t.confirmedDecision == s.confirmedDecision
    && s.lastCompletedRound < t.lastCompletedRound
    && (t.pending.Some? ==> IsFresh(t.pending.value))
  }

  /** One more failure of the same vector, recorded at a time when a retry was due. */
  predicate FailsAgain(s: State, t: State) {
    && s.pending.Some? && t.pending.Some? && t == s.(pending := t.pending)
    && var (p, q) := (s.pending.value, t.pending.value);
       SameVector(p, q) && q.attempts == p.attempts + 1 && p.nextRetryAtMs <= q.nextRetryAtMs - DelayMs(q.attempts)
  }

  predicate Cancels(s: State, t: State) {
    s.pending.Some? && t == s.(pending := None)
  }

  /** Confirmation directly follows a successful submission of the pending vector. */
  predicate Confirms(log: seq<Effect>, s: State, t: State) {
    && s.pending.Some? && t == Confirmed(s)
    && log != [] && log[|log| - 1].Sent? && log[|log| - 1].vector == s.pending.value && Succeeded(log[|log| - 1].reply)
  }

  predicate Evolves(log: seq<Effect>, s: State, t: State, retry: bool, body: ReportBody) {
    && t.schema == s.schema && t.masterSecret == s.masterSecret
    && CheckpointsExtend(s, t, body)
    && (Reconfigures(s, t) || CompletesRound(s, t) || FailsAgain(s, t) || Cancels(s, t) || Confirms(log, s, t))
    && (s.pending.Some? && s.pending.value.ambiguous ==> retry)
  }

  predicate SentOk(disk: Option<State>, e: Effect)
    requires e.Sent?
  {
    disk.Some? && disk.value.pending == Some(e.vector) && SentSoundly(e)
  }

  predicate EffectOk(hash: Hash, body: ReportBody, log: seq<Effect>, e: Effect) {
    match e
    case Sent(_, _, _, _, _, _) => SentOk(Disk(log), e)
    case Saved(t, retry) =>
      && Loadable(hash, t)
      && (Disk(log).None? ==> t == FreshState(t.fingerprint, t.masterSecret))
      && (Disk(log).Some? ==> Evolves(log, Disk(log).value, t, retry, body))
  }

  predicate LogOk(hash: Hash, body: ReportBody, log: seq<Effect>) {
    log == [] || (LogOk(hash, body, log[..|log| - 1]) && EffectOk(hash, body, log[..|log| - 1], log[|log| - 1]))
  }

  /** The memory of a running process against its file. With a vector pending they are equal; without one
      the memory may be ahead, after rounds that raised before they were saved. */
  predicate InStep(hash: Hash, body: ReportBody, disk: Option<State>, memory: State, cfg: Config) {
    && cfg.roundBlocks > 0 && ConfigSound(cfg)
    && disk.Some? && Loadable(hash, disk.value) && Loadable(hash, memory)
    && memory.fingerprint == cfg.fingerprint
    && (memory.pending.Some? ==> memory == disk.value)
    && (memory.pending.None? ==> Ahead(disk.value, memory, body))
  }

  predicate Ahead(d: State, m: State, body: ReportBody) {
    && d.pending.None? && m.pending.None?
    && m.schema == d.schema && m.masterSecret == d.masterSecret && m.fingerprint == d.fingerprint
    && m.confirmedVector == d.confirmedVector && m.confirmedDecision == d.confirmedDecision
    && d.lastCompletedRound <= m.lastCompletedRound
    && CheckpointsExtend(d, m, body)
  }

  /** Doing some effects after a log is right at every one of them, and leaves the memory in step. */
  predicate Keeps(hash: Hash, body: ReportBody, log: seq<Effect>, effects: seq<Effect>, memory: State, cfg: Config)
    decreases |effects|
  {
    if effects == [] then LogOk(hash, body, log) && InStep(hash, body, Disk(log), memory, cfg)
    else EffectOk(hash, body, log, effects[0]) && Keeps(hash, body, log + [effects[0]], effects[1..], memory, cfg)
  }

  predicate WorldOk(hash: Hash, body: ReportBody, w: World) {
    LogOk(hash, body, w.log)
    && (w.process.Up? ==> Keeps(hash, body, w.log, [], w.process.memory, w.process.cfg))
  }

  // ---------------------------------------------------------------------------------------------
  // Logs.

  lemma LogAppend(hash: Hash, body: ReportBody, log: seq<Effect>, e: Effect)
    ensures LogOk(hash, body, log + [e]) <==> LogOk(hash, body, log) && EffectOk(hash, body, log, e)
    ensures Disk(log + [e]) == if e.Saved? then Some(e.state) else Disk(log)
  {
    assert (log + [e])[..|log|] == log;
  }

  lemma {:induction false} LogPrefix(hash: Hash, body: ReportBody, log: seq<Effect>, k: nat)
    requires LogOk(hash, body, log) && k <= |log|
    ensures LogOk(hash, body, log[..k])
    ensures k < |log| ==> EffectOk(hash, body, log[..k], log[k])
    decreases |log|
  {
    if k == |log| {
      assert log[..k] == log;
    } else if k < |log| - 1 {
      LogPrefix(hash, body, log[..|log| - 1], k);
      assert log[..|log| - 1][..k] == log[..k];
    }
  }

  lemma {:induction false} KeepsMeans(hash: Hash, body: ReportBody, log: seq<Effect>, effects: seq<Effect>,
                                      memory: State, cfg: Config)
    requires Keeps(hash, body, log, effects, memory, cfg) && LogOk(hash, body, log)
    ensures LogOk(hash, body, log + effects) && Keeps(hash, body, log + effects, [], memory, cfg)
    decreases |effects|
  {
    if effects == [] {
      assert log + effects == log;
    } else {
      LogAppend(hash, body, log, effects[0]);
      KeepsMeans(hash, body, log + [effects[0]], effects[1..], memory, cfg);
      FirstThenRest(log, effects);
    }
  }

  lemma KeepsOneMore(hash: Hash, body: ReportBody, log: seq<Effect>, e: Effect, more: seq<Effect>, memory: State,
                     cfg: Config)
    requires EffectOk(hash, body, log, e) && Keeps(hash, body, log + [e], more, memory, cfg)
    ensures Keeps(hash, body, log, [e] + more, memory, cfg)
  {
    assert ([e] + more)[1..] == more;
  }

  lemma KeepsSaved(hash: Hash, body: ReportBody, log: seq<Effect>, t: State, retry: bool, cfg: Config)
    requires LogOk(hash, body, log) && EffectOk(hash, body, log, Saved(t, retry))
    requires InStep(hash, body, Some(t), t, cfg)
    ensures Keeps(hash, body, log, [Saved(t, retry)], t, cfg)
  {
    LogAppend(hash, body, log, Saved(t, retry));
    KeepsOneMore(hash, body, log, Saved(t, retry), [], t, cfg);
    assert [Saved(t, retry)] + [] == [Saved(t, retry)];
  }

  lemma {:induction false} DiskIsLoadable(hash: Hash, body: ReportBody, log: seq<Effect>)
    requires LogOk(hash, body, log) && Disk(log).Some?
    ensures Loadable(hash, Disk(log).value)
  {
    if log[|log| - 1].Sent? {
      DiskIsLoadable(hash, body, log[..|log| - 1]);
    }
  }

  lemma DiskStep(log: seq<Effect>, k: nat)
    requires k < |log|
    ensures Disk(log[..k + 1]) == if log[k].Saved? then Some(log[k].state) else Disk(log[..k])
  {
    assert log[..k + 1][..k] == log[..k];
  }

  // ---------------------------------------------------------------------------------------------
  // Submitting keeps the log right.

  lemma DelayNonNegative(attempts: int)
    ensures DelayMs(attempts) >= 0
  {
    Pow2Grows(0, if attempts - 1 < 0 then 0 else if attempts - 1 < 10 then attempts - 1 else 10);
  }

  lemma SelfExtends(s: State, t: State, body: ReportBody)
    requires t.classCheckpoints == s.classCheckpoints
    ensures CheckpointsExtend(s, t, body)
  {
  }

  lemma FailKeeps(hash: Hash, body: ReportBody, log: seq<Effect>, st: State, cfg: Config, nowMs: nat, ambiguous: bool,
                  retry: bool)
    requires Keeps(hash, body, log, [], st, cfg) && st.pending.Some?
    requires st.pending.value.nextRetryAtMs <= nowMs && (st.pending.value.ambiguous ==> retry)
    ensures var s := Fail(st, nowMs, ambiguous, retry); Keeps(hash, body, log, s.effects, s.state, cfg)
  {
    var t := Fail(st, nowMs, ambiguous, retry).state;
    DelayNonNegative(st.pending.value.attempts + 1);
    SelfExtends(st, t, body);
    assert FailsAgain(st, t);
    KeepsSaved(hash, body, log, t, retry, cfg);
  }

  lemma CancelKeeps(hash: Hash, body: ReportBody, log: seq<Effect>, st: State, cfg: Config, retry: bool)
    requires Keeps(hash, body, log, [], st, cfg) && st.pending.Some?
    requires st.pending.value.ambiguous ==> retry
    ensures var s := Cancel(st, retry); Keeps(hash, body, log, s.effects, s.state, cfg)
  {
    var t := Cancel(st, retry).state;
    SelfExtends(st, t, body);
    SelfExtends(t, t, body);
    assert Cancels(st, t);
    KeepsSaved(hash, body, log, t, retry, cfg);
  }

  lemma ConfirmKeeps(hash: Hash, body: ReportBody, log: seq<Effect>, st: State, cfg: Config, retry: bool)
    requires Keeps(hash, body, log, [], st, cfg) && st.pending.Some?
    requires st.pending.value.ambiguous ==> retry
    requires Confirms(log, st, Confirmed(st))
    ensures Keeps(hash, body, log, [Saved(Confirmed(st), retry)], Confirmed(st), cfg)
  {
    SelfExtends(st, Confirmed(st), body);
    SelfExtends(Confirmed(st), Confirmed(st), body);
    KeepsSaved(hash, body, log, Confirmed(st), retry, cfg);
  }

  lemma AfterSending(hash: Hash, body: ReportBody, log: seq<Effect>, st: State, cfg: Config, sent: Effect)
    requires Keeps(hash, body, log, [], st, cfg) && sent.Sent? && SentOk(Disk(log), sent)
    ensures Keeps(hash, body, log + [sent], [], st, cfg)
  {
    LogAppend(hash, body, log, sent);
  }

  lemma SendKeeps(hash: Hash, body: ReportBody, log: seq<Effect>, st: State, cfg: Config, peers: seq<Peer>,
                  current: Option<map<ClassId, Digest>>, input: TickInput, retry: bool)
    requires Keeps(hash, body, log, [], st, cfg) && st.pending.Some?
    requires SentOk(Disk(log), Sent(st.pending.value, peers, current, input.nowMs, retry, input.reply))
    ensures var s := Send(st, peers, current, input, retry); Keeps(hash, body, log, s.effects, s.state, cfg)
  {
    var sent := Sent(st.pending.value, peers, current, input.nowMs, retry, input.reply);
    AfterSending(hash, body, log, st, cfg, sent);
    if Succeeded(input.reply) {
      ConfirmKeeps(hash, body, log + [sent], st, cfg, retry);
      KeepsOneMore(hash, body, log, sent, [Saved(Confirmed(st), retry)], Confirmed(st), cfg);
      assert [sent] + [Saved(Confirmed(st), retry)] == Send(st, peers, current, input, retry).effects;
    } else {
      var ambiguous := input.reply.Raised? || FailureIsAmbiguous(input.reply.response);
      var after := Fail(st, input.nowMs, ambiguous, retry);
      FailKeeps(hash, body, log + [sent], st, cfg, input.nowMs, ambiguous, retry);
      KeepsOneMore(hash, body, log, sent, after.effects, after.state, cfg);
    }
  }

  lemma SubmitToKeeps(hash: Hash, body: ReportBody, log: seq<Effect>, st: State, cfg: Config, mode: Mode,
                      peers: seq<Peer>, givenIds: Option<map<ClassId, Digest>>, input: TickInput)
    requires Keeps(hash, body, log, [], st, cfg) && st.pending.Some?
    requires st.pending.value.nextRetryAtMs <= input.nowMs && (st.pending.value.ambiguous ==> mode.retryAmbiguous)
    ensures var s := SubmitTo(st, cfg, mode, peers, givenIds, input); Keeps(hash, body, log, s.effects, s.state, cfg)
  {
    var p, retry := st.pending.value, mode.retryAmbiguous;
    if !OwnersMatch(p, peers) {
      CancelKeeps(hash, body, log, st, cfg, retry);
    } else if p.registrationIds == map[] {
      SendKeeps(hash, body, log, st, cfg, peers, None, input, retry);
    } else {
      match RefreshIds(st, cfg, peers, givenIds, input) {
        case Ids(ids) =>
          if ids != p.registrationIds {
            CancelKeeps(hash, body, log, st, cfg, retry);
          } else {
            SendKeeps(hash, body, log, st, cfg, peers, Some(ids), input, retry);
          }
        case Revoked => CancelKeeps(hash, body, log, st, cfg, retry);
        case Held => FailKeeps(hash, body, log, st, cfg, input.nowMs, p.ambiguous, retry);
        case Escaped =>
      }
    }
  }

  lemma SubmitKeeps(hash: Hash, body: ReportBody, log: seq<Effect>, st: State, cfg: Config, mode: Mode,
                    given: Option<Metagraph>, givenIds: Option<map<ClassId, Digest>>, input: TickInput)
    requires Keeps(hash, body, log, [], st, cfg)
    ensures var s := Submit(st, cfg, mode, given, givenIds, input); Keeps(hash, body, log, s.effects, s.state, cfg)
  {
    if st.pending.Some? {
      var p := st.pending.value;
      if !(p.ambiguous && !mode.retryAmbiguous) && p.nextRetryAtMs <= input.nowMs && mode.broadcast {
        var peers := Peers(given, input);
        if peers.None? {
          FailKeeps(hash, body, log, st, cfg, input.nowMs, p.ambiguous, mode.retryAmbiguous);
        } else {
          SubmitToKeeps(hash, body, log, st, cfg, mode, peers.value, givenIds, input);
        }
      }
    }
  }

  // ---------------------------------------------------------------------------------------------
  // Starting a round keeps the log right.

  predicate RegistrationsSound(regs: Registrations) {
    forall c :: c in regs ==>
      c != "" && IsDigest(regs[c].0.id) && regs[c].1.owner != "" && regs[c].1.delegate != "" && IsDigest(regs[c].1.id)
  }

  lemma LoadClassSound(id: ClassId, owner: Coldkey, mirrors: seq<Option<Registration>>, peers: seq<Peer>,
                       checkpoint: Option<RegistrationCheckpoint>)
    requires forall i :: 0 <= i < |mirrors| && mirrors[i].Some? ==> RegistrationSound(mirrors[i].value)
    requires checkpoint.Some? ==>
               checkpoint.value.owner != "" && checkpoint.value.delegate != "" && IsDigest(checkpoint.value.id)
    requires LoadClass(id, owner, mirrors, peers, checkpoint).Ok?
    ensures var (r, c) := LoadClass(id, owner, mirrors, peers, checkpoint).value;
            RegistrationSound(r) && c.owner != "" && c.delegate != "" && IsDigest(c.id)
  {
    var load := Load(mirrors, owner, ColdkeyOf(peers));
    LoadedIsAuthorized(load, checkpoint);
    var r := LoadRegistration(load, checkpoint).value.0;
    var i :| 0 <= i < |mirrors| && mirrors[i] == Some(r);
  }

  lemma {:induction false} LoadClassesSound(classes: seq<ExternalClass>, peers: seq<Peer>, input: TickInput,
                                           checkpoints: map<ClassId, RegistrationCheckpoint>, body: ReportBody)
    requires DocumentsSound(input, body) && RegistrationCheckpointsValid(checkpoints)
    requires forall i :: 0 <= i < |classes| ==> classes[i].id != ""
    requires LoadClasses(classes, peers, input, checkpoints).Ok?
    ensures RegistrationsSound(LoadClasses(classes, peers, input, checkpoints).value)
  {
    if classes != [] {
      var front, last := classes[..|classes| - 1], classes[|classes| - 1];
      LoadClassesSound(front, peers, input, checkpoints, body);
      if last.sourceNetuid.Some? {
        var owner := OwnerOf(input.owners, last.sourceNetuid.value).coldkey;
        LoadClassSound(last.id, owner, Mirrors(input.registrations, last.id), peers, LookUp(checkpoints, last.id));
      }
    }
  }

  predicate AdvancedOk(next: Advanced, st: State, body: ReportBody) {
    && ClassCheckpointsValid(next.classes) && RegistrationCheckpointsValid(next.registrations)
    && forall c :: c in st.classCheckpoints ==> Extends(Some(st.classCheckpoints[c]), LookUp(next.classes, c), body)
  }

  lemma LoadedReportIsSound(c: ClassId, st: State, input: TickInput, body: ReportBody)
    requires DocumentsSound(input, body)
    requires LoadBest(Mirrors(input.reports, c), LookUp(st.classCheckpoints, c)).Ok?
    ensures var next := LoadBest(Mirrors(input.reports, c), LookUp(st.classCheckpoints, c)).value.1;
            && (ClassCheckpointsValid(st.classCheckpoints) ==> IsDigest(next.id))
            && Extends(LookUp(st.classCheckpoints, c), Some(next), body)
  {
    var mirrors := Mirrors(input.reports, c);
    LoadBestExtends(mirrors, LookUp(st.classCheckpoints, c), body);
    var r := LoadBest(mirrors, LookUp(st.classCheckpoints, c)).value.0;
    var i :| 0 <= i < |mirrors| && mirrors[i] == Some(r);
    assert IsDigest(input.reports[c][i].value.id);
  }

  lemma WithClass(classes: map<ClassId, SourceCheckpoint>, c: ClassId, to: SourceCheckpoint, st: State,
                  body: ReportBody)
    requires ClassCheckpointsValid(classes) && c != "" && IsDigest(to.id)
    requires forall d :: d in st.classCheckpoints ==> Extends(Some(st.classCheckpoints[d]), LookUp(classes, d), body)
    requires Extends(LookUp(st.classCheckpoints, c), Some(to), body)
    ensures ClassCheckpointsValid(classes[c := to])
    ensures forall d :: d in st.classCheckpoints ==>
              Extends(Some(st.classCheckpoints[d]), LookUp(classes[c := to], d), body)
  {
    forall d | d in st.classCheckpoints
      ensures Extends(Some(st.classCheckpoints[d]), LookUp(classes[c := to], d), body)
    {
      assert LookUp(classes[c := to], d) == if d == c then Some(to) else LookUp(classes, d);
    }
  }

  lemma WithRegistration(registrations: map<ClassId, RegistrationCheckpoint>, c: ClassId, to: RegistrationCheckpoint)
    requires RegistrationCheckpointsValid(registrations) && c != ""
    requires to.owner != "" && to.delegate != "" && IsDigest(to.id)
    ensures RegistrationCheckpointsValid(registrations[c := to])
  {
  }

  lemma AdvanceClassKeeps(front: Advanced, c: ExternalClass, st: State, hasBurn: bool, regs: Registrations,
                          input: TickInput, body: ReportBody)
    requires DocumentsSound(input, body) && RegistrationsSound(regs) && c.id != ""
    requires ClassCheckpointsValid(st.classCheckpoints) && AdvancedOk(front, st, body)
    requires AdvanceClass(front, c, st, hasBurn, regs, input).Some?
    ensures AdvancedOk(AdvanceClass(front, c, st, hasBurn, regs, input).value, st, body)
  {
    var loaded := LoadBest(Mirrors(input.reports, c.id), LookUp(st.classCheckpoints, c.id));
    if loaded.Ok? && !(c.sourceNetuid.Some? && c.id !in regs) {
      LoadedReportIsSound(c.id, st, input, body);
      WithClass(front.classes, c.id, loaded.value.1, st, body);
      if c.sourceNetuid.Some? {
        WithRegistration(front.registrations, c.id, regs[c.id].1);
      }
    }
  }

  lemma {:induction false} AdvanceKeeps(classes: seq<ExternalClass>, st: State, hasBurn: bool, regs: Registrations,
                                        input: TickInput, body: ReportBody)
    requires DocumentsSound(input, body) && RegistrationsSound(regs)
    requires ClassCheckpointsValid(st.classCheckpoints) && RegistrationCheckpointsValid(st.registrationCheckpoints)
    requires forall i :: 0 <= i < |classes| ==> classes[i].id != ""
    requires Advance(classes, st, hasBurn, regs, input).Some?
    ensures AdvancedOk(Advance(classes, st, hasBurn, regs, input).value, st, body)
  {
    if classes != [] {
      var front := classes[..|classes| - 1];
      AdvanceKeeps(front, st, hasBurn, regs, input, body);
      AdvanceClassKeeps(Advance(front, st, hasBurn, regs, input).value, classes[|classes| - 1], st, hasBurn, regs,
                        input, body);
    }
  }

  lemma EmaNonNegative(previous: Scores, observed: Scores, current: set<Hotkey>, alpha: real)
    requires EmaAccepts(previous, observed, current, alpha)
    ensures NonNegative(Ema(previous, observed, current, alpha))
  {
    forall h | h in current
      ensures Ema(previous, observed, current, alpha)[h] >= 0.0
    {
      BlendBetween(Get(previous, h), Get(observed, h), alpha);
    }
  }

  lemma RoundSavedKeeps(hash: Hash, body: ReportBody, log: seq<Effect>, base: State, cfg: Config, t: State, retry: bool)
    requires Keeps(hash, body, log, [], base, cfg) && base.pending.None?
    requires Disk(log).value.lastCompletedRound < base.lastCompletedRound
    requires t == base.(pending := t.pending)
    requires t.pending.Some? ==> IsFresh(t.pending.value) && PendingMatchesDigest(hash, t.pending.value)
    ensures Keeps(hash, body, log, [Saved(t, retry)], t, cfg) && EffectOk(hash, body, log, Saved(t, retry))
  {
    assert CheckpointsExtend(Disk(log).value, t, body);
    assert CompletesRound(Disk(log).value, t);
    SelfExtends(t, t, body);
    KeepsSaved(hash, body, log, t, retry, cfg);
  }

  lemma SavedThenKeeps(hash: Hash, body: ReportBody, log: seq<Effect>, t: State, retry: bool, cfg: Config)
    requires Keeps(hash, body, log, [Saved(t, retry)], t, cfg)
    ensures Keeps(hash, body, log + [Saved(t, retry)], [], t, cfg)
  {
  }

  lemma CommitKeeps(hash: Hash, body: ReportBody, log: seq<Effect>, base: State, cfg: Config, mode: Mode, m: Metagraph,
                    peers: seq<Peer>, regs: Registrations, vector: Vector, input: TickInput)
    requires Keeps(hash, body, log, [], base, cfg) && base.pending.None?
    requires Disk(log).value.lastCompletedRound < base.lastCompletedRound
    ensures var s := Commit(hash, base, cfg, mode, m, peers, regs, vector, input);
            Keeps(hash, body, log, s.effects, s.state, cfg)
  {
    var retry := mode.retryAmbiguous;
    if vector.uids == [] {
      RoundSavedKeeps(hash, body, log, base, cfg, base, retry);
    } else {
      var marked := Marked(hash, base, peers, regs, vector, input);
      if marked.Some? {
        var t, ids := marked.value, Some(RegistrationIds(regs));
        RoundSavedKeeps(hash, body, log, base, cfg, t, retry);
        SavedThenKeeps(hash, body, log, t, retry, cfg);
        SubmitKeeps(hash, body, log + [Saved(t, retry)], t, cfg, mode, Some(m), ids, input);
        var after := Submit(t, cfg, mode, Some(m), ids, input);
        KeepsOneMore(hash, body, log, Saved(t, retry), after.effects, after.state, cfg);
      }
    }
  }

  lemma BaseInStep(hash: Hash, body: ReportBody, log: seq<Effect>, st: State, cfg: Config, ema: Scores, next: Advanced,
                   round: int)
    requires Keeps(hash, body, log, [], st, cfg) && st.pending.None? && st.lastCompletedRound < round
    requires NonNegative(ema) && AdvancedOk(next, st, body)
    ensures Keeps(hash, body, log, [], Evaluated(st, ema, next, round), cfg)
    ensures Disk(log).value.lastCompletedRound < round
  {
    ExtendFurther(Disk(log).value, st, Evaluated(st, ema, next, round), body);
  }

  lemma EvaluateKeeps(hash: Hash, body: ReportBody, log: seq<Effect>, st: State, cfg: Config, mode: Mode,
                      lastDryRun: Option<int>, input: TickInput, peers: seq<Peer>, round: int)
    requires Keeps(hash, body, log, [], st, cfg) && st.pending.None?
    requires DocumentsSound(input, body) && input.metagraph.Got? && st.lastCompletedRound < round
    ensures var o := EvaluateRound(hash, st, cfg, mode, lastDryRun, input, peers, round);
            Keeps(hash, body, log, o.effects, o.state, cfg)
  {
    var ema, regs := RoundEma(cfg, peers, input, st), RoundRegistrations(cfg, peers, input, st);
    if ema.Some? && regs.Some? {
      var next := Advance(cfg.externals, st, cfg.hasBurn, regs.value, input);
      if next.Some? && input.vector.Some? && mode.broadcast {
        RoundRegistrationsSound(cfg, peers, input, st, body);
        AdvanceKeeps(cfg.externals, st, cfg.hasBurn, regs.value, input, body);
        RoundEmaNonNegative(cfg, peers, input, st);
        BaseInStep(hash, body, log, st, cfg, ema.value, next.value, round);
        CommitKeeps(hash, body, log, Evaluated(st, ema.value, next.value, round), cfg, mode, input.metagraph.value,
                    peers, regs.value, input.vector.value, input);
      }
    }
  }

  lemma RoundEmaNonNegative(cfg: Config, peers: seq<Peer>, input: TickInput, st: State)
    requires NonNegative(st.ema) && RoundEma(cfg, peers, input, st).Some?
    ensures NonNegative(RoundEma(cfg, peers, input, st).value)
  {
    if cfg.hasLocal {
      EmaNonNegative(st.ema, input.observations, Hotkeys(peers), cfg.alpha);
    }
  }

  lemma ExtendFurther(d: State, m: State, base: State, body: ReportBody)
    requires CheckpointsExtend(d, m, body)
    requires CheckpointsExtend(m, base, body)
    ensures CheckpointsExtend(d, base, body)
  {
    forall c | c in d.classCheckpoints
      ensures Extends(Some(d.classCheckpoints[c]), LookUp(base.classCheckpoints, c), body)
    {
      assert Extends(Some(d.classCheckpoints[c]), LookUp(m.classCheckpoints, c), body);
      ExtendsTransitive(Some(d.classCheckpoints[c]), LookUp(m.classCheckpoints, c), LookUp(base.classCheckpoints, c),
                        body);
    }
  }

  lemma RoundRegistrationsSound(cfg: Config, peers: seq<Peer>, input: TickInput, st: State, body: ReportBody)
    requires DocumentsSound(input, body) && RegistrationCheckpointsValid(st.registrationCheckpoints) && ConfigSound(cfg)
    requires RoundRegistrations(cfg, peers, input, st).Some?
    ensures RegistrationsSound(RoundRegistrations(cfg, peers, input, st).value)
  {
    if LoadOwnerRegistrations(cfg, peers, input, st.registrationCheckpoints, false).Ok? {
      LoadClassesSound(cfg.externals, peers, input, st.registrationCheckpoints, body);
    }
  }

  lemma TickKeeps(hash: Hash, body: ReportBody, log: seq<Effect>, st: State, cfg: Config, mode: Mode,
                  lastDryRun: Option<int>, input: TickInput)
    requires Keeps(hash, body, log, [], st, cfg) && DocumentsSound(input, body) && cfg.roundBlocks > 0
    ensures var o := Tick(hash, st, cfg, mode, lastDryRun, input); Keeps(hash, body, log, o.effects, o.state, cfg)
  {
    if st.pending.Some? {
      SubmitKeeps(hash, body, log, st, cfg, mode, None, None, input);
    } else if input.metagraph.Got? && input.block.Got? && SnapshotPeers(input.metagraph.value).Some? {
      var round := input.block.value / cfg.roundBlocks;
      if st.lastCompletedRound < round {
        EvaluateKeeps(hash, body, log, st, cfg, mode, lastDryRun, input, SnapshotPeers(input.metagraph.value).value,
                      round);
      }
    }
  }

  lemma StartKeeps(hash: Hash, body: ReportBody, log: seq<Effect>, cfg: Config, retry: bool, allowChange: bool,
                   secret: seq<Byte>)
    requires LogOk(hash, body, log) && ConfigSound(cfg) && |secret| == 32 && cfg.roundBlocks > 0
    ensures var loaded := LoadOrCreate(hash, Disk(log), cfg.fingerprint, allowChange, secret);
            var longer := log + SavedAs(loaded.saves, retry);
            LogOk(hash, body, longer) && (loaded.result.Ok? ==> Keeps(hash, body, longer, [], loaded.result.value, cfg))
  {
    var loaded := LoadOrCreate(hash, Disk(log), cfg.fingerprint, allowChange, secret);
    var saves := SavedAs(loaded.saves, retry);
    if Disk(log).Some? {
      DiskIsLoadable(hash, body, log);
    }
    if saves == [] {
      assert log + saves == log;
      SelfExtends(Disk(log).value, Disk(log).value, body);
    } else {
      var t := loaded.saves[0];
      assert saves == [Saved(t, retry)];
      if Disk(log).Some? {
        SelfExtends(Disk(log).value, t, body);
      }
      SelfExtends(t, t, body);
      LogAppend(hash, body, log, saves[0]);
    }
  }

  lemma StartEventKeeps(hash: Hash, body: ReportBody, w: World, e: Event)
    requires WorldOk(hash, body, w) && EventSound(e, body) && w.process.Down? && e.Start?
    ensures WorldOk(hash, body, Next(hash, w, e))
  {
    var cfg := if e.cfg.roundBlocks > 0 then e.cfg else e.cfg.(roundBlocks := 1);
    StartKeeps(hash, body, w.log, cfg, e.mode.retryAmbiguous, e.allowChange, e.secret);
  }

  lemma TickEffectsKeep(hash: Hash, body: ReportBody, w: World, input: TickInput)
    requires WorldOk(hash, body, w) && DocumentsSound(input, body) && w.process.Up? && w.process.cfg.roundBlocks > 0
    ensures var p := w.process;
            var o := Tick(hash, p.memory, p.cfg, p.mode, p.lastDryRun, input);
            LogOk(hash, body, w.log + o.effects) && Keeps(hash, body, w.log + o.effects, [], o.state, p.cfg)
  {
    var p := w.process;
    TickKeeps(hash, body, w.log, p.memory, p.cfg, p.mode, p.lastDryRun, input);
    var o := Tick(hash, p.memory, p.cfg, p.mode, p.lastDryRun, input);
    KeepsMeans(hash, body, w.log, o.effects, o.state, p.cfg);
  }

  lemma FullTickKeeps(hash: Hash, body: ReportBody, w: World, input: TickInput)
    requires WorldOk(hash, body, w) && DocumentsSound(input, body) && w.process.Up?
    ensures WorldOk(hash, body, Next(hash, w, FullTick(input)))
  {
    if w.process.cfg.roundBlocks > 0 {
      TickEffectsKeep(hash, body, w, input);
    }
  }

  lemma SomeEffectsKeep(hash: Hash, body: ReportBody, log: seq<Effect>, effects: seq<Effect>, k: nat)
    requires LogOk(hash, body, log + effects) && k <= |effects|
    ensures LogOk(hash, body, log + effects[..k])
  {
    LogPrefix(hash, body, log + effects, |log| + k);
    assert (log + effects)[..|log| + k] == log + effects[..k];
  }

  lemma CrashedTickKeeps(hash: Hash, body: ReportBody, w: World, input: TickInput, done: nat)
    requires WorldOk(hash, body, w) && DocumentsSound(input, body) && w.process.Up? && w.process.cfg.roundBlocks > 0
    ensures WorldOk(hash, body, Next(hash, w, CrashedTick(input, done)))
  {
    var p := w.process;
    TickEffectsKeep(hash, body, w, input);
    var o := Tick(hash, p.memory, p.cfg, p.mode, p.lastDryRun, input);
    CrashKeeps(hash, body, w.log, o, done);
  }

  lemma CrashKeeps(hash: Hash, body: ReportBody, log: seq<Effect>, o: Outcome, done: nat)
    requires LogOk(hash, body, log + o.effects)
    ensures WorldOk(hash, body, Crashed(log, o, done))
  {
    SomeEffectsKeep(hash, body, log, o.effects, if done < |o.effects| then done else |o.effects|);
  }

  lemma NextKeeps(hash: Hash, body: ReportBody, w: World, e: Event)
    requires WorldOk(hash, body, w) && EventSound(e, body)
    ensures WorldOk(hash, body, Next(hash, w, e))
  {
    if w.process.Down? {
      if e.Start? {
        StartEventKeeps(hash, body, w, e);
      }
    } else if e.FullTick? {
      FullTickKeeps(hash, body, w, e.input);
    } else if e.CrashedTick? {
      if w.process.cfg.roundBlocks > 0 {
        CrashedTickKeeps(hash, body, w, e.input, e.done);
      }
    }
  }

  /** Every run, whatever happens in it, keeps the log right. */
  lemma {:induction false} RunKeepsLog(hash: Hash, body: ReportBody, events: seq<Event>)
    requires RunSound(events, body)
    ensures WorldOk(hash, body, After(hash, events))
  {
    if events != [] {
      RunKeepsLog(hash, body, events[..|events| - 1]);
      NextKeeps(hash, body, After(hash, events[..|events| - 1]), events[|events| - 1]);
    }
  }
}
