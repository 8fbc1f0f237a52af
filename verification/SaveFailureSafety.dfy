/** What holds over the runs of the validator in which saving may also raise: every submission is still sound and
    every saved state still reloads, and an outcome that was not recorded is found out about by sending again. */
module SaveFailureSafety {
  import opened Prelude
  import opened Checkpoints
  import opened Metagraphs
  import opened SaveFailures
  import opened SubmissionState
  import opened Validator
  import opened ValidatorPaths
  import opened ValidatorRuns
  import opened ValidatorSafety

  // ---------------------------------------------------------------------------------------------
  // Ticks save loadable states.

  predicate AllLoadable(hash: Hash, effects: seq<Effect>) {
    forall k :: 0 <= k < |effects| && effects[k].Saved? ==> Loadable(hash, effects[k].state)
  }

  lemma ChangedIsLoadable(hash: Hash, st: State, t: State, nowMs: nat, ambiguous: bool)
    requires Loadable(hash, st) && st.pending.Some?
    requires t == st.(pending := None) || t == Confirmed(st)
             || t == st.(pending := Some(FailedOnce(st.pending.value, nowMs, ambiguous)))
    ensures Loadable(hash, t)
  {
    DelayNonNegative(st.pending.value.attempts + 1);
  }

  lemma SendLoadable(hash: Hash, st: State, peers: seq<Peer>, current: Option<map<ClassId, Digest>>, input: TickInput,
                     retry: bool)
    requires Loadable(hash, st) && st.pending.Some?
    ensures var s := Send(st, peers, current, input, retry); AllLoadable(hash, s.effects) && Loadable(hash, s.state)
  {
    var ambiguous := input.reply.Raised? || FailureIsAmbiguous(input.reply.response);
    ChangedIsLoadable(hash, st, Confirmed(st), input.nowMs, ambiguous);
    ChangedIsLoadable(hash, st, Fail(st, input.nowMs, ambiguous, retry).state, input.nowMs, ambiguous);
  }

  lemma SubmitLoadable(hash: Hash, st: State, cfg: Config, mode: Mode, given: Option<Metagraph>,
                       ids: Option<map<ClassId, Digest>>, input: TickInput)
    requires Loadable(hash, st)
    ensures var s := Submit(st, cfg, mode, given, ids, input); AllLoadable(hash, s.effects) && Loadable(hash, s.state)
  {
    if st.pending.Some? {
      var p, retry := st.pending.value, mode.retryAmbiguous;
      ChangedIsLoadable(hash, st, Cancel(st, retry).state, input.nowMs, p.ambiguous);
      ChangedIsLoadable(hash, st, Fail(st, input.nowMs, p.ambiguous, retry).state, input.nowMs, p.ambiguous);
      var peers := Peers(given, input);
      if peers.Some? {
        SendLoadable(hash, st, peers.value, None, input, retry);
        var refreshed := RefreshIds(st, cfg, peers.value, ids, input);
        if refreshed.Ids? {
          SendLoadable(hash, st, peers.value, Some(refreshed.ids), input, retry);
        }
      }
    }
  }

  lemma CommitLoadable(hash: Hash, base: State, cfg: Config, mode: Mode, m: Metagraph, peers: seq<Peer>,
                       regs: Registrations, vector: Vector, input: TickInput)
    requires Loadable(hash, base) && base.pending.None?
    ensures var s := Commit(hash, base, cfg, mode, m, peers, regs, vector, input);
            AllLoadable(hash, s.effects) && Loadable(hash, s.state)
  {
    var marked := Marked(hash, base, peers, regs, vector, input);
    if marked.Some? {
      SubmitLoadable(hash, marked.value, cfg, mode, Some(m), Some(RegistrationIds(regs)), input);
    }
  }

  lemma EvaluateLoadable(hash: Hash, body: ReportBody, st: State, cfg: Config, mode: Mode, lastDryRun: Option<int>,
                         input: TickInput, peers: seq<Peer>, round: int)
    requires Loadable(hash, st) && st.pending.None? && ConfigSound(cfg)
    requires DocumentsSound(input, body) && input.metagraph.Got?
    ensures var o := EvaluateRound(hash, st, cfg, mode, lastDryRun, input, peers, round);
            AllLoadable(hash, o.effects) && Loadable(hash, o.state)
  {
    var ema, regs := RoundEma(cfg, peers, input, st), RoundRegistrations(cfg, peers, input, st);
    if ema.Some? && regs.Some? {
      var next := Advance(cfg.externals, st, cfg.hasBurn, regs.value, input);
      if next.Some? && input.vector.Some? && mode.broadcast {
        RoundRegistrationsSound(cfg, peers, input, st, body);
        AdvanceKeeps(cfg.externals, st, cfg.hasBurn, regs.value, input, body);
        RoundEmaNonNegative(cfg, peers, input, st);
        CommitLoadable(hash, Evaluated(st, ema.value, next.value, round), cfg, mode, input.metagraph.value, peers,
                       regs.value, input.vector.value, input);
      }
    }
  }

  lemma TickLoadable(hash: Hash, body: ReportBody, st: State, cfg: Config, mode: Mode, lastDryRun: Option<int>,
                     input: TickInput)
    requires Loadable(hash, st) && ConfigSound(cfg) && cfg.roundBlocks > 0 && DocumentsSound(input, body)
    ensures var o := Tick(hash, st, cfg, mode, lastDryRun, input);
            AllLoadable(hash, o.effects) && Loadable(hash, o.state)
  {
    if st.pending.Some? {
      SubmitLoadable(hash, st, cfg, mode, None, None, input);
    } else if input.metagraph.Got? && input.block.Got? && SnapshotPeers(input.metagraph.value).Some? {
      EvaluateLoadable(hash, body, st, cfg, mode, lastDryRun, input, SnapshotPeers(input.metagraph.value).value,
                       input.block.value / cfg.roundBlocks);
    }
  }

  // ---------------------------------------------------------------------------------------------
  // The invariant.

  predicate FaultyEventSound(e: FaultyEvent, body: ReportBody) {
    match e
    case Plain(event) => EventSound(event, body)
    case RaisedSave(input, _) => DocumentsSound(input, body)
  }

  predicate FaultySound(events: seq<FaultyEvent>, body: ReportBody) {
    forall i :: 0 <= i < |events| ==> FaultyEventSound(events[i], body)
  }

  predicate EntrySafe(hash: Hash, e: TraceEntry) {
    e.Did? ==>
      match e.effect
      case Saved(t, _) => Loadable(hash, t)
      case Sent(v, _, _, _, _, _) => SentSoundly(e.effect) && PendingMatchesDigest(hash, v)
  }

  predicate TraceSafe(hash: Hash, trace: seq<TraceEntry>) {
    forall k :: 0 <= k < |trace| ==> EntrySafe(hash, trace[k])
  }

  /** The memory of a running process against the file. */
  predicate MemorySafe(hash: Hash, file: Option<State>, m: State, raised: bool, cfg: Config) {
    && cfg.roundBlocks > 0 && ConfigSound(cfg)
    && file.Some? && Loadable(hash, file.value) && Loadable(hash, m)
    && m.fingerprint == file.value.fingerprint == cfg.fingerprint
    && (!raised ==> file.value.pending == m.pending)
  }

  predicate WorldSafe(hash: Hash, w: FaultyWorld) {
    && TraceSafe(hash, w.trace)
    && (File(w.trace).Some? ==> Loadable(hash, File(w.trace).value))
    && (w.process.Up? ==> MemorySafe(hash, File(w.trace), w.process.memory, SaveLost(w.trace), w.process.cfg))
  }

  lemma {:induction false} EffectsSafe(hash: Hash, trace: seq<TraceEntry>, m: State, effects: seq<Effect>, final: State,
                                      cfg: Config, input: TickInput)
    requires cfg.roundBlocks > 0 && Path(m, effects, final, cfg, input)
    requires AllLoadable(hash, effects) && Loadable(hash, final)
    requires TraceSafe(hash, trace) && MemorySafe(hash, File(trace), m, SaveLost(trace), cfg)
    ensures var after := trace + AllDid(effects);
            TraceSafe(hash, after) && MemorySafe(hash, File(after), final, SaveLost(after), cfg)
    decreases |effects|
  {
    if effects == [] {
      assert trace + AllDid(effects) == trace;
    } else {
      var e := effects[0];
      TraceAppend(trace, Did(e));
      assert EntrySafe(hash, Did(e));
      EffectsSafe(hash, trace + [Did(e)], if e.Saved? then e.state else m, effects[1..], final, cfg, input);
      AllDidFirst(effects);
      assert trace + [Did(e)] + AllDid(effects[1..]) == trace + ([Did(e)] + AllDid(effects[1..]));
    }
  }

  lemma {:induction false} MemoryLoadable(hash: Hash, m: State, effects: seq<Effect>)
    requires Loadable(hash, m) && AllLoadable(hash, effects)
    ensures Loadable(hash, MemoryAfter(m, effects))
  {
    if effects != [] && effects[|effects| - 1].Sent? {
      MemoryLoadable(hash, m, effects[..|effects| - 1]);
    }
  }

  lemma TickSafe(hash: Hash, body: ReportBody, w: FaultyWorld, input: TickInput)
    requires WorldSafe(hash, w) && w.process.Up? && DocumentsSound(input, body)
    ensures WorldSafe(hash, NextFaulty(hash, w, Plain(FullTick(input))))
  {
    var p := w.process;
    var o := Tick(hash, p.memory, p.cfg, p.mode, p.lastDryRun, input);
    TickIsPath(hash, p.memory, p.cfg, p.mode, p.lastDryRun, input);
    TickLoadable(hash, body, p.memory, p.cfg, p.mode, p.lastDryRun, input);
    EffectsSafe(hash, w.trace, p.memory, o.effects, o.state, p.cfg, input);
  }

  /** Any beginning of a tick. */
  lemma SomeEffectsSafe(hash: Hash, body: ReportBody, w: FaultyWorld, input: TickInput, k: nat)
    requires WorldSafe(hash, w) && w.process.Up? && DocumentsSound(input, body)
    requires k < |EffectsOf(hash, w.process, input)|
    ensures var effects := EffectsOf(hash, w.process, input);
            var (after, m) := (w.trace + AllDid(effects[..k]), MemoryAfter(w.process.memory, effects[..k]));
            && TraceSafe(hash, after) && MemorySafe(hash, File(after), m, SaveLost(after), w.process.cfg)
            && (effects[k].Saved? ==>
                  Loadable(hash, effects[k].state) && effects[k].state.fingerprint == w.process.cfg.fingerprint)
            && (effects[k].Sent? ==> m.pending == Some(effects[k].vector))
  {
    var p := w.process;
    var o := Tick(hash, p.memory, p.cfg, p.mode, p.lastDryRun, input);
    TickIsPath(hash, p.memory, p.cfg, p.mode, p.lastDryRun, input);
    TickLoadable(hash, body, p.memory, p.cfg, p.mode, p.lastDryRun, input);
    PathAt(p.memory, o.effects, o.state, p.cfg, input, k);
    MemoryLoadable(hash, p.memory, o.effects[..k]);
    EffectsSafe(hash, w.trace, p.memory, o.effects[..k], MemoryAfter(p.memory, o.effects[..k]), p.cfg, input);
  }

  lemma CrashSafe(hash: Hash, body: ReportBody, w: FaultyWorld, input: TickInput, done: nat)
    requires WorldSafe(hash, w) && w.process.Up? && DocumentsSound(input, body)
    ensures WorldSafe(hash, NextFaulty(hash, w, Plain(CrashedTick(input, done))))
  {
    var effects := EffectsOf(hash, w.process, input);
    if done < |effects| {
      SomeEffectsSafe(hash, body, w, input, done);
    } else {
      TickSafe(hash, body, w, input);
      assert effects[..|effects|] == effects;
    }
  }

  lemma RaisedSafe(hash: Hash, body: ReportBody, w: FaultyWorld, input: TickInput, k: nat)
    requires WorldSafe(hash, w) && w.process.Up? && DocumentsSound(input, body)
    ensures WorldSafe(hash, NextFaulty(hash, w, RaisedSave(input, k)))
  {
    var effects := EffectsOf(hash, w.process, input);
    if k < |effects| && effects[k].Saved? {
      SomeEffectsSafe(hash, body, w, input, k);
      TraceAppend(w.trace + AllDid(effects[..k]), SaveRaised);
    }
  }

  /** What a start finds or makes is loadable, of its configuration, and what the file then holds. */
  lemma LoadedSafe(hash: Hash, disk: Option<State>, cfg: Config, allowChange: bool, secret: seq<Byte>)
    requires (disk.Some? ==> Loadable(hash, disk.value)) && |secret| == 32
    ensures var loaded := LoadOrCreate(hash, disk, cfg.fingerprint, allowChange, secret);
            && (loaded.saves == [] || (loaded.result.Ok? && loaded.saves == [loaded.result.value]))
            && (loaded.result.Ok? ==>
                  Loadable(hash, loaded.result.value) && loaded.result.value.fingerprint == cfg.fingerprint
                  && (loaded.saves == [] ==> disk == Some(loaded.result.value)))
  {
  }

  lemma StartSafe(hash: Hash, trace: seq<TraceEntry>, cfg: Config, mode: Mode, allowChange: bool, secret: seq<Byte>)
    requires WorldSafe(hash, FaultyWorld(trace, Down)) && ConfigSound(cfg) && |secret| == 32
    ensures WorldSafe(hash, NextStarted(hash, trace, cfg, mode, allowChange, secret))
  {
    var loaded := LoadOrCreate(hash, File(trace), cfg.fingerprint, allowChange, secret);
    var saved := trace + AllDid(SavedAs(loaded.saves, mode.retryAmbiguous));
    LoadedSafe(hash, File(trace), cfg, allowChange, secret);
    StartedTrace(trace, loaded.saves, mode.retryAmbiguous);
    assert TraceSafe(hash, saved);
    if loaded.result.Ok? && cfg.roundBlocks > 0 {
      BegunSafe(hash, saved, loaded.result.value, cfg, mode);
    }
  }

  lemma BegunSafe(hash: Hash, saved: seq<TraceEntry>, t: State, cfg: Config, mode: Mode)
    requires TraceSafe(hash, saved) && File(saved) == Some(t) && Loadable(hash, t)
    requires t.fingerprint == cfg.fingerprint && cfg.roundBlocks > 0 && ConfigSound(cfg)
    ensures WorldSafe(hash, FaultyWorld(saved + [Began], Up(t, cfg, mode, None)))
  {
    TraceAppend(saved, Began);
  }

  lemma NextSafe(hash: Hash, body: ReportBody, w: FaultyWorld, e: FaultyEvent)
    requires WorldSafe(hash, w) && FaultyEventSound(e, body)
    ensures WorldSafe(hash, NextFaulty(hash, w, e))
  {
    match e {
      case Plain(Start(cfg, mode, allowChange, secret)) =>
        if w.process.Down? {
          StartSafe(hash, w.trace, cfg, mode, allowChange, secret);
        }
      case Plain(FullTick(input)) =>
        if w.process.Up? {
          TickSafe(hash, body, w, input);
        }
      case Plain(CrashedTick(input, done)) =>
        if w.process.Up? {
          CrashSafe(hash, body, w, input, done);
        }
      case Plain(Kill) =>
      case RaisedSave(input, k) =>
        if w.process.Up? {
          RaisedSafe(hash, body, w, input, k);
        }
    }
  }

  lemma {:induction false} RunSafe(hash: Hash, body: ReportBody, events: seq<FaultyEvent>)
    requires FaultySound(events, body)
    ensures WorldSafe(hash, AfterFaulty(hash, events))
  {
    if events != [] {
      RunSafe(hash, body, events[..|events| - 1]);
      NextSafe(hash, body, AfterFaulty(hash, events[..|events| - 1]), events[|events| - 1]);
    }
  }

  /** Whether or not saves raise: a vector is only ever submitted under its own digest, with every UID of the hotkey
      recorded for it and the registrations it is bound to in force as its tick read them, when its retry is due,
      and with the explicit flag if it is ambiguous; and every saved state passes all the checks of loading. */
  lemma EverySubmissionIsSound(hash: Hash, body: ReportBody, events: seq<FaultyEvent>, k: nat)
    requires FaultySound(events, body)
    requires var trace := AfterFaulty(hash, events).trace; k < |trace| && trace[k].Did?
    ensures match AfterFaulty(hash, events).trace[k].effect
            case Saved(t, _) => Loadable(hash, t)
            case Sent(v, peers, current, nowMs, retry, _) =>
              && VectorDigest(hash, v.uids, v.weights, v.hotkeys, v.provenance, v.registrationIds) == Ok(v.digest)
              && (forall i :: 0 <= i < |v.uids| ==> LookUpUid(peers, v.uids[i]) == Some(v.hotkeys[i]))
              && (v.registrationIds != map[] ==> current == Some(v.registrationIds))
              && v.nextRetryAtMs <= nowMs && (v.ambiguous ==> retry)
  {
    RunSafe(hash, body, events);
    assert EntrySafe(hash, AfterFaulty(hash, events).trace[k]);
  }

  // ---------------------------------------------------------------------------------------------
  // An outcome whose record raises.

  /** The file behind a vector just sent holds it, if no save has raised since the last that succeeded. */
  lemma FileBehindFaultySending(hash: Hash, body: ReportBody, w: FaultyWorld, input: TickInput, k: nat)
    requires WorldSafe(hash, w) && w.process.Up? && DocumentsSound(input, body)
    requires k < |EffectsOf(hash, w.process, input)| && EffectsOf(hash, w.process, input)[k].Sent?
    requires !SaveLost(w.trace + AllDid(EffectsOf(hash, w.process, input)[..k]))
    ensures var effects := EffectsOf(hash, w.process, input);
            var file := File(w.trace + AllDid(effects[..k + 1]) + [SaveRaised]);
            && file.Some? && Loadable(hash, file.value) && file.value.fingerprint == w.process.cfg.fingerprint
            && file.value.pending == Some(effects[k].vector)
  {
    SomeEffectsSafe(hash, body, w, input, k);
    SentThenRaised(w.trace, EffectsOf(hash, w.process, input), k);
  }

  lemma SentThenRaised(trace: seq<TraceEntry>, effects: seq<Effect>, k: nat)
    requires k < |effects| && effects[k].Sent?
    ensures File(trace + AllDid(effects[..k + 1]) + [SaveRaised]) == File(trace + AllDid(effects[..k]))
  {
    TraceAppend(trace + AllDid(effects[..k]), Did(effects[k]));
    assert trace + AllDid(effects[..k + 1]) == trace + AllDid(effects[..k]) + [Did(effects[k])];
    TraceAppend(trace + AllDid(effects[..k + 1]), SaveRaised);
  }

  /** Whatever the chain answered, a success or an ambiguous failure included: when the save that records the
      outcome of a submission raises, no save before it having raised since the last that succeeded, and the
      process ends, the file still holds the vector as it was sent, and a restart sends it again at the first tick
      that could submit, exactly unless it was already called ambiguous and there is no flag. */
  lemma UnrecordedOutcomeResends(hash: Hash, body: ReportBody, events: seq<FaultyEvent>, input: TickInput, k: nat,
                                 restart: Mode, secret: seq<Byte>, later: TickInput)
    requires FaultySound(events, body) && DocumentsSound(input, body) && restart.broadcast
    requires AfterFaulty(hash, events).process.Up? && AfterFaulty(hash, events).process.cfg.roundBlocks > 0
    requires var w := AfterFaulty(hash, events);
             var effects := EffectsOf(hash, w.process, input);
             && k + 1 < |effects| && effects[k].Sent? && effects[k + 1].Saved?
             && !SaveLost(w.trace + AllDid(effects[..k]))
    requires var g := Unrecorded(hash, AfterFaulty(hash, events), input, k + 1);
             File(g.trace).Some? && WouldSend(File(g.trace).value, AfterFaulty(hash, events).process.cfg, later)
    ensures var p := AfterFaulty(hash, events).process;
            var sent := EffectsOf(hash, p, input)[k].vector;
            var g := Unrecorded(hash, AfterFaulty(hash, events), input, k + 1);
            var started := NextFaulty(hash, g, Plain(Start(p.cfg, restart, false, secret)));
            var again := NextFaulty(hash, started, Plain(FullTick(later)));
            && g.process.Down? && FileHolds(g.trace, sent)
            && TraceSendsAgainUnlessHeld(g.trace, again.trace, sent, restart.retryAmbiguous)
  {
    var w := AfterFaulty(hash, events);
    var effects := EffectsOf(hash, w.process, input);
    RunSafe(hash, body, events);
    FileBehindFaultySending(hash, body, w, input, k);
    UnrecordedWorld(hash, w, input, k + 1);
    ResendFromFile(hash, w.trace + AllDid(effects[..k + 1]) + [SaveRaised], effects[k].vector, w.process.cfg, restart,
                   secret, later);
  }
}
