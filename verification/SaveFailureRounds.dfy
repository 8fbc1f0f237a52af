/** Over the runs of the validator in which saving may also raise, a round has one vector as long as no start finds
    a file that is behind what was sent. */
module SaveFailureRounds {
  import opened Prelude
  import opened Metagraphs
  import opened SaveFailures
  import opened SubmissionState
  import opened Validator
  import opened ValidatorPaths
  import opened ValidatorRuns
  import opened ValidatorSafety

  function RoundIn(v: PendingVector, roundOf: RoundOf): int {
    if v.provenance.Some? then roundOf(v.provenance.value) else -1
  }

  predicate SentAt(trace: seq<TraceEntry>, k: int) {
    0 <= k < |trace| && trace[k].Did? && trace[k].effect.Sent?
  }

  /** A state with a pending vector of the same round has this one. */
  predicate Agrees(v: PendingVector, s: State, roundOf: RoundOf) {
    s.pending.Some? && RoundIn(v, roundOf) == s.lastCompletedRound ==> SameVector(v, s.pending.value)
  }

  ghost predicate AllAgree(trace: seq<TraceEntry>, s: State, roundOf: RoundOf) {
    forall k :: SentAt(trace, k) ==> Agrees(trace[k].effect.vector, s, roundOf)
  }

  /** The state is not behind any vector sent. */
  ghost predicate NotBehind(trace: seq<TraceEntry>, s: State, roundOf: RoundOf) {
    forall k :: SentAt(trace, k) ==> RoundIn(trace[k].effect.vector, roundOf) <= s.lastCompletedRound
  }

  ghost predicate OneEach(trace: seq<TraceEntry>, roundOf: RoundOf) {
    forall i, j :: i < j && SentAt(trace, i) && SentAt(trace, j)
                   && RoundIn(trace[i].effect.vector, roundOf) == RoundIn(trace[j].effect.vector, roundOf)
      ==> SameVector(trace[i].effect.vector, trace[j].effect.vector)
  }

  /** The file is not ahead of the memory, and in the same round they have no two vectors. */
  predicate Trails(file: State, m: State) {
    && file.lastCompletedRound <= m.lastCompletedRound
    && (file.lastCompletedRound == m.lastCompletedRound && file.pending.Some? && m.pending.Some? ==>
          SameVector(file.pending.value, m.pending.value))
  }

  /** The memory of a running process, and the file, against what was sent. */
  ghost predicate MemoryOfRound(trace: seq<TraceEntry>, m: State, fingerprint: string, roundOf: RoundOf) {
    && OneEach(trace, roundOf) && NotBehind(trace, m, roundOf) && AllAgree(trace, m, roundOf)
    && m.fingerprint == fingerprint && Named(m, roundOf)
    && File(trace).Some? && AllAgree(trace, File(trace).value, roundOf) && Trails(File(trace).value, m)
    && File(trace).value.fingerprint == fingerprint && Named(File(trace).value, roundOf)
  }

  /** While no save has raised since the last that succeeded, the file has the memory's vector and keeps up too. */
  ghost predicate MemoryInRound(trace: seq<TraceEntry>, m: State, fingerprint: string, roundOf: RoundOf) {
    && MemoryOfRound(trace, m, fingerprint, roundOf)
    && (!SaveLost(trace) ==>
          File(trace).value.pending == m.pending && NotBehind(trace, File(trace).value, roundOf))
  }

  ghost predicate InRounds(w: FaultyWorld, fingerprint: string, roundOf: RoundOf) {
    && OneEach(w.trace, roundOf)
    && (w.process.Up? ==>
          w.process.cfg.roundBlocks > 0 && MemoryInRound(w.trace, w.process.memory, fingerprint, roundOf))
    && (if File(w.trace).Some? then
          && AllAgree(w.trace, File(w.trace).value, roundOf) && File(w.trace).value.fingerprint == fingerprint
          && Named(File(w.trace).value, roundOf)
          && (!SaveLost(w.trace) ==> NotBehind(w.trace, File(w.trace).value, roundOf))
        else forall k :: !SentAt(w.trace, k))
  }

  lemma OtherEntry(trace: seq<TraceEntry>, e: TraceEntry, roundOf: RoundOf)
    requires !(e.Did? && e.effect.Sent?)
    ensures OneEach(trace, roundOf) ==> OneEach(trace + [e], roundOf)
    ensures forall s :: NotBehind(trace + [e], s, roundOf) == NotBehind(trace, s, roundOf)
    ensures forall s :: AllAgree(trace + [e], s, roundOf) == AllAgree(trace, s, roundOf)
  {
    var more := trace + [e];
    assert forall k :: SentAt(more, k) <==> SentAt(trace, k);
    assert forall k :: SentAt(trace, k) ==> more[k] == trace[k];
  }

  /** What a change of the memory keeps of what was sent before it. */
  lemma ChangeInRound(trace: seq<TraceEntry>, m: State, t: State, cfg: Config, input: TickInput, fingerprint: string,
                      roundOf: RoundOf)
    requires cfg.roundBlocks > 0 && Changes(m, t, cfg, input) && NamesItsRound(cfg, input, roundOf)
    requires MemoryOfRound(trace, m, fingerprint, roundOf)
    ensures MemoryOfRound(trace, t, fingerprint, roundOf)
  {
    NamedAfter(m, t, cfg, input, roundOf);
  }

  lemma SaveInRound(trace: seq<TraceEntry>, m: State, t: State, retry: bool, cfg: Config, input: TickInput,
                    fingerprint: string, roundOf: RoundOf)
    requires cfg.roundBlocks > 0 && Changes(m, t, cfg, input) && NamesItsRound(cfg, input, roundOf)
    requires MemoryInRound(trace, m, fingerprint, roundOf)
    ensures MemoryInRound(trace + [Did(Saved(t, retry))], t, fingerprint, roundOf)
  {
    ChangeInRound(trace, m, t, cfg, input, fingerprint, roundOf);
    OtherEntry(trace, Did(Saved(t, retry)), roundOf);
    TraceAppend(trace, Did(Saved(t, retry)));
  }

  lemma RaiseInRound(trace: seq<TraceEntry>, m: State, t: State, cfg: Config, input: TickInput, fingerprint: string,
                     roundOf: RoundOf)
    requires cfg.roundBlocks > 0 && Changes(m, t, cfg, input) && NamesItsRound(cfg, input, roundOf)
    requires MemoryInRound(trace, m, fingerprint, roundOf)
    ensures MemoryInRound(trace + [SaveRaised], t, fingerprint, roundOf)
  {
    ChangeInRound(trace, m, t, cfg, input, fingerprint, roundOf);
    OtherEntry(trace, SaveRaised, roundOf);
    TraceAppend(trace, SaveRaised);
  }

  lemma SendInRound(trace: seq<TraceEntry>, m: State, e: Effect, fingerprint: string, roundOf: RoundOf)
    requires MemoryInRound(trace, m, fingerprint, roundOf) && e.Sent? && m.pending == Some(e.vector)
    ensures MemoryInRound(trace + [Did(e)], m, fingerprint, roundOf)
  {
    var more := trace + [Did(e)];
    TraceAppend(trace, Did(e));
    assert more[|trace|] == Did(e);
    assert forall k :: SentAt(more, k) && k < |trace| ==> SentAt(trace, k) && more[k] == trace[k];
    assert RoundIn(e.vector, roundOf) == m.lastCompletedRound;
    assert Agrees(e.vector, File(trace).value, roundOf);
  }

  lemma SettlesInRound(trace: seq<TraceEntry>, m: State, final: State, fingerprint: string, roundOf: RoundOf)
    requires MemoryInRound(trace, m, fingerprint, roundOf) && Settles(m, final)
    ensures MemoryInRound(trace, final, fingerprint, roundOf)
  {
  }

  lemma {:induction false} EffectsInRound(trace: seq<TraceEntry>, m: State, effects: seq<Effect>, final: State,
                                         cfg: Config, input: TickInput, fingerprint: string, roundOf: RoundOf)
    requires cfg.roundBlocks > 0 && NamesItsRound(cfg, input, roundOf) && Path(m, effects, final, cfg, input)
    requires MemoryInRound(trace, m, fingerprint, roundOf)
    ensures MemoryInRound(trace + AllDid(effects), final, fingerprint, roundOf)
    decreases |effects|
  {
    if effects == [] {
      assert trace + AllDid(effects) == trace;
      SettlesInRound(trace, m, final, fingerprint, roundOf);
    } else {
      var e := effects[0];
      if e.Saved? {
        SaveInRound(trace, m, e.state, e.retry, cfg, input, fingerprint, roundOf);
      } else {
        SendInRound(trace, m, e, fingerprint, roundOf);
      }
      var next := if e.Saved? then e.state else m;
      EffectsInRound(trace + [Did(e)], next, effects[1..], final, cfg, input, fingerprint, roundOf);
      AllDidFirst(effects);
      assert trace + [Did(e)] + AllDid(effects[1..]) == trace + ([Did(e)] + AllDid(effects[1..]));
    }
  }

  lemma TickInRounds(hash: Hash, w: FaultyWorld, input: TickInput, fingerprint: string, roundOf: RoundOf)
    requires InRounds(w, fingerprint, roundOf) && w.process.Up? && NamesItsRound(w.process.cfg, input, roundOf)
    ensures InRounds(NextFaulty(hash, w, Plain(FullTick(input))), fingerprint, roundOf)
  {
    var p := w.process;
    var o := Tick(hash, p.memory, p.cfg, p.mode, p.lastDryRun, input);
    TickIsPath(hash, p.memory, p.cfg, p.mode, p.lastDryRun, input);
    EffectsInRound(w.trace, p.memory, o.effects, o.state, p.cfg, input, fingerprint, roundOf);
  }

  lemma SomeEffectsInRounds(hash: Hash, w: FaultyWorld, input: TickInput, k: nat, fingerprint: string, roundOf: RoundOf)
    requires InRounds(w, fingerprint, roundOf) && w.process.Up? && NamesItsRound(w.process.cfg, input, roundOf)
    requires k < |EffectsOf(hash, w.process, input)|
    ensures var effects := EffectsOf(hash, w.process, input);
            var (after, m) := (w.trace + AllDid(effects[..k]), MemoryAfter(w.process.memory, effects[..k]));
            && MemoryInRound(after, m, fingerprint, roundOf)
            && (effects[k].Saved? ==> Changes(m, effects[k].state, w.process.cfg, input))
  {
    var p := w.process;
    var o := Tick(hash, p.memory, p.cfg, p.mode, p.lastDryRun, input);
    TickIsPath(hash, p.memory, p.cfg, p.mode, p.lastDryRun, input);
    PathAt(p.memory, o.effects, o.state, p.cfg, input, k);
    EffectsInRound(w.trace, p.memory, o.effects[..k], MemoryAfter(p.memory, o.effects[..k]), p.cfg, input, fingerprint,
                   roundOf);
  }

  lemma CrashInRounds(hash: Hash, w: FaultyWorld, input: TickInput, done: nat, fingerprint: string, roundOf: RoundOf)
    requires InRounds(w, fingerprint, roundOf) && w.process.Up? && NamesItsRound(w.process.cfg, input, roundOf)
    ensures InRounds(NextFaulty(hash, w, Plain(CrashedTick(input, done))), fingerprint, roundOf)
  {
    var effects := EffectsOf(hash, w.process, input);
    if done < |effects| {
      SomeEffectsInRounds(hash, w, input, done, fingerprint, roundOf);
    } else {
      TickInRounds(hash, w, input, fingerprint, roundOf);
      assert effects[..|effects|] == effects;
    }
  }

  lemma RaisedInRounds(hash: Hash, w: FaultyWorld, input: TickInput, k: nat, fingerprint: string, roundOf: RoundOf)
    requires InRounds(w, fingerprint, roundOf) && w.process.Up? && NamesItsRound(w.process.cfg, input, roundOf)
    ensures InRounds(NextFaulty(hash, w, RaisedSave(input, k)), fingerprint, roundOf)
  {
    var effects := EffectsOf(hash, w.process, input);
    if k < |effects| && effects[k].Saved? {
      SomeEffectsInRounds(hash, w, input, k, fingerprint, roundOf);
      RaiseInRound(w.trace + AllDid(effects[..k]), MemoryAfter(w.process.memory, effects[..k]), effects[k].state,
                   w.process.cfg, input, fingerprint, roundOf);
    }
  }

  /** A start under the run's one configuration that does not find a file behind what was sent. */
  ghost predicate StartsInRound(w: FaultyWorld, e: FaultyEvent, fingerprint: string, roundOf: RoundOf) {
    w.process.Down? && e.Plain? && e.event.Start? ==>
      && e.event.cfg.fingerprint == fingerprint
      && (File(w.trace).Some? ==> NotBehind(w.trace, File(w.trace).value, roundOf))
  }

  lemma FreshInRound(trace: seq<TraceEntry>, blank: State, retry: bool, roundOf: RoundOf)
    requires (forall k :: !SentAt(trace, k)) && blank.pending.None?
    ensures MemoryInRound(trace + [Did(Saved(blank, retry))] + [Began], blank, blank.fingerprint, roundOf)
  {
    var saved := trace + [Did(Saved(blank, retry))];
    OtherEntry(trace, Did(Saved(blank, retry)), roundOf);
    OtherEntry(saved, Began, roundOf);
    TraceAppend(trace, Did(Saved(blank, retry)));
    TraceAppend(saved, Began);
  }

  lemma AgainInRound(trace: seq<TraceEntry>, file: State, roundOf: RoundOf)
    requires File(trace) == Some(file) && OneEach(trace, roundOf) && AllAgree(trace, file, roundOf)
    requires NotBehind(trace, file, roundOf) && Named(file, roundOf)
    ensures MemoryInRound(trace + [Began], file, file.fingerprint, roundOf)
  {
    OtherEntry(trace, Began, roundOf);
    TraceAppend(trace, Began);
  }

  /** The world a start leads to: with a new file, with the file as it was, or down. */
  lemma StartedWorld(hash: Hash, trace: seq<TraceEntry>, cfg: Config, mode: Mode, allowChange: bool, secret: seq<Byte>)
    requires File(trace).Some? ==> File(trace).value.fingerprint == cfg.fingerprint
    ensures var w := NextStarted(hash, trace, cfg, mode, allowChange, secret);
            var blank := FreshState(cfg.fingerprint, secret);
            var saved := if File(trace).None? then trace + [Did(Saved(blank, mode.retryAmbiguous))] else trace;
            var memory := File(trace).GetOr(blank);
            || w == FaultyWorld(saved, Down)
            || (cfg.roundBlocks > 0 && w == FaultyWorld(saved + [Began], Up(memory, cfg, mode, None)))
  {
    var loaded := LoadOrCreate(hash, File(trace), cfg.fingerprint, allowChange, secret);
    StartedTrace(trace, loaded.saves, mode.retryAmbiguous);
  }

  lemma StartInRounds(hash: Hash, trace: seq<TraceEntry>, cfg: Config, mode: Mode, allowChange: bool, secret: seq<Byte>,
                      roundOf: RoundOf)
    requires InRounds(FaultyWorld(trace, Down), cfg.fingerprint, roundOf)
    requires File(trace).Some? ==> NotBehind(trace, File(trace).value, roundOf)
    ensures InRounds(NextStarted(hash, trace, cfg, mode, allowChange, secret), cfg.fingerprint, roundOf)
  {
    StartedWorld(hash, trace, cfg, mode, allowChange, secret);
    if File(trace).None? {
      var blank := FreshState(cfg.fingerprint, secret);
      FreshInRound(trace, blank, mode.retryAmbiguous, roundOf);
      OtherEntry(trace, Did(Saved(blank, mode.retryAmbiguous)), roundOf);
      TraceAppend(trace, Did(Saved(blank, mode.retryAmbiguous)));
    } else {
      AgainInRound(trace, File(trace).value, roundOf);
    }
  }

  lemma NextInRounds(hash: Hash, w: FaultyWorld, e: FaultyEvent, fingerprint: string, roundOf: RoundOf)
    requires InRounds(w, fingerprint, roundOf) && Sound(w, e, roundOf) && StartsInRound(w, e, fingerprint, roundOf)
    ensures InRounds(NextFaulty(hash, w, e), fingerprint, roundOf)
  {
    match e {
      case Plain(Start(cfg, mode, allowChange, secret)) =>
        if w.process.Down? {
          StartInRounds(hash, w.trace, cfg, mode, allowChange, secret, roundOf);
        }
      case Plain(FullTick(input)) =>
        if w.process.Up? {
          TickInRounds(hash, w, input, fingerprint, roundOf);
        }
      case Plain(CrashedTick(input, done)) =>
        if w.process.Up? {
          CrashInRounds(hash, w, input, done, fingerprint, roundOf);
        }
      case Plain(Kill) =>
      case RaisedSave(input, k) =>
        if w.process.Up? {
          RaisedInRounds(hash, w, input, k, fingerprint, roundOf);
        }
    }
  }

  /** Every start of the run is under one configuration and does not find a file behind what was sent. */
  ghost predicate NeverBehind(hash: Hash, events: seq<FaultyEvent>, fingerprint: string, roundOf: RoundOf) {
    forall i :: 0 <= i < |events| ==> StartsInRound(AfterFaulty(hash, events[..i]), events[i], fingerprint, roundOf)
  }

  lemma {:induction false} RunInRounds(hash: Hash, events: seq<FaultyEvent>, fingerprint: string, roundOf: RoundOf)
    requires FaultyRunSound(hash, events, roundOf) && NeverBehind(hash, events, fingerprint, roundOf)
    ensures InRounds(AfterFaulty(hash, events), fingerprint, roundOf)
  {
    if events != [] {
      var front := events[..|events| - 1];
      forall i | 0 <= i < |front|
        ensures Sound(AfterFaulty(hash, front[..i]), front[i], roundOf)
        ensures StartsInRound(AfterFaulty(hash, front[..i]), front[i], fingerprint, roundOf)
      {
        assert front[..i] == events[..i];
      }
      RunInRounds(hash, front, fingerprint, roundOf);
      NextInRounds(hash, AfterFaulty(hash, front), events[|events| - 1], fingerprint, roundOf);
    }
  }

  /** Over every run under one configuration, saves that raise included, two vectors sent for one round are the same,
      as long as no start finds a file that is behind a vector already sent. */
  lemma OneVectorPerRoundUnlessBehind(hash: Hash, events: seq<FaultyEvent>, fingerprint: string, roundOf: RoundOf,
                                      i: nat, j: nat)
    requires FaultyRunSound(hash, events, roundOf) && NeverBehind(hash, events, fingerprint, roundOf)
    requires var trace := AfterFaulty(hash, events).trace;
             && i < j && SentAt(trace, i) && SentAt(trace, j)
             && RoundIn(trace[i].effect.vector, roundOf) == RoundIn(trace[j].effect.vector, roundOf)
    ensures var trace := AfterFaulty(hash, events).trace; SameVector(trace[i].effect.vector, trace[j].effect.vector)
  {
    RunInRounds(hash, events, fingerprint, roundOf);
  }

  predicate StartsUnlost(w: FaultyWorld, e: FaultyEvent, fingerprint: string) {
    w.process.Down? && e.Plain? && e.event.Start? ==> e.event.cfg.fingerprint == fingerprint && !SaveLost(w.trace)
  }

  /** Every start is under one configuration, with no save having raised since the last that succeeded. */
  predicate NoSaveLost(hash: Hash, events: seq<FaultyEvent>, fingerprint: string) {
    forall i :: 0 <= i < |events| ==> StartsUnlost(AfterFaulty(hash, events[..i]), events[i], fingerprint)
  }

  lemma UnlostIsNotBehind(w: FaultyWorld, e: FaultyEvent, fingerprint: string, roundOf: RoundOf)
    requires InRounds(w, fingerprint, roundOf) && StartsUnlost(w, e, fingerprint)
    ensures StartsInRound(w, e, fingerprint, roundOf)
  {
  }

  /** A start finds a file that is behind only when the process before it ended with a save that had raised and was
      not made good. */
  lemma {:induction false} BehindOnlyAfterALostSave(hash: Hash, events: seq<FaultyEvent>, fingerprint: string,
                                                   roundOf: RoundOf)
    requires FaultyRunSound(hash, events, roundOf) && NoSaveLost(hash, events, fingerprint)
    ensures NeverBehind(hash, events, fingerprint, roundOf)
  {
    if events != [] {
      var front, last := events[..|events| - 1], events[|events| - 1];
      assert forall i :: 0 <= i < |front| ==> front[..i] == events[..i];
      BehindOnlyAfterALostSave(hash, front, fingerprint, roundOf);
      RunInRounds(hash, front, fingerprint, roundOf);
      UnlostIsNotBehind(AfterFaulty(hash, front), last, fingerprint, roundOf);
      NeverBehindMore(hash, front, last, fingerprint, roundOf);
      assert front + [last] == events;
    }
  }

  lemma NeverBehindMore(hash: Hash, front: seq<FaultyEvent>, last: FaultyEvent, fingerprint: string, roundOf: RoundOf)
    requires NeverBehind(hash, front, fingerprint, roundOf)
    requires StartsInRound(AfterFaulty(hash, front), last, fingerprint, roundOf)
    ensures NeverBehind(hash, front + [last], fingerprint, roundOf)
  {
    var events := front + [last];
    forall i | 0 <= i < |events|
      ensures StartsInRound(AfterFaulty(hash, events[..i]), events[i], fingerprint, roundOf)
    {
      assert events[..i] == if i < |front| then front[..i] else front;
    }
  }

  /** What a tick would do to a state if its block's round were new to it. */
  function AsNewRound(hash: Hash, file: State, cfg: Config, mode: Mode, input: TickInput): Outcome
    requires cfg.roundBlocks > 0 && input.block.Got? && input.metagraph.Got?
    requires SnapshotPeers(input.metagraph.value).Some?
  {
    EvaluateRound(hash, file, cfg, mode, None, input, SnapshotPeers(input.metagraph.value).value,
                  input.block.value / cfg.roundBlocks)
  }

  /** A file that is behind is what lets a round have another vector: after a restart, a tick of that round that has
      a vector to make makes it, for that round again, exactly when the file is behind it; otherwise it does nothing. */
  lemma RoundComesAgainExactlyWhenBehind(hash: Hash, trace: seq<TraceEntry>, file: State, cfg: Config, mode: Mode,
                                         secret: seq<Byte>, input: TickInput)
    requires File(trace) == Some(file) && Loadable(hash, file) && file.fingerprint == cfg.fingerprint
    requires file.pending.None?
    requires cfg.roundBlocks > 0 && mode.broadcast && input.block.Got? && input.metagraph.Got?
    requires SnapshotPeers(input.metagraph.value).Some?
    requires var made := AsNewRound(hash, file, cfg, mode, input).effects;
             made != [] && made[0].Saved? && made[0].state.pending.Some?
    ensures var started := NextFaulty(hash, FaultyWorld(trace, Down), Plain(Start(cfg, mode, false, secret)));
            var after := NextFaulty(hash, started, Plain(FullTick(input)));
            var round := input.block.value / cfg.roundBlocks;
            && started.trace == trace + [Began] && started.process.Up?
            && (if file.lastCompletedRound < round then
                  && |after.trace| > |started.trace| && after.trace[|started.trace|].Did?
                  && after.trace[|started.trace|].effect.Saved?
                  && var t := after.trace[|started.trace|].effect.state;
                     t.lastCompletedRound == round && t.pending.Some? && MadeFrom(t.pending.value, input)
                else after == started)
  {
    RestartedTrace(hash, trace, file, cfg, mode, secret, input);
    var started := NextFaulty(hash, FaultyWorld(trace, Down), Plain(Start(cfg, mode, false, secret)));
    assert trace + AllDid(SavedAs([], mode.retryAmbiguous)) == trace;
    assert started == FaultyWorld(trace + [Began], Up(file, cfg, mode, None));
    var o := Tick(hash, file, cfg, mode, None, input);
    TickIsPath(hash, file, cfg, mode, None, input);
    if o.effects != [] {
      PathAt(file, o.effects, o.state, cfg, input, 0);
    } else {
      assert started.trace + AllDid([]) == started.trace;
    }
  }
}
