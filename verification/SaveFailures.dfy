/** Runs of the validator in which saving may also raise. The loop carries on after that: the memory keeps
    what was to be saved, the file stays as it was, and the rest of the tick does not happen
    (`cathedral_thin/validator.py`, `cathedral_thin/core.py`). */
module SaveFailures {
  import opened Prelude
  import opened SubmissionState
  import opened Validator
  import opened ValidatorPaths
  import opened ValidatorRuns
  import opened ValidatorSafety

  /** What a run leaves behind: effects, saves that raised, and the moments a process began. */
  datatype TraceEntry = Did(effect: Effect) | SaveRaised | Began

  datatype FaultyWorld = FaultyWorld(trace: seq<TraceEntry>, process: Process)

  /** `RaisedSave(input, k)` is a tick whose effect `k` is a save that raises. */
  datatype FaultyEvent = Plain(event: Event) | RaisedSave(input: TickInput, k: nat)

  function File(trace: seq<TraceEntry>): Option<State> {
    if trace == [] then None
    else
      match trace[|trace| - 1]
      case Did(Saved(s, _)) => Some(s)
      case _ => File(trace[..|trace| - 1])
  }

  /** A save has raised since the last one that succeeded, in this process. */
  predicate SaveLost(trace: seq<TraceEntry>) {
    if trace == [] then false
    else
      match trace[|trace| - 1]
      case Did(Saved(_, _)) => false
      case Did(Sent(_, _, _, _, _, _)) => SaveLost(trace[..|trace| - 1])
      case SaveRaised => true
      case Began => false
  }

  function AllDid(effects: seq<Effect>): seq<TraceEntry> {
    seq(|effects|, i requires 0 <= i < |effects| => Did(effects[i]))
  }

  function NextStarted(hash: Hash, trace: seq<TraceEntry>, cfg: Config, mode: Mode, allowChange: bool,
                       secret: seq<Byte>): FaultyWorld
  {
    var loaded := LoadOrCreate(hash, File(trace), cfg.fingerprint, allowChange, secret);
    var saved := trace + AllDid(SavedAs(loaded.saves, mode.retryAmbiguous));
    if loaded.result.Ok? && cfg.roundBlocks > 0
      then FaultyWorld(saved + [Began], Up(loaded.result.value, cfg, mode, None))
    else FaultyWorld(saved, Down)
  }

  function NextRaised(hash: Hash, w: FaultyWorld, input: TickInput, k: nat): FaultyWorld
    requires w.process.Up? && w.process.cfg.roundBlocks > 0
  {
    var effects := EffectsOf(hash, w.process, input);
    if k < |effects| && effects[k].Saved? then
      FaultyWorld(w.trace + AllDid(effects[..k]) + [SaveRaised], w.process.(memory := effects[k].state))
    else w
  }

  function NextFaulty(hash: Hash, w: FaultyWorld, e: FaultyEvent): FaultyWorld {
    match (w.process, e)
    case (Down, Plain(Start(cfg, mode, allowChange, secret))) =>
      NextStarted(hash, w.trace, cfg, mode, allowChange, secret)
    case (Up(memory, cfg, mode, lastDryRun), Plain(FullTick(input))) =>
      if cfg.roundBlocks == 0 then w
      else
        var o := Tick(hash, memory, cfg, mode, lastDryRun, input);
        FaultyWorld(w.trace + AllDid(o.effects), Up(o.state, cfg, mode, o.lastDryRun))
    case (Up(_, cfg, _, _), Plain(CrashedTick(input, done))) =>
      if cfg.roundBlocks == 0 then w
      else
        var effects := EffectsOf(hash, w.process, input);
        FaultyWorld(w.trace + AllDid(effects[..if done < |effects| then done else |effects|]), Down)
    case (Up(_, _, _, _), Plain(Kill)) => w.(process := Down)
    case (Up(_, cfg, _, _), RaisedSave(input, k)) => if cfg.roundBlocks == 0 then w else NextRaised(hash, w, input, k)
    case _ => w
  }

  function AfterFaulty(hash: Hash, events: seq<FaultyEvent>): FaultyWorld {
    if events == [] then FaultyWorld([], Down)
    else NextFaulty(hash, AfterFaulty(hash, events[..|events| - 1]), events[|events| - 1])
  }

  // ---------------------------------------------------------------------------------------------
  // The file against the memory.

  /** The decision a digest was taken over names its round. */
  type RoundOf = Digest -> int

  predicate NamesItsRound(cfg: Config, input: TickInput, roundOf: RoundOf)
    requires cfg.roundBlocks > 0
  {
    input.block.Got? ==> roundOf(input.decisionDigest) == input.block.value / cfg.roundBlocks
  }

  predicate Named(s: State, roundOf: RoundOf) {
    s.pending.Some? ==>
      s.pending.value.provenance.Some? && roundOf(s.pending.value.provenance.value) == s.lastCompletedRound
  }

  /** Equal pending vectors as long as no save has raised; afterwards the memory is of a later round, or has
      seen more failures of the same one. */
  predicate InLine(file: Option<State>, m: State, raised: bool, roundOf: RoundOf) {
    && file.Some? && Named(file.value, roundOf) && Named(m, roundOf)
    && file.value.lastCompletedRound <= m.lastCompletedRound
    && (!raised ==> file.value.pending == m.pending)
    && (raised && file.value.pending.Some? && m.pending.Some? ==>
          file.value.lastCompletedRound < m.lastCompletedRound
          || file.value.pending.value.attempts < m.pending.value.attempts)
  }

  predicate FileHolds(trace: seq<TraceEntry>, v: PendingVector) {
    File(trace).Some? && File(trace).value.pending == Some(v)
  }

  predicate EntryOk(before: seq<TraceEntry>, e: TraceEntry) {
    e.Did? && e.effect.Sent? ==> (FileHolds(before, e.effect.vector) <==> !SaveLost(before))
  }

  predicate TraceOk(trace: seq<TraceEntry>) {
    trace == [] || (TraceOk(trace[..|trace| - 1]) && EntryOk(trace[..|trace| - 1], trace[|trace| - 1]))
  }

  predicate FaultyOk(w: FaultyWorld, roundOf: RoundOf) {
    && TraceOk(w.trace)
    && (File(w.trace).Some? ==> Named(File(w.trace).value, roundOf))
    && (w.process.Up? ==>
          w.process.cfg.roundBlocks > 0 && InLine(File(w.trace), w.process.memory, SaveLost(w.trace), roundOf))
  }

  lemma TraceAppend(trace: seq<TraceEntry>, e: TraceEntry)
    ensures TraceOk(trace + [e]) <==> TraceOk(trace) && EntryOk(trace, e)
    ensures File(trace + [e]) == if e.Did? && e.effect.Saved? then Some(e.effect.state) else File(trace)
    ensures SaveLost(trace + [e]) == (e.SaveRaised? || (e.Did? && e.effect.Sent? && SaveLost(trace)))
  {
    assert (trace + [e])[..|trace|] == trace;
  }

  lemma NamedAfter(m: State, t: State, cfg: Config, input: TickInput, roundOf: RoundOf)
    requires cfg.roundBlocks > 0 && Changes(m, t, cfg, input) && Named(m, roundOf) && NamesItsRound(cfg, input, roundOf)
    ensures Named(t, roundOf)
  {
  }

  lemma SaveRaises(file: Option<State>, m: State, t: State, raised: bool, cfg: Config, input: TickInput,
                   roundOf: RoundOf)
    requires cfg.roundBlocks > 0 && Changes(m, t, cfg, input) && NamesItsRound(cfg, input, roundOf)
    requires InLine(file, m, raised, roundOf)
    ensures InLine(file, t, true, roundOf)
  {
    NamedAfter(m, t, cfg, input, roundOf);
  }

  lemma HeldExactlyUnlessRaised(file: Option<State>, m: State, raised: bool, roundOf: RoundOf)
    requires InLine(file, m, raised, roundOf) && m.pending.Some?
    ensures file.value.pending == m.pending <==> !raised
  {
  }

  lemma AllDidFirst(effects: seq<Effect>)
    requires effects != []
    ensures AllDid(effects) == [Did(effects[0])] + AllDid(effects[1..])
  {
  }

  lemma {:induction false} EffectsInLine(trace: seq<TraceEntry>, m: State, effects: seq<Effect>, final: State,
                                         cfg: Config, input: TickInput, roundOf: RoundOf)
    requires cfg.roundBlocks > 0 && NamesItsRound(cfg, input, roundOf) && Path(m, effects, final, cfg, input)
    requires TraceOk(trace) && InLine(File(trace), m, SaveLost(trace), roundOf)
    ensures var after := trace + AllDid(effects); TraceOk(after) && InLine(File(after), final, SaveLost(after), roundOf)
    decreases |effects|
  {
    if effects == [] {
      assert trace + AllDid(effects) == trace;
    } else {
      var e := effects[0];
      TraceAppend(trace, Did(e));
      var next := m;
      if e.Saved? {
        NamedAfter(m, e.state, cfg, input, roundOf);
        next := e.state;
      } else {
        HeldExactlyUnlessRaised(File(trace), m, SaveLost(trace), roundOf);
      }
      EffectsInLine(trace + [Did(e)], next, effects[1..], final, cfg, input, roundOf);
      AllDidFirst(effects);
      assert trace + [Did(e)] + AllDid(effects[1..]) == trace + ([Did(e)] + AllDid(effects[1..]));
    }
  }

  // ---------------------------------------------------------------------------------------------
  // Every event keeps them in line.

  lemma TickInLine(hash: Hash, w: FaultyWorld, input: TickInput, roundOf: RoundOf)
    requires FaultyOk(w, roundOf) && w.process.Up? && NamesItsRound(w.process.cfg, input, roundOf)
    ensures FaultyOk(NextFaulty(hash, w, Plain(FullTick(input))), roundOf)
  {
    var p := w.process;
    var o := Tick(hash, p.memory, p.cfg, p.mode, p.lastDryRun, input);
    TickIsPath(hash, p.memory, p.cfg, p.mode, p.lastDryRun, input);
    EffectsInLine(w.trace, p.memory, o.effects, o.state, p.cfg, input, roundOf);
  }

  /** Any beginning of a tick. */
  lemma SomeEffectsInLine(hash: Hash, w: FaultyWorld, input: TickInput, k: nat, roundOf: RoundOf)
    requires FaultyOk(w, roundOf) && w.process.Up? && NamesItsRound(w.process.cfg, input, roundOf)
    requires k < |EffectsOf(hash, w.process, input)|
    ensures var effects := EffectsOf(hash, w.process, input);
            var (after, m) := (w.trace + AllDid(effects[..k]), MemoryAfter(w.process.memory, effects[..k]));
            && TraceOk(after) && InLine(File(after), m, SaveLost(after), roundOf)
            && (effects[k].Saved? ==> Changes(m, effects[k].state, w.process.cfg, input))
  {
    var p := w.process;
    var effects := EffectsOf(hash, p, input);
    var final := Tick(hash, p.memory, p.cfg, p.mode, p.lastDryRun, input).state;
    TickIsPath(hash, p.memory, p.cfg, p.mode, p.lastDryRun, input);
    PathAt(p.memory, effects, final, p.cfg, input, k);
    EffectsInLine(w.trace, p.memory, effects[..k], MemoryAfter(p.memory, effects[..k]), p.cfg, input, roundOf);
  }

  lemma CrashInLine(hash: Hash, w: FaultyWorld, input: TickInput, done: nat, roundOf: RoundOf)
    requires FaultyOk(w, roundOf) && w.process.Up? && NamesItsRound(w.process.cfg, input, roundOf)
    ensures FaultyOk(NextFaulty(hash, w, Plain(CrashedTick(input, done))), roundOf)
  {
    var effects := EffectsOf(hash, w.process, input);
    if done < |effects| {
      SomeEffectsInLine(hash, w, input, done, roundOf);
    } else {
      TickInLine(hash, w, input, roundOf);
      assert effects[..|effects|] == effects;
    }
  }

  lemma RaisedInLine(hash: Hash, w: FaultyWorld, input: TickInput, k: nat, roundOf: RoundOf)
    requires FaultyOk(w, roundOf) && w.process.Up? && NamesItsRound(w.process.cfg, input, roundOf)
    ensures FaultyOk(NextFaulty(hash, w, RaisedSave(input, k)), roundOf)
  {
    var effects := EffectsOf(hash, w.process, input);
    if k < |effects| && effects[k].Saved? {
      SomeEffectsInLine(hash, w, input, k, roundOf);
      var before := w.trace + AllDid(effects[..k]);
      SaveRaises(File(before), MemoryAfter(w.process.memory, effects[..k]), effects[k].state, SaveLost(before),
                 w.process.cfg, input, roundOf);
      TraceAppend(before, SaveRaised);
    }
  }

  lemma StartedTrace(trace: seq<TraceEntry>, saves: seq<State>, retry: bool)
    requires |saves| <= 1
    ensures var saved := trace + AllDid(SavedAs(saves, retry));
            if saves == [] then saved == trace
            else saved == trace + [Did(Saved(saves[0], retry))] && File(saved) == Some(saves[0])
  {
    var saved := trace + AllDid(SavedAs(saves, retry));
    if saves == [] {
      assert saved == trace;
    } else {
      assert saved == trace + [Did(Saved(saves[0], retry))];
      TraceAppend(trace, Did(Saved(saves[0], retry)));
    }
  }

  lemma BegunInLine(trace: seq<TraceEntry>, t: State, cfg: Config, mode: Mode, roundOf: RoundOf)
    requires TraceOk(trace) && File(trace) == Some(t) && Named(t, roundOf) && cfg.roundBlocks > 0
    ensures FaultyOk(FaultyWorld(trace + [Began], Up(t, cfg, mode, None)), roundOf)
  {
    TraceAppend(trace, Began);
  }

  lemma StartInLine(hash: Hash, trace: seq<TraceEntry>, cfg: Config, mode: Mode, allowChange: bool, secret: seq<Byte>,
                    roundOf: RoundOf)
    requires FaultyOk(FaultyWorld(trace, Down), roundOf)
    ensures FaultyOk(NextStarted(hash, trace, cfg, mode, allowChange, secret), roundOf)
  {
    var loaded := LoadOrCreate(hash, File(trace), cfg.fingerprint, allowChange, secret);
    var saved := trace + AllDid(SavedAs(loaded.saves, mode.retryAmbiguous));
    StartedTrace(trace, loaded.saves, mode.retryAmbiguous);
    if loaded.saves != [] {
      TraceAppend(trace, Did(Saved(loaded.saves[0], mode.retryAmbiguous)));
    }
    assert FaultyOk(FaultyWorld(saved, Down), roundOf);
    if loaded.result.Ok? && cfg.roundBlocks > 0 {
      BegunInLine(saved, loaded.result.value, cfg, mode, roundOf);
    }
  }

  predicate Sound(w: FaultyWorld, e: FaultyEvent, roundOf: RoundOf) {
    w.process.Up? && w.process.cfg.roundBlocks > 0 ==>
      match e
      case Plain(FullTick(input)) => NamesItsRound(w.process.cfg, input, roundOf)
      case Plain(CrashedTick(input, _)) => NamesItsRound(w.process.cfg, input, roundOf)
      case RaisedSave(input, _) => NamesItsRound(w.process.cfg, input, roundOf)
      case _ => true
  }

  lemma NextInLine(hash: Hash, w: FaultyWorld, e: FaultyEvent, roundOf: RoundOf)
    requires FaultyOk(w, roundOf) && Sound(w, e, roundOf)
    ensures FaultyOk(NextFaulty(hash, w, e), roundOf)
  {
    match e {
      case Plain(Start(cfg, mode, allowChange, secret)) =>
        if w.process.Down? {
          StartInLine(hash, w.trace, cfg, mode, allowChange, secret, roundOf);
        }
      case Plain(FullTick(input)) =>
        if w.process.Up? {
          TickInLine(hash, w, input, roundOf);
        }
      case Plain(CrashedTick(input, done)) =>
        if w.process.Up? {
          CrashInLine(hash, w, input, done, roundOf);
        }
      case Plain(Kill) =>
      case RaisedSave(input, k) =>
        if w.process.Up? {
          RaisedInLine(hash, w, input, k, roundOf);
        }
    }
  }

  predicate FaultyRunSound(hash: Hash, events: seq<FaultyEvent>, roundOf: RoundOf) {
    forall i :: 0 <= i < |events| ==> Sound(AfterFaulty(hash, events[..i]), events[i], roundOf)
  }

  lemma {:induction false} RunInLine(hash: Hash, events: seq<FaultyEvent>, roundOf: RoundOf)
    requires FaultyRunSound(hash, events, roundOf)
    ensures FaultyOk(AfterFaulty(hash, events), roundOf)
  {
    if events != [] {
      var front := events[..|events| - 1];
      forall i | 0 <= i < |front|
        ensures Sound(AfterFaulty(hash, front[..i]), front[i], roundOf)
      {
        assert front[..i] == events[..i];
      }
      RunInLine(hash, front, roundOf);
      NextInLine(hash, AfterFaulty(hash, front), events[|events| - 1], roundOf);
    }
  }

  lemma {:induction false} TraceAt(trace: seq<TraceEntry>, k: nat)
    requires TraceOk(trace) && k < |trace|
    ensures EntryOk(trace[..k], trace[k])
    decreases |trace|
  {
    if k < |trace| - 1 {
      TraceAt(trace[..|trace| - 1], k);
      assert trace[..|trace| - 1][..k] == trace[..k];
    }
  }

  /** Over every run, saves that raise included, what is submitted is exactly the vector in the file if and
      only if no save has raised since the last one that succeeded, or since the process began. */
  lemma SubmissionIsFiledExactlyUnlessSaveRaised(hash: Hash, events: seq<FaultyEvent>, roundOf: RoundOf, k: nat)
    requires FaultyRunSound(hash, events, roundOf)
    requires var trace := AfterFaulty(hash, events).trace; k < |trace| && trace[k].Did? && trace[k].effect.Sent?
    ensures var trace := AfterFaulty(hash, events).trace;
            FileHolds(trace[..k], trace[k].effect.vector) <==> !SaveLost(trace[..k])
  {
    RunInLine(hash, events, roundOf);
    TraceAt(AfterFaulty(hash, events).trace, k);
  }

  // ---------------------------------------------------------------------------------------------
  // Runs without such saves are the plain runs.

  function Plainly(events: seq<Event>): seq<FaultyEvent> {
    seq(|events|, i requires 0 <= i < |events| => Plain(events[i]))
  }

  /** The same process, and the same file. */
  predicate Agree(f: FaultyWorld, w: World) {
    f.process == w.process && File(f.trace) == Disk(w.log)
  }

  lemma {:induction false} FileAfterEffects(trace: seq<TraceEntry>, log: seq<Effect>, effects: seq<Effect>)
    requires File(trace) == Disk(log)
    ensures File(trace + AllDid(effects)) == Disk(log + effects)
    decreases |effects|
  {
    if effects == [] {
      assert trace + AllDid(effects) == trace && log + effects == log;
    } else {
      var front, last := effects[..|effects| - 1], effects[|effects| - 1];
      FileAfterEffects(trace, log, front);
      assert trace + AllDid(effects) == trace + AllDid(front) + [Did(last)];
      assert log + effects == log + front + [last];
      TraceAppend(trace + AllDid(front), Did(last));
      assert (log + front + [last])[..|log + front|] == log + front;
    }
  }

  lemma StartAgrees(hash: Hash, f: FaultyWorld, w: World, e: Event)
    requires Agree(f, w) && w.process.Down? && e.Start?
    ensures Agree(NextFaulty(hash, f, Plain(e)), Next(hash, w, e))
  {
    var loaded := LoadOrCreate(hash, Disk(w.log), e.cfg.fingerprint, e.allowChange, e.secret);
    var saves := SavedAs(loaded.saves, e.mode.retryAmbiguous);
    FileAfterEffects(f.trace, w.log, saves);
    TraceAppend(f.trace + AllDid(saves), Began);
  }

  lemma TickAgrees(hash: Hash, f: FaultyWorld, w: World, input: TickInput)
    requires Agree(f, w) && w.process.Up? && w.process.cfg.roundBlocks > 0
    ensures Agree(NextFaulty(hash, f, Plain(FullTick(input))), Next(hash, w, FullTick(input)))
  {
    FileAfterEffects(f.trace, w.log, EffectsOf(hash, w.process, input));
  }

  lemma CrashAgrees(hash: Hash, f: FaultyWorld, w: World, input: TickInput, done: nat)
    requires Agree(f, w) && w.process.Up? && w.process.cfg.roundBlocks > 0
    ensures Agree(NextFaulty(hash, f, Plain(CrashedTick(input, done))), Next(hash, w, CrashedTick(input, done)))
  {
    var effects := EffectsOf(hash, w.process, input);
    FileAfterEffects(f.trace, w.log, effects[..if done < |effects| then done else |effects|]);
  }

  lemma NextAgrees(hash: Hash, f: FaultyWorld, w: World, e: Event)
    requires Agree(f, w)
    ensures Agree(NextFaulty(hash, f, Plain(e)), Next(hash, w, e))
  {
    if w.process.Down? {
      if e.Start? {
        StartAgrees(hash, f, w, e);
      }
    } else if w.process.cfg.roundBlocks > 0 {
      match e {
        case Start(_, _, _, _) =>
        case FullTick(input) => TickAgrees(hash, f, w, input);
        case CrashedTick(input, done) => CrashAgrees(hash, f, w, input, done);
        case Kill =>
      }
    }
  }

  lemma {:induction false} PlainRunsAgree(hash: Hash, events: seq<Event>)
    ensures Agree(AfterFaulty(hash, Plainly(events)), After(hash, events))
  {
    if events != [] {
      var front := events[..|events| - 1];
      PlainRunsAgree(hash, front);
      assert Plainly(events)[..|events| - 1] == Plainly(front);
      NextAgrees(hash, AfterFaulty(hash, Plainly(front)), After(hash, front), events[|events| - 1]);
    }
  }

  // ---------------------------------------------------------------------------------------------
  // An outcome whose record raises.

  /** The record of a submission's outcome raises, and the process ends. */
  function Unrecorded(hash: Hash, w: FaultyWorld, input: TickInput, k: nat): FaultyWorld {
    NextFaulty(hash, NextFaulty(hash, w, RaisedSave(input, k)), Plain(Kill))
  }

  /** The trace goes on with another submission of a vector, exactly unless the vector is called ambiguous
      and there is no flag. */
  predicate TraceSendsAgainUnlessHeld(trace: seq<TraceEntry>, later: seq<TraceEntry>, v: PendingVector, flag: bool) {
    if v.ambiguous && !flag then later == trace + [Began]
    else
      && trace + [Began] < later
      && later[|trace| + 1].Did? && later[|trace| + 1].effect.Sent? && later[|trace| + 1].effect.vector == v
  }

  lemma UnrecordedWorld(hash: Hash, w: FaultyWorld, input: TickInput, k: nat)
    requires w.process.Up? && w.process.cfg.roundBlocks > 0
    requires k < |EffectsOf(hash, w.process, input)| && EffectsOf(hash, w.process, input)[k].Saved?
    ensures Unrecorded(hash, w, input, k)
            == FaultyWorld(w.trace + AllDid(EffectsOf(hash, w.process, input)[..k]) + [SaveRaised], Down)
  {
  }

  lemma RestartedTrace(hash: Hash, trace: seq<TraceEntry>, file: State, cfg: Config, restart: Mode, secret: seq<Byte>,
                       later: TickInput)
    requires File(trace) == Some(file) && cfg.roundBlocks > 0
    requires LoadOrCreate(hash, Some(file), cfg.fingerprint, false, secret) == Loaded(Ok(file), [])
    ensures var started := NextFaulty(hash, FaultyWorld(trace, Down), Plain(Start(cfg, restart, false, secret)));
            NextFaulty(hash, started, Plain(FullTick(later))).trace
            == trace + [Began] + AllDid(Tick(hash, file, cfg, restart, None, later).effects)
  {
    assert trace + AllDid(SavedAs([], restart.retryAmbiguous)) == trace;
  }

  lemma ResendFromFile(hash: Hash, trace: seq<TraceEntry>, sent: PendingVector, cfg: Config, restart: Mode,
                       secret: seq<Byte>, later: TickInput)
    requires File(trace).Some? && Loadable(hash, File(trace).value) && File(trace).value.pending == Some(sent)
    requires File(trace).value.fingerprint == cfg.fingerprint && cfg.roundBlocks > 0
    requires WouldSend(File(trace).value, cfg, later) && restart.broadcast
    ensures var started := NextFaulty(hash, FaultyWorld(trace, Down), Plain(Start(cfg, restart, false, secret)));
            var again := NextFaulty(hash, started, Plain(FullTick(later)));
            TraceSendsAgainUnlessHeld(trace, again.trace, sent, restart.retryAmbiguous)
  {
    var file := File(trace).value;
    RestartSends(hash, file, cfg, restart, secret, later);
    RestartedTrace(hash, trace, file, cfg, restart, secret, later);
    TraceGoesOn(trace, Tick(hash, file, cfg, restart, None, later).effects, sent, restart.retryAmbiguous);
  }

  lemma TraceGoesOn(trace: seq<TraceEntry>, effects: seq<Effect>, v: PendingVector, flag: bool)
    requires if v.ambiguous && !flag then effects == [] else effects != [] && effects[0].Sent? && effects[0].vector == v
    ensures TraceSendsAgainUnlessHeld(trace, trace + [Began] + AllDid(effects), v, flag)
  {
  }

  /** In particular, when the save of a tick's new vector raises and the process carries on, the next tick
      that submits sends a vector that the file does not hold. */
  lemma FailedSaveSendsUnsavedVector(hash: Hash, events: seq<FaultyEvent>, input: TickInput, later: TickInput,
                                     roundOf: RoundOf)
    requires var run := events + [RaisedSave(input, 0), Plain(FullTick(later))]; FaultyRunSound(hash, run, roundOf)
    requires AfterFaulty(hash, events).process.Up? && AfterFaulty(hash, events).process.cfg.roundBlocks > 0
    requires var effects := EffectsOf(hash, AfterFaulty(hash, events).process, input);
             effects != [] && effects[0].Saved? && effects[0].state.pending.Some?
    requires var p := NextFaulty(hash, AfterFaulty(hash, events), RaisedSave(input, 0)).process;
             p.Up? && p.cfg.roundBlocks > 0 && EffectsOf(hash, p, later) != [] && EffectsOf(hash, p, later)[0].Sent?
    ensures var raised := NextFaulty(hash, AfterFaulty(hash, events), RaisedSave(input, 0));
            var last := AfterFaulty(hash, events + [RaisedSave(input, 0), Plain(FullTick(later))]);
            && raised.trace < last.trace
            && last.trace[|raised.trace|] == Did(EffectsOf(hash, raised.process, later)[0])
            && !FileHolds(raised.trace, EffectsOf(hash, raised.process, later)[0].vector)
  {
    var raised := NextFaulty(hash, AfterFaulty(hash, events), RaisedSave(input, 0));
    var run := events + [RaisedSave(input, 0), Plain(FullTick(later))];
    var middle := events + [RaisedSave(input, 0)];
    assert run[..|run| - 1] == middle && middle[..|middle| - 1] == events;
    var last := AfterFaulty(hash, run);
    assert last == NextFaulty(hash, raised, Plain(FullTick(later)));
    var k := |raised.trace|;
    assert last.trace[..k] == raised.trace;
    SubmissionIsFiledExactlyUnlessSaveRaised(hash, run, roundOf, k);
  }
}
