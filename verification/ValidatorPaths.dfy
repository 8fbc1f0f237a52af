/** What the effects of one tick do to the memory behind them, one effect at a time: each saved state is a
    permitted change of the one before, and each vector sent is the pending one. */
module ValidatorPaths {
  import opened Prelude
  import opened Metagraphs
  import opened SubmissionState
  import opened Validator

  /** A vector of the round that a tick evaluates: the weights computed for it under its decision's digest, with
      the hotkeys that the metagraph lists for its UIDs. */
  predicate MadeFrom(p: PendingVector, input: TickInput) {
    && input.vector == Some(Vector(p.uids, p.weights)) && p.provenance == Some(input.decisionDigest)
    && input.metagraph.Got? && SnapshotPeers(input.metagraph.value).Some?
    && HotkeysFor(p.uids, SnapshotPeers(input.metagraph.value).value) == Some(p.hotkeys)
    && p.uids != [] && |p.uids| == |p.weights| == |p.hotkeys| && VectorEntriesValid(p.uids, p.weights, p.hotkeys)
  }

  /** A round that has just completed, with its new vector if it has one. */
  predicate CompletesNow(s: State, t: State, cfg: Config, input: TickInput)
    requires cfg.roundBlocks > 0
  {
    && s.pending.None? && s.lastCompletedRound < t.lastCompletedRound
    && input.block.Got? && t.lastCompletedRound == input.block.value / cfg.roundBlocks
    && (t.pending.Some? ==> t.pending.value.attempts == 0 && MadeFrom(t.pending.value, input))
  }

  predicate FailsNow(s: State, t: State, input: TickInput) {
    && s.pending.Some? && t.pending.Some?
    && t == s.(pending := Some(FailedOnce(s.pending.value, input.nowMs, t.pending.value.ambiguous)))
  }

  predicate Clears(s: State, t: State) {
    s.pending.Some? && (t == s.(pending := None) || t == Confirmed(s))
  }

  predicate Changes(s: State, t: State, cfg: Config, input: TickInput)
    requires cfg.roundBlocks > 0
  {
    t.fingerprint == s.fingerprint && (CompletesNow(s, t, cfg, input) || FailsNow(s, t, input) || Clears(s, t))
  }

  /** What was checked of a vector before it was sent, as its tick read the chain: every UID is of the hotkey
      recorded for it, the registrations are those it is bound to, an ambiguous one has the explicit
      flag, and its retry is due. */
  predicate SentSoundly(e: Effect)
    requires e.Sent?
  {
    && OwnersMatch(e.vector, e.peers)
    && (e.vector.registrationIds != map[] ==> e.current == Some(e.vector.registrationIds))
    && (e.vector.ambiguous ==> e.retry)
    && e.vector.nextRetryAtMs <= e.nowMs
  }

  /** A tick may end with an evaluated round in memory that it did not save. */
  predicate Settles(m: State, final: State) {
    || final == m
    || (m.pending.None? && final.pending.None? && final.fingerprint == m.fingerprint
        && m.lastCompletedRound <= final.lastCompletedRound)
  }

  /** From a memory, through some effects, to a final memory. */
  predicate Path(m: State, effects: seq<Effect>, final: State, cfg: Config, input: TickInput)
    requires cfg.roundBlocks > 0
    decreases |effects|
  {
    if effects == [] then Settles(m, final)
    else
      match effects[0]
      case Saved(t, _) => Changes(m, t, cfg, input) && Path(t, effects[1..], final, cfg, input)
      case Sent(v, _, _, _, _, _) =>
        m.pending == Some(v) && SentSoundly(effects[0]) && Path(m, effects[1..], final, cfg, input)
  }

  /** The memory after some effects. */
  function MemoryAfter(m: State, effects: seq<Effect>): State {
    if effects == [] then m
    else
      match effects[|effects| - 1]
      case Saved(t, _) => t
      case Sent(_, _, _, _, _, _) => MemoryAfter(m, effects[..|effects| - 1])
  }

  lemma SavedPath(m: State, t: State, retry: bool, rest: seq<Effect>, final: State, cfg: Config, input: TickInput)
    requires cfg.roundBlocks > 0 && Changes(m, t, cfg, input) && Path(t, rest, final, cfg, input)
    ensures Path(m, [Saved(t, retry)] + rest, final, cfg, input)
  {
    assert ([Saved(t, retry)] + rest)[1..] == rest;
  }

  lemma SentPath(m: State, sent: Effect, rest: seq<Effect>, final: State, cfg: Config, input: TickInput)
    requires cfg.roundBlocks > 0 && sent.Sent? && m.pending == Some(sent.vector) && SentSoundly(sent)
    requires Path(m, rest, final, cfg, input)
    ensures Path(m, [sent] + rest, final, cfg, input)
  {
    assert ([sent] + rest)[1..] == rest;
  }

  lemma OneSave(m: State, t: State, retry: bool, cfg: Config, input: TickInput)
    requires cfg.roundBlocks > 0 && Changes(m, t, cfg, input)
    ensures Path(m, [Saved(t, retry)], t, cfg, input)
  {
    SavedPath(m, t, retry, [], t, cfg, input);
    assert [Saved(t, retry)] + [] == [Saved(t, retry)];
  }

  lemma FailPath(st: State, ambiguous: bool, retry: bool, cfg: Config, input: TickInput)
    requires cfg.roundBlocks > 0 && st.pending.Some?
    ensures var s := Fail(st, input.nowMs, ambiguous, retry); Path(st, s.effects, s.state, cfg, input)
  {
    OneSave(st, Fail(st, input.nowMs, ambiguous, retry).state, retry, cfg, input);
  }

  lemma CancelPath(st: State, retry: bool, cfg: Config, input: TickInput)
    requires cfg.roundBlocks > 0 && st.pending.Some?
    ensures var s := Cancel(st, retry); Path(st, s.effects, s.state, cfg, input)
  {
    OneSave(st, Cancel(st, retry).state, retry, cfg, input);
  }

  lemma SendPath(st: State, peers: seq<Peer>, current: Option<map<ClassId, Digest>>, retry: bool, cfg: Config,
                 input: TickInput)
    requires cfg.roundBlocks > 0 && st.pending.Some?
    requires SentSoundly(Sent(st.pending.value, peers, current, input.nowMs, retry, input.reply))
    ensures var s := Send(st, peers, current, input, retry); Path(st, s.effects, s.state, cfg, input)
  {
    var sent := Sent(st.pending.value, peers, current, input.nowMs, retry, input.reply);
    if Succeeded(input.reply) {
      OneSave(st, Confirmed(st), retry, cfg, input);
      SentPath(st, sent, [Saved(Confirmed(st), retry)], Confirmed(st), cfg, input);
      assert [sent] + [Saved(Confirmed(st), retry)] == Send(st, peers, current, input, retry).effects;
    } else {
      var ambiguous := input.reply.Raised? || FailureIsAmbiguous(input.reply.response);
      var after := Fail(st, input.nowMs, ambiguous, retry);
      FailPath(st, ambiguous, retry, cfg, input);
      SentPath(st, sent, after.effects, after.state, cfg, input);
    }
  }

  lemma SubmitToPath(st: State, cfg: Config, mode: Mode, peers: seq<Peer>, ids: Option<map<ClassId, Digest>>,
                     input: TickInput)
    requires cfg.roundBlocks > 0 && st.pending.Some? && st.pending.value.nextRetryAtMs <= input.nowMs
    requires st.pending.value.ambiguous ==> mode.retryAmbiguous
    ensures var s := SubmitTo(st, cfg, mode, peers, ids, input); Path(st, s.effects, s.state, cfg, input)
  {
    var p, retry := st.pending.value, mode.retryAmbiguous;
    if !OwnersMatch(p, peers) {
      CancelPath(st, retry, cfg, input);
    } else if p.registrationIds == map[] {
      SendPath(st, peers, None, retry, cfg, input);
    } else {
      match RefreshIds(st, cfg, peers, ids, input) {
        case Ids(current) =>
          if current != p.registrationIds {
            CancelPath(st, retry, cfg, input);
          } else {
            SendPath(st, peers, Some(current), retry, cfg, input);
          }
        case Revoked => CancelPath(st, retry, cfg, input);
        case Held => FailPath(st, p.ambiguous, retry, cfg, input);
        case Escaped =>
      }
    }
  }

  lemma SubmitPath(st: State, cfg: Config, mode: Mode, given: Option<Metagraph>, ids: Option<map<ClassId, Digest>>,
                   input: TickInput)
    requires cfg.roundBlocks > 0
    ensures var s := Submit(st, cfg, mode, given, ids, input); Path(st, s.effects, s.state, cfg, input)
  {
    if st.pending.Some? {
      var p := st.pending.value;
      if !(p.ambiguous && !mode.retryAmbiguous) && p.nextRetryAtMs <= input.nowMs && mode.broadcast {
        var peers := Peers(given, input);
        if peers.None? {
          FailPath(st, p.ambiguous, mode.retryAmbiguous, cfg, input);
        } else {
          SubmitToPath(st, cfg, mode, peers.value, ids, input);
        }
      }
    }
  }

  lemma MarkedIsMade(hash: Hash, base: State, peers: seq<Peer>, regs: Registrations, vector: Vector, input: TickInput)
    requires input.metagraph.Got? && SnapshotPeers(input.metagraph.value) == Some(peers) && input.vector == Some(vector)
    requires Marked(hash, base, peers, regs, vector, input).Some?
    ensures var t := Marked(hash, base, peers, regs, vector, input).value;
            t == base.(pending := t.pending) && t.pending.Some? && t.pending.value.attempts == 0
            && MadeFrom(t.pending.value, input)
  {
  }

  lemma CommitPath(hash: Hash, st: State, base: State, cfg: Config, mode: Mode, m: Metagraph, peers: seq<Peer>,
                   regs: Registrations, vector: Vector, input: TickInput)
    requires cfg.roundBlocks > 0 && base.fingerprint == st.fingerprint && CompletesNow(st, base, cfg, input)
             && base.pending.None?
    requires input.metagraph == Got(m) && SnapshotPeers(m) == Some(peers) && input.vector == Some(vector)
    ensures var s := Commit(hash, base, cfg, mode, m, peers, regs, vector, input);
            Path(st, s.effects, s.state, cfg, input)
  {
    if vector.uids == [] {
      OneSave(st, base, mode.retryAmbiguous, cfg, input);
    } else {
      var marked := Marked(hash, base, peers, regs, vector, input);
      if marked.Some? {
        var t, ids := marked.value, Some(RegistrationIds(regs));
        MarkedIsMade(hash, base, peers, regs, vector, input);
        var after := Submit(t, cfg, mode, Some(m), ids, input);
        SubmitPath(t, cfg, mode, Some(m), ids, input);
        SavedPath(st, t, mode.retryAmbiguous, after.effects, after.state, cfg, input);
      }
    }
  }

  lemma EvaluatePath(hash: Hash, st: State, cfg: Config, mode: Mode, lastDryRun: Option<int>, input: TickInput,
                     peers: seq<Peer>, round: int)
    requires cfg.roundBlocks > 0 && st.pending.None? && input.metagraph.Got? && input.block.Got?
    requires round == input.block.value / cfg.roundBlocks && st.lastCompletedRound < round
    requires SnapshotPeers(input.metagraph.value) == Some(peers)
    ensures var o := EvaluateRound(hash, st, cfg, mode, lastDryRun, input, peers, round);
            Path(st, o.effects, o.state, cfg, input)
  {
    var ema, regs := RoundEma(cfg, peers, input, st), RoundRegistrations(cfg, peers, input, st);
    if ema.Some? && regs.Some? && input.vector.Some? {
      var next := Advance(cfg.externals, st, cfg.hasBurn, regs.value, input);
      if next.Some? && mode.broadcast {
        CommitPath(hash, st, Evaluated(st, ema.value, next.value, round), cfg, mode, input.metagraph.value, peers,
                   regs.value, input.vector.value, input);
      }
    }
  }

  /** Every tick follows a path from the memory it starts with to the one it ends with. */
  lemma TickIsPath(hash: Hash, st: State, cfg: Config, mode: Mode, lastDryRun: Option<int>, input: TickInput)
    requires cfg.roundBlocks > 0
    ensures var o := Tick(hash, st, cfg, mode, lastDryRun, input); Path(st, o.effects, o.state, cfg, input)
  {
    if st.pending.Some? {
      SubmitPath(st, cfg, mode, None, None, input);
    } else if input.metagraph.Got? && input.block.Got? && SnapshotPeers(input.metagraph.value).Some? {
      var round := input.block.value / cfg.roundBlocks;
      if st.lastCompletedRound < round {
        EvaluatePath(hash, st, cfg, mode, lastDryRun, input, SnapshotPeers(input.metagraph.value).value, round);
      }
    }
  }

  /** Cut at any effect, a path is a path to the memory there, and the effect there goes on from it. */
  lemma {:induction false} PathAt(m: State, effects: seq<Effect>, final: State, cfg: Config, input: TickInput, k: nat)
    requires cfg.roundBlocks > 0 && Path(m, effects, final, cfg, input) && k < |effects|
    ensures Path(m, effects[..k], MemoryAfter(m, effects[..k]), cfg, input)
    ensures match effects[k]
            case Saved(t, _) => Changes(MemoryAfter(m, effects[..k]), t, cfg, input)
            case Sent(v, _, _, _, _, _) => MemoryAfter(m, effects[..k]).pending == Some(v) && SentSoundly(effects[k])
    decreases |effects|
  {
    if k == 0 {
      assert effects[..0] == [];
    } else {
      var next := if effects[0].Saved? then effects[0].state else m;
      PathAt(next, effects[1..], final, cfg, input, k - 1);
      assert effects[..k] == [effects[0]] + effects[1..][..k - 1];
      MemoryAfterFirst(m, effects[0], effects[1..][..k - 1]);
      assert effects[..k][1..] == effects[1..][..k - 1];
    }
  }

  lemma {:induction false} MemoryAfterFirst(m: State, first: Effect, rest: seq<Effect>)
    ensures MemoryAfter(m, [first] + rest) == MemoryAfter(if first.Saved? then first.state else m, rest)
    decreases |rest|
  {
    if rest == [] {
      assert [first] + rest == [first];
      assert [first][..0] == [];
    } else {
      assert ([first] + rest)[..|rest|] == [first] + rest[..|rest| - 1];
      MemoryAfterFirst(m, first, rest[..|rest| - 1]);
    }
  }

  lemma {:induction false} PathKeepsFingerprint(m: State, effects: seq<Effect>, final: State, cfg: Config,
                                                input: TickInput)
    requires cfg.roundBlocks > 0 && Path(m, effects, final, cfg, input)
    ensures final.fingerprint == m.fingerprint
    decreases |effects|
  {
    if effects != [] {
      PathKeepsFingerprint(if effects[0].Saved? then effects[0].state else m, effects[1..], final, cfg, input);
    }
  }
}
