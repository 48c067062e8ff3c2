/** Why a caller is told what it is told, in every interleaving (plugins/kube/kubectl.go:
    runStdin, gate.enter, gate.note; plugins/kube/cert.go: tlsCerts): a failure is the
    caller's own, or the end of its context, or what the gate was already down with. */
module CertCacheFailures {
  import opened Common
  import opened CertCache
  import G = CertCacheGates

  /** The context of caller t was done at one of its turns. */
  predicate Cancels(schedule: seq<Turn>, t: nat) {
    exists n :: 0 <= n < |schedule| && schedule[n].caller == t && schedule[n].env.cancelled
  }

  /** Caller t started its subprocess, as far as its gate can tell. */
  predicate WasLetIn(s: State, t: nat)
    requires WellFormed(s) && t < |s.callers|
  {
    s.callers[t].gate.Some? ==> t in s.gates[s.callers[t].gate.value].asked
  }

  /** Caller t was kept from starting one: its context ended, or the gate was down with
      the failure `err`. */
  predicate WasKeptOut(s: State, t: nat, err: Error, cancelled: bool)
    requires WellFormed(s) && t < |s.callers|
  {
    s.callers[t].gate.Some? &&
    var gate := s.gates[s.callers[t].gate.value];
    t !in gate.asked && ((err == CANCELLED && cancelled) || gate.down == Some(err))
  }

  predicate Caused(s: State, t: nat, err: Error, cancelled: bool)
    requires WellFormed(s) && t < |s.callers|
  {
    (WasLetIn(s, t) && s.callers[t].reply == Bad(err)) || WasKeptOut(s, t, err, cancelled)
  }

  predicate NotAsked(s: State, t: nat)
    requires WellFormed(s) && t < |s.callers|
  {
    s.callers[t].gate.Some? ==> t !in s.gates[s.callers[t].gate.value].asked
  }

  predicate AnswerFollows(s: State, t: nat, answer: Answer, cancelled: bool)
    requires WellFormed(s) && t < |s.callers|
  {
    match answer
    case Failed(err) => Caused(s, t, err, cancelled)
    case Certs(kept, reused, _) =>
      if reused then NotAsked(s, t) else WasLetIn(s, t) && s.callers[t].reply == Good(kept.certs)
  }

  /** Where caller t is says what it met so far. */
  predicate Follows(s: State, t: nat, cancelled: bool)
    requires WellFormed(s) && t < |s.callers|
  {
    var c := s.callers[t];
    match c.pc
    case TurnedAway(_, err) =>
      NotAsked(s, t) && c.gate.Some? && s.gates[c.gate.value].down == Some(err)
    case Reading(_, _) => WasLetIn(s, t)
    case Noting(_, err) => WasLetIn(s, t) && c.reply == Bad(err)
    case Leaving(_, reply, _) => WasLetIn(s, t) && c.reply == reply
    case Storing(_, certs, _) => WasLetIn(s, t) && c.reply == Good(certs)
    case WaitSweep(_, kept) => WasLetIn(s, t) && c.reply == Good(kept.certs)
    case Sweeping(_, kept, _) => WasLetIn(s, t) && c.reply == Good(kept.certs)
    case Trying(_, kept, _, _, _) => WasLetIn(s, t) && c.reply == Good(kept.certs)
    case Dropping(_, kept, _, _) => WasLetIn(s, t) && c.reply == Good(kept.certs)
    case WaitForget(_, err) => Caused(s, t, err, cancelled)
    case Forgetting(_, err) => Caused(s, t, err, cancelled)
    case Unlocking(_, answer) => AnswerFollows(s, t, answer, cancelled)
    case Done(answer) => AnswerFollows(s, t, answer, cancelled)
    case _ => NotAsked(s, t)
  }

  // ----- one step ---------------------------------------------------------------------

  lemma EntersFollows(s: State, t: nat, env: Env, before: bool)
    requires WellFormed(s) && t < |s.callers| && Act(s, t, env).Some? && Follows(s, t, before)
    requires Entering(s.callers[t].pc)
    ensures Follows(Act(s, t, env).value, t, before || env.cancelled)
  {
  }

  lemma GatedFollows(s: State, t: nat, env: Env, before: bool)
    requires WellFormed(s) && t < |s.callers| && Act(s, t, env).Some? && Follows(s, t, before)
    requires Gated(s.callers[t].pc)
    ensures Follows(Act(s, t, env).value, t, before || env.cancelled)
  {
  }

  lemma TidiesFollows(s: State, t: nat, env: Env, before: bool)
    requires WellFormed(s) && t < |s.callers| && Act(s, t, env).Some? && Follows(s, t, before)
    requires Tidying(s.callers[t].pc) || Ending(s.callers[t].pc)
    ensures Follows(Act(s, t, env).value, t, before || env.cancelled)
  {
  }

  lemma OtherFollows(s: State, t: nat, env: Env, u: nat, before: bool)
    requires G.Gates(s) && t < |s.callers| && u < |s.callers| && u != t
    requires Act(s, t, env).Some? && Follows(s, u, before)
    ensures Follows(Act(s, t, env).value, u, before)
  {
    var s' := Act(s, t, env).value;
    if s.callers[u].gate.Some? {
      KeepsForOthers(s, t, env, s.callers[u].gate.value);
    }
    assert s'.callers[u] == s.callers[u];
  }

  /** A step of t changes of a gate, as far as others see, only that it may go down. */
  lemma KeepsForOthers(s: State, t: nat, env: Env, g: nat)
    requires G.Gates(s) && t < |s.callers| && Act(s, t, env).Some? && g < |s.gates|
    ensures
      var gate, gate' := s.gates[g], Act(s, t, env).value.gates[g];
      && gate'.asked - {t} == gate.asked - {t}
      && (gate.down.Some? ==> gate'.down == gate.down)
  {
    if !Gated(s.callers[t].pc) {
      G.ElsewhereLeavesGates(s, t, env);
    } else if s.callers[t].gate == Some(g) {
      G.OwnGateEffect(s, t, env, g);
    } else {
      G.GatedLeavesOthers(s, t, env, g);
    }
  }

  lemma StepFollows(s: State, t: nat, env: Env, u: nat, before: bool)
    requires G.Gates(s) && t < |s.callers| && u < |s.callers| && Act(s, t, env).Some? && Follows(s, u, before)
    ensures Follows(Act(s, t, env).value, u, before || (u == t && env.cancelled))
  {
    var pc := s.callers[t].pc;
    if u != t { OtherFollows(s, t, env, u, before); }
    else if Entering(pc) { EntersFollows(s, t, env, before); }
    else if Gated(pc) { GatedFollows(s, t, env, before); }
    else { TidiesFollows(s, t, env, before); }
  }

  lemma {:induction false} RunFollows(init: State, schedule: seq<Turn>, u: nat)
    requires Initial(init) && Run(init, schedule).Some? && u < |Run(init, schedule).value.callers|
    ensures Follows(Run(init, schedule).value, u, Cancels(schedule, u))
  {
    if schedule != [] {
      var last := |schedule| - 1;
      var s, turn := Run(init, schedule[..last]).value, schedule[last];
      RunFollows(init, schedule[..last], u);
      G.RunGates(init, schedule[..last]);
      StepFollows(s, turn.caller, turn.env, u, Cancels(schedule[..last], u));
      CancelsMore(schedule, u);
    }
  }

  lemma CancelsMore(schedule: seq<Turn>, u: nat)
    requires schedule != []
    ensures
      var last := |schedule| - 1;
      Cancels(schedule, u) <==>
        Cancels(schedule[..last], u) || (schedule[last].caller == u && schedule[last].env.cancelled)
  {
    var last := |schedule| - 1;
    if Cancels(schedule[..last], u) {
      var n :| 0 <= n < last && schedule[..last][n].caller == u && schedule[..last][n].env.cancelled;
      assert schedule[n] == schedule[..last][n];
    }
    if Cancels(schedule, u) {
      var n :| 0 <= n < |schedule| && schedule[n].caller == u && schedule[n].env.cancelled;
      assert n < last ==> schedule[..last][n] == schedule[n];
    }
  }

  // ----- every run --------------------------------------------------------------------

  /** Whatever the interleaving, a caller that is told of a failure either made its call
      and is told how that call failed, or was kept from making one at its gate: because
      its own context was done, and then it is told so, or because the gate was down,
      and then it is told how another caller's call there failed for the whole cluster. */
  lemma EveryFailureHasItsCause(init: State, schedule: seq<Turn>, t: nat)
    requires Initial(init) && Run(init, schedule).Some?
    requires t < |Run(init, schedule).value.callers|
    requires
      var pc := Run(init, schedule).value.callers[t].pc;
      pc.Done? && pc.answer.Failed?
    ensures
      var s := Run(init, schedule).value;
      var c := s.callers[t];
      var err := c.pc.answer.err;
      && (c.gate.None? ==> c.reply == Bad(err))
      && (c.gate.Some? && t in s.gates[c.gate.value].asked ==> c.reply == Bad(err))
      && (c.gate.Some? && t !in s.gates[c.gate.value].asked ==>
            || (err == CANCELLED && Cancels(schedule, t))
            || (s.gates[c.gate.value].down == Some(err) && ClusterWide(err) &&
                exists k :: k in s.gates[c.gate.value].asked && k != t && k < |s.callers| && s.callers[k].reply == Bad(err)))
  {
    RunFollows(init, schedule, t);
    G.RunGates(init, schedule);
    var s := Run(init, schedule).value;
    var c := s.callers[t];
    if c.gate.Some? && t !in s.gates[c.gate.value].asked && s.gates[c.gate.value].down.Some? {
      var g := c.gate.value;
      assert G.GateOk(s, g);
      var k :| k in G.WideAsked(s, g) && s.callers[k].reply == Bad(s.gates[g].down.value);
      assert k in s.gates[g].asked && k != t;
    }
  }

  /** A caller whose read answers, whose context was never done and whose gate never went
      down is given certificates. One that got through its gate is given what its own read
      answered, good or bad, and one that did not is never given a read of its own. */
  lemma GoodCallersAreAnswered(init: State, schedule: seq<Turn>, t: nat)
    requires Initial(init) && Run(init, schedule).Some?
    requires t < |Run(init, schedule).value.callers| && Run(init, schedule).value.callers[t].pc.Done?
    ensures
      var s := Run(init, schedule).value;
      var c := s.callers[t];
      && (c.reply.Good? && !Cancels(schedule, t) && (c.gate.Some? ==> s.gates[c.gate.value].down.None?) ==>
            c.pc.answer.Certs?)
      && (c.pc.answer.Certs? && !c.pc.answer.reused ==> c.reply == Good(c.pc.answer.kept.certs))
      && (c.gate.Some? && c.reply.Good? ==>
            (t in s.gates[c.gate.value].asked <==> c.pc.answer.Certs? && !c.pc.answer.reused))
      && (c.gate.Some? && c.reply.Bad? && t in s.gates[c.gate.value].asked ==> c.pc.answer == Failed(c.reply.err))
  {
    RunFollows(init, schedule, t);
  }
}
