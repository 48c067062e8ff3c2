/** The gates of the kube plugin in every interleaving (plugins/kube/kubectl.go): places
    are conserved, and a cluster that does not answer is asked as many times as a gate
    has places. */
module CertCacheGates {
  import opened Common
  import opened CertCache

  /** Between the send that took a place and the receive that gives it back. */
  predicate OnGate(pc: Pc) {
    pc.AtGate? || pc.TurnedAway? || pc.Reading? || pc.Noting? || pc.Leaving?
  }

  /** Whether a caller has a place of gate g. */
  function PlaceOf(g: nat): Caller -> bool {
    (c: Caller) => c.gate == Some(g) && OnGate(c.pc)
  }

  ghost function WideAsked(s: State, g: nat): set<nat>
    requires g < |s.gates|
  {
    set t | t in s.gates[g].asked && t < |s.callers| && Wide(s.callers[t].reply)
  }

  ghost predicate GateOk(s: State, g: nat)
    requires g < |s.gates|
  {
    var gate := s.gates[g];
    && gate.width > 0
    && gate.taken == CountIf(s.callers, PlaceOf(g)) <= gate.width
    && (forall t | t in gate.asked :: t < |s.callers| && s.callers[t].gate == Some(g))
    // A gate is down with the failure of a call it let through, and while it is not
    // every such failure still holds its place.
    && (gate.down.Some? ==> exists k :: k in WideAsked(s, g) && s.callers[k].reply == Bad(gate.down.value))
    && (gate.down.None? ==> forall k | k in WideAsked(s, g) :: s.callers[k].pc.Reading? || s.callers[k].pc.Noting?)
    && |WideAsked(s, g)| <= gate.width
  }

  ghost predicate GateCaller(s: State, t: nat)
    requires WellFormed(s) && t < |s.callers|
  {
    var c := s.callers[t];
    c.gate.Some? ==>
      && (c.pc.Reading? || c.pc.Noting? ==> t in s.gates[c.gate.value].asked)
      && (c.pc.Noting? ==> c.reply == Bad(c.pc.err))
  }

  ghost predicate Gates(s: State) {
    && WellFormed(s)
    && (forall g | 0 <= g < |s.gates| :: GateOk(s, g))
    && (forall t | 0 <= t < |s.callers| :: GateCaller(s, t))
  }

  /** Outside the gate's own steps no gate and no caller on one changes. */
  lemma ElsewhereLeavesGates(s: State, t: nat, env: Env)
    requires Gates(s) && t < |s.callers| && Act(s, t, env).Some? && !Gated(s.callers[t].pc)
    ensures Act(s, t, env).value.gates == s.gates
    ensures !OnGate(Act(s, t, env).value.callers[t].pc)
  {
  }

  /** A gate's own step changes the one gate of its caller. */
  lemma GatedLeavesOthers(s: State, t: nat, env: Env, g: nat)
    requires Gates(s) && t < |s.callers| && Act(s, t, env).Some? && Gated(s.callers[t].pc)
    requires g < |s.gates| && s.callers[t].gate != Some(g)
    ensures Act(s, t, env).value.gates[g] == s.gates[g]
  {
  }

  /** A gate that did not change, and whose callers kept their places, is as it was. */
  lemma UntouchedGate(s: State, s': State, t: nat, g: nat)
    requires Gates(s) && t < |s.callers| == |s'.callers| && g < |s.gates| == |s'.gates|
    requires s'.gates[g] == s.gates[g]
    requires s'.callers == s.callers[t := s.callers[t].(pc := s'.callers[t].pc)]
    requires s.callers[t].gate != Some(g) || (!OnGate(s.callers[t].pc) && !OnGate(s'.callers[t].pc))
    ensures GateOk(s', g)
  {
    assert GateOk(s, g);
    CountUpdate(s.callers, PlaceOf(g), t, s'.callers[t]);
    assert WideAsked(s', g) == WideAsked(s, g);
  }

  /** What a caller's step may do to its own gate: take or give back its one place; ask,
      when the gate is not down; and put it down, with its own failure. */
  ghost predicate GateEffect(s: State, s': State, t: nat, g: nat)
    requires t < |s.callers| == |s'.callers| && g < |s.gates| == |s'.gates|
  {
    var gate, gate', pc, pc' := s.gates[g], s'.gates[g], s.callers[t].pc, s'.callers[t].pc;
    && gate'.width == gate.width
    && gate'.taken == gate.taken + ToNat(OnGate(pc')) - ToNat(OnGate(pc)) <= gate'.width
    && (|| gate'.asked == gate.asked
        || (gate'.asked == gate.asked + {t} && gate.down.None? && gate'.down.None? && pc'.Reading?))
    && (gate'.asked != gate.asked || pc'.Reading? || pc'.Noting? || !Wide(s.callers[t].reply)
        || gate'.down.Some? || t !in gate.asked)
    && (|| gate'.down == gate.down
        || (gate.down.None? && t in gate.asked && Wide(s.callers[t].reply)
            && gate'.asked == gate.asked && gate'.down == Some(s.callers[t].reply.err)))
  }

  lemma OwnGateEffect(s: State, t: nat, env: Env, g: nat)
    requires Gates(s) && t < |s.callers| && Act(s, t, env).Some? && Gated(s.callers[t].pc)
    requires g < |s.gates| && s.callers[t].gate == Some(g)
    ensures GateEffect(s, Act(s, t, env).value, t, g)
  {
    assert GateOk(s, g) && GateCaller(s, t);
    if t in s.gates[g].asked && Wide(s.callers[t].reply) && s.gates[g].down.None? {
      assert t in WideAsked(s, g);
    }
  }

  lemma StepOwnGate(s: State, s': State, t: nat, g: nat)
    requires Gates(s) && t < |s.callers| == |s'.callers| && g < |s.gates| == |s'.gates|
    requires GateEffect(s, s', t, g) && s.callers[t].gate == Some(g)
    requires s'.callers == s.callers[t := s.callers[t].(pc := s'.callers[t].pc)]
    ensures GateOk(s', g)
  {
    assert GateOk(s, g);
    CountUpdate(s.callers, PlaceOf(g), t, s'.callers[t]);
    if s'.gates[g].asked == s.gates[g].asked {
      assert WideAsked(s', g) == WideAsked(s, g);
      if s'.gates[g].down.Some? && s.gates[g].down.None? {
        assert t in WideAsked(s', g);
      }
    } else {
      assert forall k | k in WideAsked(s', g) :: k == t || k in WideAsked(s, g);
      CountCovers(s'.callers, PlaceOf(g), WideAsked(s', g));
    }
  }

  lemma StepGates(s: State, t: nat, env: Env)
    requires Gates(s) && t < |s.callers| && Act(s, t, env).Some?
    ensures Gates(Act(s, t, env).value)
  {
    var s' := Act(s, t, env).value;
    forall g | 0 <= g < |s'.gates| ensures GateOk(s', g) {
      if !Gated(s.callers[t].pc) {
        ElsewhereLeavesGates(s, t, env);
        UntouchedGate(s, s', t, g);
      } else if s.callers[t].gate == Some(g) {
        OwnGateEffect(s, t, env, g);
        StepOwnGate(s, s', t, g);
      } else {
        GatedLeavesOthers(s, t, env, g);
        UntouchedGate(s, s', t, g);
      }
    }
    forall u | 0 <= u < |s'.callers| ensures GateCaller(s', u) {
      StepGateCaller(s, t, env, u);
    }
  }

  lemma StepGateCaller(s: State, t: nat, env: Env, u: nat)
    requires Gates(s) && t < |s.callers| && u < |s.callers| && Act(s, t, env).Some?
    ensures GateCaller(Act(s, t, env).value, u)
  {
    var s' := Act(s, t, env).value;
    assert GateCaller(s, t) && GateCaller(s, u);
    if !Gated(s.callers[t].pc) {
      ElsewhereLeavesGates(s, t, env);
    }
  }

  lemma {:induction false} RunGates(init: State, schedule: seq<Turn>)
    requires Initial(init) && Run(init, schedule).Some?
    ensures Gates(Run(init, schedule).value)
  {
    if schedule == [] {
      forall g | 0 <= g < |init.gates| ensures GateOk(init, g) {
        CountZero(init.callers, PlaceOf(g));
        assert WideAsked(init, g) == {};
      }
    } else {
      var last := |schedule| - 1;
      RunGates(init, schedule[..last]);
      StepGates(Run(init, schedule[..last]).value, schedule[last].caller, schedule[last].env);
    }
  }
}
