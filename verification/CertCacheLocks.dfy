/** Who holds what in the certificate cache: the locks of every reachable state belong
    to the callers whose program counters say so. */
module CertCacheLocks {
  import opened Common
  import opened CertCache

  predicate HoldsMap(pc: Pc) {
    pc.Finding? || pc.Sweeping? || pc.Trying? || pc.Dropping? || pc.Forgetting?
  }

  /** The entry a caller locked for itself. */
  function Own(pc: Pc): Option<nat> {
    match pc
    case Start => None
    case Finding => None
    case WaitEntry(_) => None
    case Checking(e) => Some(e)
    case WaitPlace(own) => own
    case AtGate(own) => own
    case TurnedAway(own, _) => own
    case Reading(own, _) => own
    case Noting(own, _) => own
    case Leaving(own, _, _) => own
    case Storing(e, _, _) => Some(e)
    case WaitSweep(e, _) => Some(e)
    case Sweeping(e, _, _) => Some(e)
    case Trying(e, _, _, _, _) => Some(e)
    case Dropping(e, _, _, _) => Some(e)
    case WaitForget(e, _) => Some(e)
    case Forgetting(e, _) => Some(e)
    case Unlocking(e, _) => Some(e)
    case Done(_) => None
  }

  predicate Holds(pc: Pc, x: nat) {
    Own(pc) == Some(x) || (pc.Trying? && pc.x == x)
  }

  predicate CallerLocks(s: State, t: nat)
    requires t < |s.callers|
  {
    var c := s.callers[t];
    && (HoldsMap(c.pc) ==> s.mapLock == Some(t))
    && (Own(c.pc).Some? ==>
          var e := Own(c.pc).value;
          e < |s.entries| && s.entries[e].holder == Some(t) && c.scope == Some(s.entries[e].scope))
    && (c.pc.WaitEntry? ==> c.pc.e < |s.entries| && c.scope == Some(s.entries[c.pc.e].scope))
    && (c.pc.Finding? ==> c.scope.Some?)
    && (c.pc.Trying? ==> c.pc.x < |s.entries| && s.entries[c.pc.x].holder == Some(t) && c.pc.x != c.pc.e)
    && (c.pc.Sweeping? || c.pc.Trying? || c.pc.Dropping? ==> c.pc.todo <= s.byScope.Keys)
    && (c.pc.Trying? || c.pc.Dropping? ==> c.pc.at in c.pc.todo)
    // A caller that owns no entry past the gate is one that could not name its scope.
    && (Gated(c.pc) && Own(c.pc).None? ==> c.scope.None?)
  }

  predicate EntryLock(s: State, x: nat)
    requires x < |s.entries|
  {
    s.entries[x].holder.Some? ==>
      s.entries[x].holder.value < |s.callers| && Holds(s.callers[s.entries[x].holder.value].pc, x)
  }

  predicate MapOk(s: State) {
    && (s.mapLock.Some? ==> s.mapLock.value < |s.callers| && HoldsMap(s.callers[s.mapLock.value].pc))
    && (forall k | k in s.byScope :: s.byScope[k] < |s.entries| && s.entries[s.byScope[k]].scope == k)
  }

  predicate Locks(s: State) {
    && WellFormed(s)
    && MapOk(s)
    && (forall t | 0 <= t < |s.callers| :: CallerLocks(s, t))
    && (forall x | 0 <= x < |s.entries| :: EntryLock(s, x))
  }

  /** What a step of caller t may do to the locks: take a free one or give back its own,
      and touch the map only while it holds it. */
  ghost predicate Effect(s: State, s': State, t: nat)
    requires t < |s.callers| && t < |s'.callers|
  {
    && s'.callers == s.callers[t := s'.callers[t]]
    && (s'.mapLock == s.mapLock || (s.mapLock.None? && s'.mapLock == Some(t))
        || (s.mapLock == Some(t) && s'.mapLock.None?))
    && (s'.mapLock == Some(t) ==> HoldsMap(s'.callers[t].pc))
    && (s'.byScope == s.byScope || s.mapLock == Some(t))
    && (forall k | k in s'.byScope :: s'.byScope[k] < |s'.entries| && s'.entries[s'.byScope[k]].scope == k)
    && |s.entries| <= |s'.entries|
    && (forall x | |s.entries| <= x < |s'.entries| :: s'.entries[x].holder.None?)
    && (forall x {:trigger s.entries[x]} {:trigger s'.entries[x]} | 0 <= x < |s.entries| :: EntryEffect(s, s', t, x))
  }

  ghost predicate EntryEffect(s: State, s': State, t: nat, x: nat)
    requires x < |s.entries| <= |s'.entries| && t < |s'.callers|
  {
    && s'.entries[x].scope == s.entries[x].scope
    && (|| s'.entries[x].holder == s.entries[x].holder
        || (s.entries[x].holder.None? && s'.entries[x].holder == Some(t))
        || (s.entries[x].holder == Some(t) && s'.entries[x].holder.None?))
    && (s'.entries[x].holder == Some(t) ==> Holds(s'.callers[t].pc, x))
  }

  lemma EnteringEffect(s: State, t: nat, env: Env)
    requires Locks(s) && t < |s.callers| && Act(s, t, env).Some? && Entering(s.callers[t].pc)
    ensures Effect(s, Act(s, t, env).value, t)
  {
    assert CallerLocks(s, t);
    forall x | 0 <= x < |s.entries| ensures EntryEffect(s, Act(s, t, env).value, t, x) {
      assert EntryLock(s, x);
    }
  }

  lemma EnteringLocks(s: State, t: nat, env: Env)
    requires Locks(s) && t < |s.callers| && Act(s, t, env).Some? && Entering(s.callers[t].pc)
    ensures CallerLocks(Act(s, t, env).value, t)
  {
    assert CallerLocks(s, t);
  }

  lemma GatedEffect(s: State, t: nat, env: Env)
    requires Locks(s) && t < |s.callers| && Act(s, t, env).Some? && Gated(s.callers[t].pc)
    ensures Effect(s, Act(s, t, env).value, t)
  {
    assert CallerLocks(s, t);
    forall x | 0 <= x < |s.entries| ensures EntryEffect(s, Act(s, t, env).value, t, x) {
      assert EntryLock(s, x);
    }
  }

  lemma GatedLocks(s: State, t: nat, env: Env)
    requires Locks(s) && t < |s.callers| && Act(s, t, env).Some? && Gated(s.callers[t].pc)
    ensures CallerLocks(Act(s, t, env).value, t)
  {
    var pc := s.callers[t].pc;
    if pc.WaitPlace? || pc.AtGate? || pc.TurnedAway? {
      WaitingLocks(s, t, env);
    } else {
      ReadingLocks(s, t, env);
    }
  }

  lemma WaitingLocks(s: State, t: nat, env: Env)
    requires Locks(s) && t < |s.callers| && Act(s, t, env).Some?
    requires
      var pc := s.callers[t].pc;
      pc.WaitPlace? || pc.AtGate? || pc.TurnedAway?
    ensures CallerLocks(Act(s, t, env).value, t)
  {
    assert CallerLocks(s, t);
  }

  lemma ReadingLocks(s: State, t: nat, env: Env)
    requires Locks(s) && t < |s.callers| && Act(s, t, env).Some?
    requires
      var pc := s.callers[t].pc;
      pc.Reading? || pc.Noting? || pc.Leaving?
    ensures CallerLocks(Act(s, t, env).value, t)
  {
    assert CallerLocks(s, t);
  }

  lemma TidyingEffect(s: State, t: nat, env: Env)
    requires Locks(s) && t < |s.callers| && Act(s, t, env).Some? && Tidying(s.callers[t].pc)
    ensures Effect(s, Act(s, t, env).value, t)
  {
    assert CallerLocks(s, t);
    forall x | 0 <= x < |s.entries| ensures EntryEffect(s, Act(s, t, env).value, t, x) {
      assert EntryLock(s, x);
    }
  }

  lemma TidyingLocks(s: State, t: nat, env: Env)
    requires Locks(s) && t < |s.callers| && Act(s, t, env).Some? && Tidying(s.callers[t].pc)
    ensures CallerLocks(Act(s, t, env).value, t)
  {
    assert CallerLocks(s, t);
  }

  lemma EndingEffect(s: State, t: nat, env: Env)
    requires Locks(s) && t < |s.callers| && Act(s, t, env).Some? && Ending(s.callers[t].pc)
    ensures Effect(s, Act(s, t, env).value, t)
  {
    assert CallerLocks(s, t);
    forall x | 0 <= x < |s.entries| ensures EntryEffect(s, Act(s, t, env).value, t, x) {
      assert EntryLock(s, x);
    }
  }

  lemma EndingLocks(s: State, t: nat, env: Env)
    requires Locks(s) && t < |s.callers| && Act(s, t, env).Some? && Ending(s.callers[t].pc)
    ensures CallerLocks(Act(s, t, env).value, t)
  {
    assert CallerLocks(s, t);
  }

  lemma StepLocks(s: State, t: nat, env: Env)
    requires Locks(s) && t < |s.callers| && Act(s, t, env).Some?
    ensures Locks(Act(s, t, env).value) && Effect(s, Act(s, t, env).value, t)
  {
    var pc := s.callers[t].pc;
    if Entering(pc) { EnteringEffect(s, t, env); EnteringLocks(s, t, env); }
    else if Gated(pc) { GatedEffect(s, t, env); GatedLocks(s, t, env); }
    else if Tidying(pc) { TidyingEffect(s, t, env); TidyingLocks(s, t, env); }
    else { EndingEffect(s, t, env); EndingLocks(s, t, env); }
    EffectKeepsLocks(s, Act(s, t, env).value, t);
  }

  lemma EffectKeepsLocks(s: State, s': State, t: nat)
    requires Locks(s) && WellFormed(s') && t < |s.callers| == |s'.callers|
    requires Effect(s, s', t) && CallerLocks(s', t)
    ensures Locks(s')
  {
    forall u | 0 <= u < |s'.callers| ensures CallerLocks(s', u) {
      assert CallerLocks(s, u);
    }
    forall x | 0 <= x < |s'.entries| ensures EntryLock(s', x) {
      if x < |s.entries| {
        assert EntryLock(s, x) && EntryEffect(s, s', t, x);
      }
    }
  }

  lemma {:induction false} RunLocks(init: State, schedule: seq<Turn>)
    requires Initial(init) && Run(init, schedule).Some?
    ensures Locks(Run(init, schedule).value)
  {
    if schedule != [] {
      var last := |schedule| - 1;
      RunLocks(init, schedule[..last]);
      StepLocks(Run(init, schedule[..last]).value, schedule[last].caller, schedule[last].env);
    }
  }
}
