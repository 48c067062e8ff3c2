/** Exactly when a scope is read once in a quarter of an hour, the other half: wherever the
    callers that are there allow it, a schedule reads the scope twice at one moment
    (plugins/kube/cert.go). Either the entry of a failed read is dropped while another
    caller already waits for it, or a sweep drops an old entry between letting go of it and
    deleting it; a third caller then makes a new one. */
module CertCacheRace {
  import opened Common
  import opened CertCache
  import opened CertCacheLocks
  import opened CertCacheScopes
  import opened CertCacheOnce

  /** An allowed schedule leads from the beginning to the state. */
  ghost predicate Reaches(init: State, s: State, calm: bool)
    requires Initial(init)
  {
    exists schedule :: Allowed(schedule, calm) && Run(init, schedule) == Some(s)
  }

  /** Every gate is up and free, but for one place of `g`. */
  predicate OpenBut(s: State, g: Option<nat>) {
    forall h | 0 <= h < |s.gates| ::
      && s.gates[h].width > 0 && s.gates[h].down.None?
      && s.gates[h].taken == if g == Some(h) then 1 else 0
  }

  /** The state with caller t somewhere else and the gates perhaps having been asked. */
  ghost predicate Moved(s: State, s': State, t: nat, pc: Pc, now: nat)
    requires t < |s.callers|
  {
    && WellFormed(s') && |s'.gates| == |s.gates| && s'.now == now
    && s'.callers == s.callers[t := s.callers[t].(pc := pc)]
  }

  lemma Onward(init: State, calm: bool, s: State, t: nat, env: Env) returns (s': State)
    requires Initial(init) && Reaches(init, s, calm) && WellFormed(s) && t < |s.callers|
    requires (calm ==> !env.cancelled) && Act(s, t, env).Some?
    ensures Act(s, t, env) == Some(s') && WellFormed(s') && Reaches(init, s', calm)
  {
    hide Act;
    s' := Act(s, t, env).value;
    var schedule :| Allowed(schedule, calm) && Run(init, schedule) == Some(s);
    var more := schedule + [Turn(t, env)];
    assert more[..|schedule|] == schedule;
    assert Run(init, more) == Some(s') && Allowed(more, calm);
  }

  // ----- stretches of one caller's way -------------------------------------------------------

  /** certEntryFor: the scope's entry, or a new one. */
  lemma FindIt(init: State, calm: bool, s: State, t: nat, scope: Scope, now: nat) returns (s': State)
    requires Initial(init) && Reaches(init, s, calm) && WellFormed(s) && t < |s.callers| && now >= s.now
    requires s.callers[t].scope == Some(scope) && s.callers[t].pc == Start && s.mapLock.None?
    ensures Reaches(init, s', calm)
    ensures
      var known := scope in s.byScope;
      var e := if known then s.byScope[scope] else |s.entries|;
      && Moved(s, s', t, WaitEntry(e), now) && s'.mapLock.None? && s'.gates == s.gates && s'.log == s.log
      && s'.byScope == (if known then s.byScope else s.byScope[scope := e])
      && s'.entries == (if known then s.entries else s.entries + [Entry(scope, None, None)])
  {
    var env := Env(now, false, scope);
    s' := Onward(init, calm, s, t, env);
    s' := Onward(init, calm, s', t, env);
  }

  /** The entry's lock, and nothing in it that would do. */
  lemma TakeIt(init: State, calm: bool, s: State, t: nat, e: nat, now: nat) returns (s': State)
    requires Initial(init) && Reaches(init, s, calm) && WellFormed(s) && t < |s.callers| && now >= s.now
    requires s.callers[t].pc == WaitEntry(e) && e < |s.entries|
    requires s.entries[e].holder.None? && !Young(s.entries[e].kept, now)
    ensures Reaches(init, s', calm)
    ensures Moved(s, s', t, WaitPlace(Some(e)), now) && s'.mapLock == s.mapLock && s'.gates == s.gates
    ensures s'.log == s.log && s'.byScope == s.byScope
    ensures s'.entries == s.entries[e := s.entries[e].(holder := Some(t))]
  {
    var env := Env(now, false, Scope("", ""));
    s' := Onward(init, calm, s, t, env);
    s' := Onward(init, calm, s', t, env);
  }

  /** Through the gate, if there is one, to the subprocess. */
  lemma EnterGate(init: State, calm: bool, s: State, t: nat, e: nat, now: nat) returns (s': State)
    requires Initial(init) && Reaches(init, s, calm) && WellFormed(s) && t < |s.callers| && now >= s.now
    requires s.callers[t].pc == WaitPlace(Some(e)) && OpenBut(s, None)
    ensures Reaches(init, s', calm) && OpenBut(s', s.callers[t].gate)
    ensures Moved(s, s', t, Reading(Some(e), now), now) && s'.mapLock == s.mapLock
    ensures s'.log == s.log && s'.byScope == s.byScope && s'.entries == s.entries
  {
    hide Act;
    if s.callers[t].gate.None? {
      s' := PassNoGate(init, calm, s, t, e, now);
    } else {
      s' := TakePlace(init, calm, s, t, e, now);
      s' := PassGate(init, calm, s', t, e, now);
    }
  }

  lemma PassNoGate(init: State, calm: bool, s: State, t: nat, e: nat, now: nat) returns (s': State)
    requires Initial(init) && Reaches(init, s, calm) && WellFormed(s) && t < |s.callers| && now >= s.now
    requires s.callers[t].pc == WaitPlace(Some(e)) && s.callers[t].gate.None?
    ensures Reaches(init, s', calm) && s'.gates == s.gates
    ensures Moved(s, s', t, Reading(Some(e), now), now) && s'.mapLock == s.mapLock
    ensures s'.log == s.log && s'.byScope == s.byScope && s'.entries == s.entries
  {
    s' := Onward(init, calm, s, t, Env(now, false, Scope("", "")));
  }

  lemma TakePlace(init: State, calm: bool, s: State, t: nat, e: nat, now: nat) returns (s': State)
    requires Initial(init) && Reaches(init, s, calm) && WellFormed(s) && t < |s.callers| && now >= s.now
    requires s.callers[t].pc == WaitPlace(Some(e)) && s.callers[t].gate.Some? && OpenBut(s, None)
    ensures Reaches(init, s', calm) && OpenBut(s', s.callers[t].gate)
    ensures Moved(s, s', t, AtGate(Some(e)), now) && s'.mapLock == s.mapLock
    ensures s'.log == s.log && s'.byScope == s.byScope && s'.entries == s.entries
  {
    s' := Onward(init, calm, s, t, Env(now, false, Scope("", "")));
  }

  lemma PassGate(init: State, calm: bool, s: State, t: nat, e: nat, now: nat) returns (s': State)
    requires Initial(init) && Reaches(init, s, calm) && WellFormed(s) && t < |s.callers| && now >= s.now
    requires s.callers[t].pc == AtGate(Some(e)) && s.callers[t].gate.Some? && OpenBut(s, s.callers[t].gate)
    ensures Reaches(init, s', calm) && OpenBut(s', s.callers[t].gate)
    ensures Moved(s, s', t, Reading(Some(e), now), now) && s'.mapLock == s.mapLock
    ensures s'.log == s.log && s'.byScope == s.byScope && s'.entries == s.entries
  {
    s' := Onward(init, calm, s, t, Env(now, false, Scope("", "")));
  }

  /** The place given back, with the answer. */
  lemma LeaveGate(init: State, calm: bool, s: State, t: nat, e: nat, now: nat) returns (s': State)
    requires Initial(init) && Reaches(init, s, calm) && WellFormed(s) && t < |s.callers| && now >= s.now
    requires s.callers[t].pc.Leaving? && s.callers[t].pc.own == Some(e)
    requires OpenBut(s, s.callers[t].gate)
    ensures Reaches(init, s', calm) && OpenBut(s', None)
    ensures Moved(s, s', t, AfterRead(s, Some(e), s.callers[t].pc.reply, s.callers[t].pc.read), now)
    ensures s'.mapLock == s.mapLock && s'.log == s.log && s'.byScope == s.byScope && s'.entries == s.entries
  {
    hide Act, AfterRead, OpenBut;
    if s.callers[t].gate.None? {
      s' := LeaveNoGate(init, calm, s, t, e, now);
    } else {
      s' := GiveBack(init, calm, s, t, e, now);
    }
  }

  lemma LeaveNoGate(init: State, calm: bool, s: State, t: nat, e: nat, now: nat) returns (s': State)
    requires Initial(init) && Reaches(init, s, calm) && WellFormed(s) && t < |s.callers| && now >= s.now
    requires s.callers[t].pc.Leaving? && s.callers[t].pc.own == Some(e) && s.callers[t].gate.None?
    requires OpenBut(s, None)
    ensures Reaches(init, s', calm) && OpenBut(s', None)
    ensures Moved(s, s', t, AfterRead(s, Some(e), s.callers[t].pc.reply, s.callers[t].pc.read), now)
    ensures s'.mapLock == s.mapLock && s'.log == s.log && s'.byScope == s.byScope && s'.entries == s.entries
  {
    s' := Onward(init, calm, s, t, Env(now, false, Scope("", "")));
  }

  lemma GiveBack(init: State, calm: bool, s: State, t: nat, e: nat, now: nat) returns (s': State)
    requires Initial(init) && Reaches(init, s, calm) && WellFormed(s) && t < |s.callers| && now >= s.now
    requires s.callers[t].pc.Leaving? && s.callers[t].pc.own == Some(e) && s.callers[t].gate.Some?
    requires OpenBut(s, s.callers[t].gate)
    ensures Reaches(init, s', calm) && OpenBut(s', None)
    ensures Moved(s, s', t, AfterRead(s, Some(e), s.callers[t].pc.reply, s.callers[t].pc.read), now)
    ensures s'.mapLock == s.mapLock && s'.log == s.log && s'.byScope == s.byScope && s'.entries == s.entries
  {
    s' := Onward(init, calm, s, t, Env(now, false, Scope("", "")));
  }

  lemma EndRead(init: State, calm: bool, s: State, t: nat, e: nat, now: nat) returns (s': State)
    requires Initial(init) && Reaches(init, s, calm) && WellFormed(s) && t < |s.callers| && now >= s.now
    requires s.callers[t].pc == Reading(Some(e), now) && s.callers[t].reply.Good?
    ensures Reaches(init, s', calm) && s'.gates == s.gates
    ensures Moved(s, s', t, Leaving(Some(e), s.callers[t].reply, |s.log|), now) && s'.mapLock == s.mapLock
    ensures s'.log == s.log + [Read(t, Some(e), now, now, s.callers[t].reply.certs)]
    ensures s'.byScope == s.byScope && s'.entries == s.entries
  {
    s' := Onward(init, calm, s, t, Env(now, false, Scope("", "")));
  }

  lemma EndBadRead(init: State, calm: bool, s: State, t: nat, e: nat, now: nat) returns (s': State)
    requires Initial(init) && Reaches(init, s, calm) && WellFormed(s) && t < |s.callers| && now >= s.now
    requires s.callers[t].pc.Reading? && s.callers[t].pc.own == Some(e) && s.callers[t].reply.Bad?
    ensures Reaches(init, s', calm) && s'.gates == s.gates
    ensures Moved(s, s', t, Noting(Some(e), s.callers[t].reply.err), now) && s'.mapLock == s.mapLock
    ensures s'.log == s.log && s'.byScope == s.byScope && s'.entries == s.entries
  {
    s' := Onward(init, calm, s, t, Env(now, false, Scope("", "")));
  }

  lemma NoteIt(init: State, calm: bool, s: State, t: nat, e: nat, now: nat) returns (s': State)
    requires Initial(init) && Reaches(init, s, calm) && WellFormed(s) && t < |s.callers| && now >= s.now
    requires s.callers[t].reply.Bad? && s.callers[t].pc == Noting(Some(e), s.callers[t].reply.err)
    requires Untroubled(s.callers[t])
    ensures Reaches(init, s', calm) && s'.gates == s.gates
    ensures Moved(s, s', t, Leaving(Some(e), s.callers[t].reply, 0), now) && s'.mapLock == s.mapLock
    ensures s'.log == s.log && s'.byScope == s.byScope && s'.entries == s.entries
  {
    s' := Onward(init, calm, s, t, Env(now, false, Scope("", "")));
  }

  /** A read that succeeds, from the gate and back. */
  lemma ReadIt(init: State, calm: bool, s: State, t: nat, e: nat, now: nat) returns (s': State)
    requires Initial(init) && Reaches(init, s, calm) && WellFormed(s) && t < |s.callers| && now >= s.now
    requires s.callers[t].pc == WaitPlace(Some(e)) && OpenBut(s, None) && s.callers[t].reply.Good?
    ensures Reaches(init, s', calm) && OpenBut(s', None)
    ensures Moved(s, s', t, Storing(e, s.callers[t].reply.certs, |s.log|), now) && s'.mapLock == s.mapLock
    ensures s'.log == s.log + [Read(t, Some(e), now, now, s.callers[t].reply.certs)]
    ensures s'.byScope == s.byScope && s'.entries == s.entries
  {
    hide Act, Run, Reaches;
    s' := EnterGate(init, calm, s, t, e, now);
    s' := EndRead(init, calm, s', t, e, now);
    s' := LeaveGate(init, calm, s', t, e, now);
  }

  /** A read that fails, from the gate and back. */
  lemma FailIt(init: State, calm: bool, s: State, t: nat, e: nat, now: nat) returns (s': State)
    requires Initial(init) && Reaches(init, s, calm) && WellFormed(s) && t < |s.callers| && now >= s.now
    requires s.callers[t].pc == WaitPlace(Some(e)) && OpenBut(s, None)
    requires s.callers[t].reply.Bad? && Untroubled(s.callers[t])
    ensures Reaches(init, s', calm) && OpenBut(s', None)
    ensures Moved(s, s', t, WaitForget(e, s.callers[t].reply.err), now) && s'.mapLock == s.mapLock
    ensures s'.log == s.log && s'.byScope == s.byScope && s'.entries == s.entries
  {
    hide Act, Run, Reaches;
    s' := EnterGate(init, calm, s, t, e, now);
    s' := EndBadRead(init, calm, s', t, e, now);
    s' := NoteIt(init, calm, s', t, e, now);
    s' := LeaveGate(init, calm, s', t, e, now);
  }

  /** The caller's context is done while it waits for a place. */
  lemma GiveUp(init: State, calm: bool, s: State, t: nat, e: nat, now: nat) returns (s': State)
    requires Initial(init) && Reaches(init, s, calm) && WellFormed(s) && t < |s.callers| && now >= s.now
    requires !calm && s.callers[t].pc == WaitPlace(Some(e)) && s.callers[t].gate.Some?
    ensures Reaches(init, s', calm) && s'.gates == s.gates
    ensures Moved(s, s', t, WaitForget(e, CANCELLED), now) && s'.mapLock == s.mapLock
    ensures s'.log == s.log && s'.byScope == s.byScope && s'.entries == s.entries
  {
    s' := Onward(init, calm, s, t, Env(now, true, Scope("", "")));
  }

  /** The read of a caller that can fail, failing. */
  lemma FailSomehow(init: State, calm: bool, s: State, t: nat, e: nat, now: nat) returns (s': State)
    requires Initial(init) && Reaches(init, s, calm) && WellFormed(s) && t < |s.callers| && now >= s.now
    requires s.callers[t].pc == WaitPlace(Some(e)) && OpenBut(s, None)
    requires Fallible(s.callers[t], calm) && (calm ==> Untroubled(s.callers[t]))
    ensures Reaches(init, s', calm) && OpenBut(s', None) && WellFormed(s') && |s'.callers| == |s.callers| && s'.now == now
    ensures s'.callers[t].pc.WaitForget? && s'.callers[t].pc.e == e
    ensures s'.callers == s.callers[t := s.callers[t].(pc := s'.callers[t].pc)] && s'.mapLock == s.mapLock
    ensures s'.log == s.log && s'.byScope == s.byScope && s'.entries == s.entries
  {
    hide Act, Run, Reaches;
    if !calm && s.callers[t].gate.Some? {
      s' := GiveUp(init, calm, s, t, e, now);
    } else {
      s' := FailIt(init, calm, s, t, e, now);
    }
  }

  /** forgetUnread: the map, */
  lemma LockToForget(init: State, calm: bool, s: State, t: nat, now: nat) returns (s': State)
    requires Initial(init) && Reaches(init, s, calm) && WellFormed(s) && t < |s.callers| && now >= s.now
    requires s.callers[t].pc.WaitForget? && s.mapLock.None?
    ensures Reaches(init, s', calm) && s'.gates == s.gates
    ensures Moved(s, s', t, Forgetting(s.callers[t].pc.e, s.callers[t].pc.err), now) && s'.mapLock == Some(t)
    ensures s'.log == s.log && s'.byScope == s.byScope && s'.entries == s.entries
  {
    s' := Onward(init, calm, s, t, Env(now, false, Scope("", "")));
  }

  /** and the entry out of it. */
  lemma ForgetIt(init: State, calm: bool, s: State, t: nat, e: nat, scope: Scope, now: nat) returns (s': State)
    requires Initial(init) && Reaches(init, s, calm) && WellFormed(s) && t < |s.callers| && now >= s.now
    requires s.callers[t].pc.Forgetting? && s.callers[t].pc.e == e && s.callers[t].scope == Some(scope)
    requires IsCurrent(s, scope, e) && e < |s.entries| && s.entries[e].kept.None?
    ensures Reaches(init, s', calm) && s'.gates == s.gates
    ensures Moved(s, s', t, Unlocking(e, Failed(s.callers[t].pc.err)), now) && s'.mapLock.None?
    ensures s'.log == s.log && s'.byScope == s.byScope - {scope} && s'.entries == s.entries
  {
    s' := Onward(init, calm, s, t, Env(now, false, scope));
  }

  /** The entry's lock let go. */
  lemma UnlockIt(init: State, calm: bool, s: State, t: nat, e: nat, now: nat) returns (s': State)
    requires Initial(init) && Reaches(init, s, calm) && WellFormed(s) && t < |s.callers| && now >= s.now
    requires s.callers[t].pc.Unlocking? && s.callers[t].pc.e == e && e < |s.entries|
    ensures Reaches(init, s', calm) && s'.gates == s.gates
    ensures Moved(s, s', t, Done(s.callers[t].pc.answer), now) && s'.mapLock == s.mapLock
    ensures s'.log == s.log && s'.byScope == s.byScope
    ensures s'.entries == s.entries[e := s.entries[e].(holder := None)]
  {
    s' := Onward(init, calm, s, t, Env(now, false, Scope("", "")));
  }

  // ----- the sweep -----------------------------------------------------------------------------

  /** What was read is kept. */
  lemma StoreIt(init: State, calm: bool, s: State, t: nat, e: nat, now: nat) returns (s': State)
    requires Initial(init) && Reaches(init, s, calm) && WellFormed(s) && t < |s.callers| && now >= s.now
    requires s.callers[t].pc.Storing? && s.callers[t].pc.e == e && e < |s.entries|
    ensures Reaches(init, s', calm) && s'.gates == s.gates
    ensures
      var kept := Kept(now, s.callers[t].pc.certs, s.callers[t].pc.read);
      && Moved(s, s', t, WaitSweep(e, kept), now)
      && s'.entries == s.entries[e := s.entries[e].(kept := Some(kept))]
    ensures s'.mapLock == s.mapLock && s'.log == s.log && s'.byScope == s.byScope
  {
    s' := Onward(init, calm, s, t, Env(now, false, Scope("", "")));
  }

  /** The map locked for the sweep. */
  lemma BeginSweep(init: State, calm: bool, s: State, t: nat, now: nat) returns (s': State)
    requires Initial(init) && Reaches(init, s, calm) && WellFormed(s) && t < |s.callers| && now >= s.now
    requires s.callers[t].pc.WaitSweep? && s.mapLock.None?
    ensures Reaches(init, s', calm) && s'.gates == s.gates
    ensures Moved(s, s', t, Sweeping(s.callers[t].pc.e, s.callers[t].pc.kept, s.byScope.Keys), now)
    ensures s'.mapLock == Some(t) && s'.log == s.log && s'.byScope == s.byScope && s'.entries == s.entries
  {
    s' := Onward(init, calm, s, t, Env(now, false, Scope("", "")));
  }

  /** An entry in use is passed over. */
  lemma PassOver(init: State, calm: bool, s: State, t: nat, at: Scope, now: nat) returns (s': State)
    requires Initial(init) && Reaches(init, s, calm) && WellFormed(s) && t < |s.callers| && now >= s.now
    requires s.callers[t].pc.Sweeping? && at in s.callers[t].pc.todo && at in s.byScope
    requires s.byScope[at] < |s.entries| && s.entries[s.byScope[at]].holder.Some?
    ensures Reaches(init, s', calm) && s'.gates == s.gates
    ensures
      var pc := s.callers[t].pc;
      Moved(s, s', t, Sweeping(pc.e, pc.kept, pc.todo - {at}), now)
    ensures s'.mapLock == s.mapLock && s'.log == s.log && s'.byScope == s.byScope && s'.entries == s.entries
  {
    s' := Onward(init, calm, s, t, Env(now, false, at));
  }

  /** An old one that nobody holds is tried, and let go of again. */
  lemma TryIt(init: State, calm: bool, s: State, t: nat, at: Scope, now: nat) returns (s': State)
    requires Initial(init) && Reaches(init, s, calm) && WellFormed(s) && t < |s.callers| && now >= s.now
    requires s.callers[t].pc.Sweeping? && at in s.callers[t].pc.todo && at in s.byScope
    requires s.byScope[at] < |s.entries| && s.entries[s.byScope[at]].holder.None?
    requires Old(s.entries[s.byScope[at]].kept, now)
    ensures Reaches(init, s', calm) && s'.gates == s.gates
    ensures
      var pc := s.callers[t].pc;
      Moved(s, s', t, Dropping(pc.e, pc.kept, pc.todo, at), now)
    ensures s'.mapLock == s.mapLock && s'.log == s.log && s'.byScope == s.byScope && s'.entries == s.entries
  {
    s' := Onward(init, calm, s, t, Env(now, false, at));
    s' := Onward(init, calm, s', t, Env(now, false, at));
  }

  /** And then deleted. */
  lemma DropIt(init: State, calm: bool, s: State, t: nat, now: nat) returns (s': State)
    requires Initial(init) && Reaches(init, s, calm) && WellFormed(s) && t < |s.callers| && now >= s.now
    requires s.callers[t].pc.Dropping?
    ensures Reaches(init, s', calm) && s'.gates == s.gates
    ensures
      var pc := s.callers[t].pc;
      && Moved(s, s', t, Sweeping(pc.e, pc.kept, pc.todo - {pc.at}), now)
      && s'.byScope == s.byScope - {pc.at}
    ensures s'.mapLock == s.mapLock && s'.log == s.log && s'.entries == s.entries
  {
    s' := Onward(init, calm, s, t, Env(now, false, Scope("", "")));
  }

  /** The map let go at the end of the sweep. */
  lemma EndSweep(init: State, calm: bool, s: State, t: nat, now: nat) returns (s': State)
    requires Initial(init) && Reaches(init, s, calm) && WellFormed(s) && t < |s.callers| && now >= s.now
    requires s.callers[t].pc.Sweeping? && s.callers[t].pc.todo == {}
    ensures Reaches(init, s', calm) && s'.gates == s.gates
    ensures
      var pc := s.callers[t].pc;
      Moved(s, s', t, Unlocking(pc.e, Certs(pc.kept, false, now)), now)
    ensures s'.mapLock.None? && s'.log == s.log && s'.byScope == s.byScope && s'.entries == s.entries
  {
    s' := Onward(init, calm, s, t, Env(now, false, Scope("", "")));
  }

  /** One reads through an entry that is no longer in the map, and another, who finds nothing
      kept, through a new one. */
  lemma ReadBoth(init: State, calm: bool, s: State, g: nat, h: nat, e: nat, scope: Scope, now: nat) returns (s': State)
    requires Initial(init) && Reaches(init, s, calm) && WellFormed(s) && OpenBut(s, None) && now >= s.now
    requires s.mapLock.None? && scope !in s.byScope && e < |s.entries|
    requires s.entries[e].holder.None? && !Young(s.entries[e].kept, now)
    requires g < |s.callers| && h < |s.callers| && g != h && s.callers[g].pc == WaitEntry(e) && s.callers[h].pc == Start
    requires s.callers[g].scope == s.callers[h].scope == Some(scope)
    requires s.callers[g].reply.Good? && s.callers[h].reply.Good?
    ensures Reaches(init, s', calm) && s'.now == now && |s'.log| == |s.log| + 2
    ensures ReadOf(s', |s.log|, scope) && ReadOf(s', |s.log| + 1, scope)
    ensures s'.log[|s.log|].ended == s'.log[|s.log| + 1].begun == now
  {
    hide Act, Run, Reaches;
    var x := |s.entries|;
    s' := TakeIt(init, calm, s, g, e, now);
    s' := ReadIt(init, calm, s', g, e, now);
    s' := FindIt(init, calm, s', h, scope, now);
    s' := TakeIt(init, calm, s', h, x, now);
    s' := ReadIt(init, calm, s', h, x, now);
  }

  // ----- necessary: a failed read ------------------------------------------------------------------

  /** Both find the scope's first entry; the one that fails drops it under the other. */
  lemma DroppedUnder(init: State, calm: bool, b: nat, g: nat, scope: Scope) returns (s: State)
    requires Initial(init) && (calm ==> Undisturbed(init)) && b != g
    requires IsFallible(init, b, scope, calm) && IsGood(init, g, scope)
    ensures Reaches(init, s, calm) && OpenBut(s, None) && WellFormed(s) && s.now == init.now
    ensures s.mapLock.None? && s.byScope == map[] && s.log == []
    ensures s.entries == [Entry(scope, None, None)]
    ensures |s.callers| == |init.callers| && s.callers[g] == init.callers[g].(pc := WaitEntry(0))
    ensures forall t | 0 <= t < |s.callers| && t != b && t != g :: s.callers[t] == init.callers[t]
  {
    hide Act, Run, Reaches;
    var now := init.now;
    Begins(init, calm);
    s := FindIt(init, calm, init, b, scope, now);
    s := FindIt(init, calm, s, g, scope, now);
    s := TakeIt(init, calm, s, b, 0, now);
    s := FailSomehow(init, calm, s, b, 0, now);
    s := LockToForget(init, calm, s, b, now);
    s := ForgetIt(init, calm, s, b, 0, scope, now);
    s := UnlockIt(init, calm, s, b, 0, now);
  }

  lemma Begins(init: State, calm: bool)
    requires Initial(init)
    ensures Reaches(init, init, calm) && OpenBut(init, None)
  {
    assert Run(init, []) == Some(init) && Allowed([], calm);
  }

  /** And then a third finds nothing kept. */
  lemma ReadTwiceAfterAFailure(init: State, calm: bool, b: nat, g: nat, h: nat, scope: Scope) returns (s: State)
    requires Initial(init) && (calm ==> Undisturbed(init)) && b != g && b != h && g != h
    requires IsFallible(init, b, scope, calm) && IsGood(init, g, scope) && IsGood(init, h, scope)
    ensures Reaches(init, s, calm) && s.now == init.now
    ensures |s.log| == 2 && ReadOf(s, 0, scope) && ReadOf(s, 1, scope) && s.log[1].begun == s.log[0].ended
  {
    hide Act, Run, Reaches;
    s := DroppedUnder(init, calm, b, g, scope);
    s := ReadBoth(init, calm, s, g, h, 0, scope, init.now);
  }

  // ----- necessary: a sweep ------------------------------------------------------------------------

  /** One caller of the scope has read and is done, and a second has found the entry. */
  lemma KeptAndFound(init: State, calm: bool, a: nat, g: nat, scope: Scope) returns (s: State)
    requires Initial(init) && a != g && IsGood(init, a, scope) && IsGood(init, g, scope)
    ensures Reaches(init, s, calm) && OpenBut(s, None) && WellFormed(s) && s.now == init.now
    ensures s.mapLock.None? && s.byScope == map[scope := 0] && |s.log| == 1
    ensures |s.entries| == 1 && s.entries[0].holder.None?
    ensures s.entries[0].kept.Some? && s.entries[0].kept.value.at == init.now
    ensures |s.callers| == |init.callers| && s.callers[g] == init.callers[g].(pc := WaitEntry(0))
    ensures forall t | 0 <= t < |s.callers| && t != a && t != g :: s.callers[t] == init.callers[t]
  {
    hide Act, Run, Reaches;
    var now := init.now;
    Begins(init, calm);
    s := FindIt(init, calm, init, a, scope, now);
    s := TakeIt(init, calm, s, a, 0, now);
    s := ReadIt(init, calm, s, a, 0, now);
    s := StoreIt(init, calm, s, a, 0, now);
    s := BeginSweep(init, calm, s, a, now);
    s := PassOver(init, calm, s, a, scope, now);
    s := EndSweep(init, calm, s, a, now);
    s := UnlockIt(init, calm, s, a, 0, now);
    s := FindIt(init, calm, s, g, scope, now);
  }

  /** A caller of another scope sweeps a life later, and drops the entry the second waits
      for. */
  lemma SweptUnder(init: State, calm: bool, s0: State, c: nat, scope: Scope, other: Scope, now: nat) returns (s: State)
    requires Initial(init) && Reaches(init, s0, calm) && WellFormed(s0) && OpenBut(s0, None) && now >= s0.now
    requires s0.mapLock.None? && s0.byScope == map[scope := 0] && scope != other
    requires |s0.entries| == 1 && s0.entries[0].holder.None? && Old(s0.entries[0].kept, now)
    requires c < |s0.callers| && s0.callers[c].scope == Some(other) && s0.callers[c].reply.Good?
    requires s0.callers[c].pc == Start
    ensures Reaches(init, s, calm) && OpenBut(s, None) && WellFormed(s) && s.now == now
    ensures s.mapLock.None? && scope !in s.byScope && |s.log| == |s0.log| + 1
    ensures |s.entries| == 2 && s.entries[0] == s0.entries[0]
    ensures |s.callers| == |s0.callers| && forall t | 0 <= t < |s.callers| && t != c :: s.callers[t] == s0.callers[t]
  {
    hide Act, Run, Reaches;
    s := FindIt(init, calm, s0, c, other, now);
    s := TakeIt(init, calm, s, c, 1, now);
    s := ReadIt(init, calm, s, c, 1, now);
    s := StoreIt(init, calm, s, c, 1, now);
    s := BeginSweep(init, calm, s, c, now);
    assert s.byScope.Keys == {scope, other};
    s := TryIt(init, calm, s, c, scope, now);
    s := DropIt(init, calm, s, c, now);
    assert {scope, other} - {scope} == {other};
    s := PassOver(init, calm, s, c, other, now);
    assert {other} - {other} == {};
    s := EndSweep(init, calm, s, c, now);
  }

  /** Then the second reads through the dropped entry, and a third through a new one. */
  lemma ReadTwiceAfterASweep(init: State, calm: bool, a: nat, g: nat, h: nat, c: nat, scope: Scope, other: Scope)
    returns (s: State)
    requires Initial(init) && a != g && a != h && g != h
    requires IsGood(init, a, scope) && IsGood(init, g, scope) && IsGood(init, h, scope)
    requires scope != other && IsGood(init, c, other)
    ensures Reaches(init, s, calm)
    ensures |s.log| == 4 && ReadOf(s, 2, scope) && ReadOf(s, 3, scope) && s.log[3].begun == s.log[2].ended
  {
    hide Act, Run, Reaches;
    var now := init.now + CERT_LIFE;
    s := KeptAndFound(init, calm, a, g, scope);
    s := SweptUnder(init, calm, s, c, scope, other, now);
    s := ReadBoth(init, calm, s, g, h, 0, scope, now);
  }

  // ----- exactly when ---------------------------------------------------------------------------------

  /** One caller of the scope can fail and two others can read it: then they can read it at
      one moment. */
  lemma ReadTwiceInALife(init: State, scope: Scope, calm: bool)
    requires Initial(init) && (calm ==> Undisturbed(init)) && MayReadTwice(init, scope, calm)
    ensures !OnceInEveryLife(init, scope, calm) && !AlwaysApart(init, scope, calm)
  {
    var b: nat, g: nat, h: nat :| b != g && b != h && g != h && IsFallible(init, b, scope, calm)
                               && IsGood(init, g, scope) && IsGood(init, h, scope);
    var s := ReadTwiceAfterAFailure(init, calm, b, g, h, scope);
    var schedule :| Allowed(schedule, calm) && Run(init, schedule) == Some(s);
    hide Run;
    assert !PairApart(s, 0, 1, scope);
  }

  /** Three can read the scope and a fourth sweeps: then two of them can read it at one
      moment, a life after the first did, though nothing fails. */
  lemma ReadTwiceWithoutFailure(init: State, scope: Scope, calm: bool)
    requires Initial(init) && ThreeGood(init, scope) && OtherGood(init, scope)
    ensures !AlwaysApart(init, scope, calm)
  {
    var a: nat, g: nat, h: nat :| a != g && a != h && g != h
                               && IsGood(init, a, scope) && IsGood(init, g, scope) && IsGood(init, h, scope);
    var c: nat, other: Scope :| other != scope && IsGood(init, c, other);
    var s := ReadTwiceAfterASweep(init, calm, a, g, h, c, scope, other);
    var schedule :| Allowed(schedule, calm) && Run(init, schedule) == Some(s);
    hide Run;
    assert !PairApart(s, 2, 3, scope);
  }

  /** For any callers, over all schedules or over the calm ones: a scope is read at most
      once in a life of an empty cache exactly when none of its callers can fail while two
      others can read it. */
  lemma OnceExactlyWhen(init: State, scope: Scope, calm: bool)
    requires Initial(init) && (calm ==> Undisturbed(init))
    ensures OnceInEveryLife(init, scope, calm) <==> !MayReadTwice(init, scope, calm)
  {
    if MayReadTwice(init, scope, calm) {
      ReadTwiceInALife(init, scope, calm);
    } else {
      forall schedule | Run(init, schedule).Some? && Allowed(schedule, calm)
                      && Run(init, schedule).value.now < init.now + CERT_LIFE
        ensures ReadOnce(Run(init, schedule).value, scope)
      {
        var s := Run(init, schedule).value;
        forall i, k | 0 <= i < k < |s.log| ensures !(ReadOf(s, i, scope) && ReadOf(s, k, scope)) {
          OnceInALife(init, schedule, scope, calm, i, k);
        }
      }
    }
  }

  /** And its reads are a life apart in every run, however long, exactly when, as well, no
      three can read it while a caller of another scope sweeps. */
  lemma ApartExactlyWhen(init: State, scope: Scope, calm: bool)
    requires Initial(init) && (calm ==> Undisturbed(init))
    ensures AlwaysApart(init, scope, calm) <==> !MayReadClose(init, scope, calm)
  {
    if MayReadTwice(init, scope, calm) {
      ReadTwiceInALife(init, scope, calm);
    } else if MayReadClose(init, scope, calm) {
      ReadTwiceWithoutFailure(init, scope, calm);
    } else {
      forall schedule | Run(init, schedule).Some? && Allowed(schedule, calm)
        ensures ReadsAreApart(Run(init, schedule).value, scope)
      {
        var s := Run(init, schedule).value;
        forall i, k | 0 <= i < k < |s.log| ensures PairApart(s, i, k, scope) {
          if ReadOf(s, i, scope) && ReadOf(s, k, scope) {
            ApartSufficient(init, schedule, scope, calm, i, k);
          }
        }
      }
    }
  }
}
