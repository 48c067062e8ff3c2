/** What holds of every run of concurrent certificate reads and gated kubectl calls:
    answers, spacing, conservation of places, freedom from deadlock, termination. */
module CertCacheRuns {
  import opened Common
  import opened CertCache
  import opened CertCacheLocks
  import G = CertCacheGates
  import opened CertCacheAnswers

  // ----- answers ------------------------------------------------------------------

  /** Whatever the interleaving, the certificates a caller is given are those of a
      successful read by a caller of the same scope, and its own read unless they are
      reused, which they are for less than a quarter of an hour. A caller whose scope
      could not be named is only ever given its own read. */
  lemma EveryAnswerIsARead(init: State, schedule: seq<Turn>, t: nat)
    requires Initial(init) && Run(init, schedule).Some?
    requires t < |Run(init, schedule).value.callers|
    requires
      var pc := Run(init, schedule).value.callers[t].pc;
      pc.Done? && pc.answer.Certs?
    ensures
      var s := Run(init, schedule).value;
      var a := s.callers[t].pc.answer;
      && a.kept.read < |s.log|
      && var r := s.log[a.kept.read];
      && r.certs == a.kept.certs && r.ended <= a.kept.at <= a.when
      && r.who < |s.callers|
      && s.callers[r.who].reply == Good(a.kept.certs)
      && s.callers[r.who].scope == s.callers[t].scope
      && (a.reused ==> a.when < a.kept.at + CERT_LIFE && s.callers[t].scope.Some?)
      && (!a.reused ==> r.who == t)
      && (s.callers[t].scope.None? ==> r.who == t)
  {
    RunData(init, schedule);
    RunReused(init, schedule);
    assert CallerData(Run(init, schedule).value, t);
  }

  /** Only a caller that named its scope reuses a read. */
  ghost predicate ReusedIsScoped(s: State) {
    forall t | 0 <= t < |s.callers| :: ScopedReuse(s.callers[t])
  }

  predicate ScopedReuse(c: Caller) {
    && (c.pc.Unlocking? && c.pc.answer.Certs? && c.pc.answer.reused ==> c.scope.Some?)
    && (c.pc.Done? && c.pc.answer.Certs? && c.pc.answer.reused ==> c.scope.Some?)
  }

  lemma {:induction false} RunReused(init: State, schedule: seq<Turn>)
    requires Initial(init) && Run(init, schedule).Some?
    ensures ReusedIsScoped(Run(init, schedule).value)
  {
    if schedule != [] {
      var last := |schedule| - 1;
      var s, turn := Run(init, schedule[..last]).value, schedule[last];
      RunReused(init, schedule[..last]);
      RunLocks(init, schedule[..last]);
      assert CallerLocks(s, turn.caller) && ScopedReuse(s.callers[turn.caller]);
      StepReused(s, turn.caller, turn.env);
    }
  }

  lemma StepReused(s: State, t: nat, env: Env)
    requires Locks(s) && t < |s.callers| && Act(s, t, env).Some? && ScopedReuse(s.callers[t])
    ensures ScopedReuse(Act(s, t, env).value.callers[t])
  {
    assert CallerLocks(s, t);
  }

  /** Successful reads through one entry never start within a life of the end of the one
      before, so two reads of one scope closer than that went through two entries. */
  lemma ReadsAreALifeApart(init: State, schedule: seq<Turn>, i: nat, k: nat)
    requires Initial(init) && Run(init, schedule).Some?
    requires i < k < |Run(init, schedule).value.log|
    ensures
      var log := Run(init, schedule).value.log;
      log[i].entry.Some? && log[i].entry == log[k].entry ==> log[i].ended + CERT_LIFE <= log[k].begun
  {
    RunData(init, schedule);
  }

  /** Two callers that find nothing kept make one list between them: no two subprocesses
      ever read through one entry at once. */
  lemma OneReadAtATime(init: State, schedule: seq<Turn>, t: nat, u: nat)
    requires Initial(init) && Run(init, schedule).Some?
    requires t < |Run(init, schedule).value.callers| && u < |Run(init, schedule).value.callers| && t != u
    ensures
      var s := Run(init, schedule).value;
      var a, b := s.callers[t].pc, s.callers[u].pc;
      !(a.Reading? && b.Reading? && a.own.Some? && a.own == b.own)
  {
    RunLocks(init, schedule);
    var s := Run(init, schedule).value;
    if s.callers[t].pc.Reading? && s.callers[t].pc.own.Some? {
      assert CallerLocks(s, t) && CallerLocks(s, u);
    }
  }

  // ----- gates ---------------------------------------------------------------------

  /** Of every gate in every reachable state: the places taken are the callers between
      enter and leave and no more than its width, giving one back never waits, and no
      more callers than it has places ever failed for the cluster as a whole. */
  lemma {:induction false} PlacesAreConserved(init: State, schedule: seq<Turn>, g: nat)
    requires Initial(init) && Run(init, schedule).Some? && g < |init.gates|
    ensures
      var s := Run(init, schedule).value;
      && s.gates[g].taken == CountIf(s.callers, G.PlaceOf(g)) <= s.gates[g].width
      && |G.WideAsked(s, g)| <= s.gates[g].width
      && forall t: nat, env: Env | t < |s.callers| && env.now >= s.now
                                   && (s.callers[t].pc.TurnedAway? || s.callers[t].pc.Leaving?) ::
           Act(s, t, env).Some?
  {
    G.RunGates(init, schedule);
    var s := Run(init, schedule).value;
    assert G.GateOk(s, g);
    forall t: nat, env: Env | t < |s.callers| && env.now >= s.now
                              && (s.callers[t].pc.TurnedAway? || s.callers[t].pc.Leaving?)
      ensures Act(s, t, env).Some?
    {
      OnGateCanStep(s, t, env);
    }
  }

  lemma OnGateCanStep(s: State, t: nat, env: Env)
    requires G.Gates(s) && t < |s.callers| && env.now >= s.now && G.OnGate(s.callers[t].pc)
    ensures Act(s, t, env).Some?
  {
    if s.callers[t].gate.Some? {
      var g := s.callers[t].gate.value;
      assert G.GateOk(s, g) && G.PlaceOf(g)(s.callers[t]);
      CountZero(s.callers, G.PlaceOf(g));
    }
  }

  /** A cluster that every call behind one gate fails on gets at most `width` subprocesses
      from there, whatever the callers of other gates meet. */
  lemma DeadClusterAskedWidthTimes(init: State, schedule: seq<Turn>, g: nat)
    requires Initial(init) && Run(init, schedule).Some? && g < |init.gates|
    requires forall c | c in Run(init, schedule).value.callers && c.gate == Some(g) :: Wide(c.reply)
    ensures |Run(init, schedule).value.gates[g].asked| <= Run(init, schedule).value.gates[g].width
  {
    G.RunGates(init, schedule);
    var s := Run(init, schedule).value;
    assert G.GateOk(s, g);
    assert G.WideAsked(s, g) == s.gates[g].asked;
  }

  /** Once a gate is down it keeps the first failure and lets no further call through. */
  lemma {:induction false} DownSticks(init: State, before: seq<Turn>, after: seq<Turn>, g: nat)
    requires Initial(init) && Run(init, before + after).Some? && g < |init.gates|
    ensures Run(init, before).Some?
    ensures
      var s, s' := Run(init, before).value, Run(init, before + after).value;
      s.gates[g].down.Some? ==> s'.gates[g].down == s.gates[g].down && s'.gates[g].asked == s.gates[g].asked
  {
    if after == [] {
      assert before + after == before;
    } else {
      var last := |after| - 1;
      assert (before + after)[..|before + after| - 1] == before + after[..last];
      DownSticks(init, before, after[..last], g);
      var s := Run(init, before + after[..last]).value;
      G.RunGates(init, before + after[..last]);
      StepDown(s, after[last].caller, after[last].env, g);
    }
  }

  lemma StepDown(s: State, t: nat, env: Env, g: nat)
    requires G.Gates(s) && t < |s.callers| && Act(s, t, env).Some? && g < |s.gates|
    ensures s.gates[g].down.Some? ==>
      Act(s, t, env).value.gates[g].down == s.gates[g].down && Act(s, t, env).value.gates[g].asked == s.gates[g].asked
  {
    if !Gated(s.callers[t].pc) {
      G.ElsewhereLeavesGates(s, t, env);
    } else if s.callers[t].gate == Some(g) {
      G.OwnGateEffect(s, t, env, g);
    } else {
      G.GatedLeavesOthers(s, t, env, g);
    }
  }

  // ----- no deadlock -----------------------------------------------------------------

  ghost predicate AllDone(s: State) {
    forall t | 0 <= t < |s.callers| :: s.callers[t].pc.Done?
  }

  /** Caller t can go on at once, without its context being cancelled. */
  ghost predicate CanStep(s: State, t: nat)
    requires WellFormed(s) && t < |s.callers|
  {
    exists pick :: Act(s, t, Env(s.now, false, pick)).Some?
  }

  /** No holder of the map, of a place at a gate, or of the lock forgetOld tried waits
      for anything. */
  lemma HoldersGoOn(s: State, t: nat)
    requires Locks(s) && G.Gates(s) && t < |s.callers|
    requires HoldsMap(s.callers[t].pc) || G.OnGate(s.callers[t].pc)
    ensures CanStep(s, t)
  {
    assert CallerLocks(s, t);
    var pc := s.callers[t].pc;
    var pick := if pc.Sweeping? && pc.todo != {} then Any(pc.todo) else Scope("", "");
    if G.OnGate(pc) {
      OnGateCanStep(s, t, Env(s.now, false, pick));
    }
    assert Act(s, t, Env(s.now, false, pick)).Some?;
  }

  ghost function Any(todo: set<Scope>): (r: Scope)
    requires todo != {}
    ensures r in todo
  {
    var r :| r in todo;
    r
  }

  /** With the map free and every gate's places free, whoever does not wait for an entry
      goes on. */
  lemma OthersGoOn(s: State, t: nat)
    requires Locks(s) && G.Gates(s) && t < |s.callers|
    requires s.mapLock.None? && forall g | 0 <= g < |s.gates| :: s.gates[g].taken == 0
    requires !s.callers[t].pc.Done?
    requires s.callers[t].pc.WaitEntry? ==>
      s.callers[t].pc.e < |s.entries| && s.entries[s.callers[t].pc.e].holder.None?
    ensures CanStep(s, t)
  {
    assert CallerLocks(s, t);
    var c := s.callers[t];
    if c.gate.Some? {
      assert G.GateOk(s, c.gate.value);
    }
    if HoldsMap(c.pc) || G.OnGate(c.pc) {
      HoldersGoOn(s, t);
    } else {
      var env := Env(s.now, false, Scope("", ""));
      assert Act(s, t, env).Some?;
    }
  }

  /** No reachable state is a deadlock, for any number of callers over any scopes and
      gates: until all have answered, one of them can go on. */
  lemma NoDeadlock(init: State, schedule: seq<Turn>)
    requires Initial(init) && Run(init, schedule).Some? && !AllDone(Run(init, schedule).value)
    ensures
      var s := Run(init, schedule).value;
      exists t: nat :: t < |s.callers| && CanStep(s, t)
  {
    RunLocks(init, schedule);
    G.RunGates(init, schedule);
    var s := Run(init, schedule).value;
    if s.mapLock.Some? {
      HoldersGoOn(s, s.mapLock.value);
    } else if exists t: nat :: t < |s.callers| && G.OnGate(s.callers[t].pc) {
      var t: nat :| t < |s.callers| && G.OnGate(s.callers[t].pc);
      HoldersGoOn(s, t);
    } else {
      forall g | 0 <= g < |s.gates| ensures s.gates[g].taken == 0 {
        assert G.GateOk(s, g);
        CountZero(s.callers, G.PlaceOf(g));
      }
      var t: nat :| t < |s.callers| && !s.callers[t].pc.Done?;
      assert CallerLocks(s, t);
      if s.callers[t].pc.WaitEntry? && s.entries[s.callers[t].pc.e].holder.Some? {
        var x := s.callers[t].pc.e;
        var h := s.entries[x].holder.value;
        assert EntryLock(s, x);
        OthersGoOn(s, h);
      } else {
        OthersGoOn(s, t);
      }
    }
  }

  /** When all have answered, the map, every entry and every place are free. */
  lemma EverythingIsReleased(init: State, schedule: seq<Turn>)
    requires Initial(init) && Run(init, schedule).Some? && AllDone(Run(init, schedule).value)
    ensures
      var s := Run(init, schedule).value;
      && s.mapLock.None?
      && (forall x | 0 <= x < |s.entries| :: s.entries[x].holder.None?)
      && (forall g | 0 <= g < |s.gates| :: s.gates[g].taken == 0)
  {
    RunLocks(init, schedule);
    G.RunGates(init, schedule);
    var s := Run(init, schedule).value;
    forall x | 0 <= x < |s.entries| ensures s.entries[x].holder.None? {
      assert EntryLock(s, x);
    }
    forall g | 0 <= g < |s.gates| ensures s.gates[g].taken == 0 {
      assert G.GateOk(s, g);
      CountZero(s.callers, G.PlaceOf(g));
    }
  }

  // ----- every run ends ----------------------------------------------------------------

  function Phase(c: Caller): nat {
    match c.pc
    case Start => 14
    case Finding => 13
    case WaitEntry(_) => 12
    case Checking(_) => 11
    case WaitPlace(_) => 10
    case AtGate(_) => 9
    case TurnedAway(_, _) => 8
    case Reading(_, _) => 8
    case Noting(_, _) => 7
    case Leaving(_, _, _) => 6
    case Storing(_, _, _) => 5
    case WaitSweep(_, _) => 4
    case Sweeping(_, _, _) => 3
    case Trying(_, _, _, _, _) => 3
    case Dropping(_, _, _, _) => 3
    case WaitForget(_, _) => 3
    case Forgetting(_, _) => 2
    case Unlocking(_, _) => 1
    case Done(_) => 0
  }

  /** What is left of forgetOld's loop. */
  function Sweep(c: Caller): nat {
    match c.pc
    case Sweeping(_, _, todo) => 3 * |todo|
    case Trying(_, _, todo, at, _) => 3 * |todo - {at}| + 2
    case Dropping(_, _, todo, at) => 3 * |todo - {at}| + 1
    case _ => 0
  }

  predicate Lower(c': Caller, c: Caller) {
    Phase(c') < Phase(c) || (Phase(c') == Phase(c) && Sweep(c') < Sweep(c))
  }

  lemma TidyingGoesDown(s: State, t: nat, env: Env)
    requires WellFormed(s) && t < |s.callers| && Act(s, t, env).Some? && Tidying(s.callers[t].pc)
    ensures Lower(Act(s, t, env).value.callers[t], s.callers[t])
  {
    var pc := s.callers[t].pc;
    if pc.Sweeping? && env.pick in pc.todo {
      assert |pc.todo - {env.pick}| == |pc.todo| - 1;
    }
  }

  lemma GatedGoesDown(s: State, t: nat, env: Env)
    requires WellFormed(s) && t < |s.callers| && Act(s, t, env).Some? && Gated(s.callers[t].pc)
    ensures Lower(Act(s, t, env).value.callers[t], s.callers[t])
  {
  }

  lemma StepGoesDown(s: State, t: nat, env: Env)
    requires WellFormed(s) && t < |s.callers| && Act(s, t, env).Some?
    ensures Lower(Act(s, t, env).value.callers[t], s.callers[t])
  {
    if Tidying(s.callers[t].pc) {
      TidyingGoesDown(s, t, env);
    } else if Gated(s.callers[t].pc) {
      GatedGoesDown(s, t, env);
    }
  }

  function Prefix(f: nat -> Turn, n: nat): seq<Turn> {
    seq(n, i requires 0 <= i < n => f(i))
  }

  lemma {:induction false} Descend(init: State, f: nat -> Turn, n: nat)
    requires Initial(init) && forall m: nat :: Run(init, Prefix(f, m)).Some?
    ensures false
    decreases SumOf(Run(init, Prefix(f, n)).value.callers, Phase), SumOf(Run(init, Prefix(f, n)).value.callers, Sweep)
  {
    var s, s', t := Run(init, Prefix(f, n)).value, Run(init, Prefix(f, n + 1)).value, f(n).caller;
    assert Prefix(f, n + 1)[..n] == Prefix(f, n);
    assert Run(init, Prefix(f, n + 1)).Some?;
    StepGoesDown(s, t, f(n).env);
    SumUpdate(s.callers, Phase, t, s'.callers[t]);
    SumUpdate(s.callers, Sweep, t, s'.callers[t]);
    Descend(init, f, n + 1);
  }

  /** No schedule goes on for ever: whatever the order of turns, at some point everyone it
      asks has ended or must wait for another. */
  lemma EveryRunEnds(init: State, f: nat -> Turn)
    requires Initial(init)
    ensures exists n: nat :: Run(init, Prefix(f, n)).None?
  {
    if forall m: nat :: Run(init, Prefix(f, m)).Some? {
      Descend(init, f, 0);
    }
  }
}
