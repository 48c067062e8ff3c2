/** Exactly when a scope is read once in a quarter of an hour, whatever the schedule
    (plugins/kube/cert.go): a condition on the callers that are there, proved sufficient
    here and necessary in CertCacheRace. It is stated twice over: of all schedules, and of
    the `calm` ones, in which nobody is cancelled and no failure takes a gate down. */
module CertCacheOnce {
  import opened Common
  import opened CertCache
  import opened CertCacheLocks
  import opened CertCacheAnswers
  import opened CertCacheScopes

  // ----- who is there ---------------------------------------------------------------------

  /** The caller's read can fail: as it is, or by being cancelled or turned away at a gate. */
  predicate Fallible(c: Caller, calm: bool) {
    c.reply.Bad? || (!calm && c.gate.Some?)
  }

  /** Its failure takes no gate down. */
  predicate Untroubled(c: Caller) {
    c.gate.None? || !Wide(c.reply)
  }

  predicate Undisturbed(s: State) {
    forall t | 0 <= t < |s.callers| :: Untroubled(s.callers[t])
  }

  /** No turn of the schedule finds its caller's context done. */
  predicate Uncancelled(schedule: seq<Turn>) {
    forall i | 0 <= i < |schedule| :: !schedule[i].env.cancelled
  }

  /** The schedules spoken of. */
  predicate Allowed(schedule: seq<Turn>, calm: bool) {
    calm ==> Uncancelled(schedule)
  }

  predicate IsGood(s: State, t: nat, scope: Scope) {
    t < |s.callers| && s.callers[t].scope == Some(scope) && s.callers[t].reply.Good?
  }

  predicate IsFallible(s: State, t: nat, scope: Scope, calm: bool) {
    t < |s.callers| && s.callers[t].scope == Some(scope) && Fallible(s.callers[t], calm)
  }

  ghost predicate ThreeGood(s: State, scope: Scope) {
    exists f: nat, g: nat, h: nat ::
      f != g && f != h && g != h && IsGood(s, f, scope) && IsGood(s, g, scope) && IsGood(s, h, scope)
  }

  ghost predicate OtherGood(s: State, scope: Scope) {
    exists t: nat, other: Scope :: other != scope && IsGood(s, t, other)
  }

  /** One caller of the scope can fail and two others can read it. */
  ghost predicate MayReadTwice(s: State, scope: Scope, calm: bool) {
    exists b: nat, g: nat, h: nat ::
      b != g && b != h && g != h && IsFallible(s, b, scope, calm) && IsGood(s, g, scope) && IsGood(s, h, scope)
  }

  /** Or three can read it, and a caller of another scope sweeps. */
  ghost predicate MayReadClose(s: State, scope: Scope, calm: bool) {
    MayReadTwice(s, scope, calm) || (ThreeGood(s, scope) && OtherGood(s, scope))
  }

  // ----- what is promised -----------------------------------------------------------------

  ghost predicate ReadsAreApart(s: State, scope: Scope) {
    forall i, k | 0 <= i < k < |s.log| :: PairApart(s, i, k, scope)
  }

  /** Every run, however long, keeps successful reads of the scope a life apart. */
  ghost predicate AlwaysApart(init: State, scope: Scope, calm: bool)
    requires Initial(init)
  {
    forall schedule | Run(init, schedule).Some? && Allowed(schedule, calm) ::
      ReadsAreApart(Run(init, schedule).value, scope)
  }

  ghost predicate ReadOnce(s: State, scope: Scope) {
    forall i, k | 0 <= i < k < |s.log| :: !(ReadOf(s, i, scope) && ReadOf(s, k, scope))
  }

  /** Every run that ends within a life of its beginning reads the scope at most once. */
  ghost predicate OnceInEveryLife(init: State, scope: Scope, calm: bool)
    requires Initial(init)
  {
    forall schedule | Run(init, schedule).Some? && Allowed(schedule, calm)
                    && Run(init, schedule).value.now < init.now + CERT_LIFE ::
      ReadOnce(Run(init, schedule).value, scope)
  }

  // ----- who fails and who sweeps --------------------------------------------------------------

  predicate FailPath(pc: Pc) {
    || pc.TurnedAway? || pc.Noting? || (pc.Leaving? && pc.reply.Bad?) || pc.WaitForget? || pc.Forgetting?
    || (pc.Unlocking? && pc.answer.Failed?) || (pc.Done? && pc.answer.Failed?)
  }

  predicate KeepPath(pc: Pc) {
    pc.Storing? || Tidying(pc)
  }

  /** Only a caller whose read can fail is on a failure's way out, and only one whose read
      succeeds keeps and sweeps. */
  predicate CallerOk(c: Caller, calm: bool) {
    && (FailPath(c.pc) ==> Fallible(c, calm))
    && (KeepPath(c.pc) ==> c.reply.Good?)
    && (c.pc.Noting? ==> c.reply == Bad(c.pc.err))
    && (c.pc.Leaving? ==> c.pc.reply == c.reply || (c.pc.reply.Bad? && c.reply.Bad?))
    && (calm ==> Untroubled(c) && !c.pc.TurnedAway?)
  }

  ghost predicate RunOk(s: State, calm: bool) {
    && (calm ==> forall g | 0 <= g < |s.gates| :: s.gates[g].down.None?)
    && (forall t | 0 <= t < |s.callers| :: CallerOk(s.callers[t], calm))
  }

  lemma OkOwn(s: State, t: nat, env: Env, calm: bool)
    requires RunOk(s, calm) && WellFormed(s) && t < |s.callers| && Act(s, t, env).Some?
    requires calm ==> !env.cancelled
    ensures CallerOk(Act(s, t, env).value.callers[t], calm)
  {
    var pc := s.callers[t].pc;
    if Entering(pc) { EnteringOk(s, t, env, calm); }
    else if Gated(pc) { GatedOk(s, t, env, calm); }
    else if Tidying(pc) { TidyingOk(s, t, env, calm); }
    else { EndingOk(s, t, env, calm); }
  }

  lemma EnteringOk(s: State, t: nat, env: Env, calm: bool)
    requires RunOk(s, calm) && WellFormed(s) && t < |s.callers| && Act(s, t, env).Some?
    requires (calm ==> !env.cancelled) && Entering(s.callers[t].pc)
    ensures CallerOk(Act(s, t, env).value.callers[t], calm)
  {
    assert CallerOk(s.callers[t], calm);
  }

  lemma GatedOk(s: State, t: nat, env: Env, calm: bool)
    requires RunOk(s, calm) && WellFormed(s) && t < |s.callers| && Act(s, t, env).Some?
    requires (calm ==> !env.cancelled) && Gated(s.callers[t].pc)
    ensures CallerOk(Act(s, t, env).value.callers[t], calm)
  {
    assert CallerOk(s.callers[t], calm);
  }

  lemma TidyingOk(s: State, t: nat, env: Env, calm: bool)
    requires RunOk(s, calm) && WellFormed(s) && t < |s.callers| && Act(s, t, env).Some?
    requires (calm ==> !env.cancelled) && Tidying(s.callers[t].pc)
    ensures CallerOk(Act(s, t, env).value.callers[t], calm)
  {
    assert CallerOk(s.callers[t], calm);
  }

  lemma EndingOk(s: State, t: nat, env: Env, calm: bool)
    requires RunOk(s, calm) && WellFormed(s) && t < |s.callers| && Act(s, t, env).Some?
    requires (calm ==> !env.cancelled) && Ending(s.callers[t].pc)
    ensures CallerOk(Act(s, t, env).value.callers[t], calm)
  {
    assert CallerOk(s.callers[t], calm);
  }

  lemma OkGates(s: State, t: nat, env: Env)
    requires RunOk(s, true) && WellFormed(s) && t < |s.callers| && Act(s, t, env).Some?
    ensures forall g | 0 <= g < |Act(s, t, env).value.gates| :: Act(s, t, env).value.gates[g].down.None?
  {
    assert CallerOk(s.callers[t], true);
  }

  lemma LogSince(s: State, t: nat, env: Env, start: nat)
    requires WellFormed(s) && t < |s.callers| && Act(s, t, env).Some? && start <= s.now
    requires forall i | 0 <= i < |s.log| :: s.log[i].ended >= start
    ensures forall i | 0 <= i < |Act(s, t, env).value.log| :: Act(s, t, env).value.log[i].ended >= start
  {
  }

  /** The callers of a run are the ones it began with. */
  ghost predicate SameCallers(init: State, s: State) {
    && |s.callers| == |init.callers|
    && forall t | 0 <= t < |s.callers| :: s.callers[t] == init.callers[t].(pc := s.callers[t].pc)
  }

  lemma {:induction false} RunSame(init: State, schedule: seq<Turn>)
    requires Initial(init) && Run(init, schedule).Some?
    ensures SameCallers(init, Run(init, schedule).value) && init.now <= Run(init, schedule).value.now
    ensures forall i | 0 <= i < |Run(init, schedule).value.log| :: Run(init, schedule).value.log[i].ended >= init.now
  {
    if schedule != [] {
      var last := |schedule| - 1;
      RunSame(init, schedule[..last]);
      LogSince(Run(init, schedule[..last]).value, schedule[last].caller, schedule[last].env, init.now);
    }
  }

  lemma {:induction false} RunIsOk(init: State, schedule: seq<Turn>, calm: bool)
    requires Initial(init) && Run(init, schedule).Some? && Allowed(schedule, calm) && (calm ==> Undisturbed(init))
    ensures RunOk(Run(init, schedule).value, calm)
  {
    if schedule != [] {
      var last := |schedule| - 1;
      var s, turn := Run(init, schedule[..last]).value, schedule[last];
      RunIsOk(init, schedule[..last], calm);
      OkOwn(s, turn.caller, turn.env, calm);
      if calm {
        OkGates(s, turn.caller, turn.env);
      }
    }
  }

  // ----- the first removal under another caller -----------------------------------------------------

  lemma {:induction false} FirstTear(init: State, schedule: seq<Turn>, scope: Scope) returns (n: nat)
    requires Initial(init) && !Intact(init, schedule, scope)
    ensures n < |schedule| && TearsAt(init, schedule, n, scope) && Intact(init, schedule[..n], scope)
  {
    hide TearsAt;
    n :| 0 <= n < |schedule| && TearsAt(init, schedule, n, scope);
    if !Intact(init, schedule[..n], scope) {
      var m := FirstTear(init, schedule[..n], scope);
      TearsInFront(init, schedule, n, m, scope);
      assert schedule[..n][..m] == schedule[..m];
      n := m;
    }
  }

  lemma TearsInFront(init: State, schedule: seq<Turn>, n: nat, m: nat, scope: Scope)
    requires Initial(init) && m < n <= |schedule|
    ensures TearsAt(init, schedule[..n], m, scope) <==> TearsAt(init, schedule, m, scope)
  {
    assert schedule[..n][..m] == schedule[..m] && schedule[..n][..m + 1] == schedule[..m + 1];
  }

  /** It is the work of a caller of the scope whose read failed, or of the sweep of another
      scope's caller, who drops what was read a life ago. */
  lemma TearIs(init: State, schedule: seq<Turn>, n: nat, scope: Scope, calm: bool)
    requires Initial(init) && Allowed(schedule, calm) && (calm ==> Undisturbed(init))
    requires n < |schedule| && TearsAt(init, schedule, n, scope) && Intact(init, schedule[..n], scope)
    ensures
      var s, t := Run(init, schedule[..n]).value, schedule[n].caller;
      || (t < |s.callers| && s.callers[t].pc.Forgetting? && IsFallible(init, t, scope, calm))
      || (OtherGood(init, scope) && HasOldRead(s, scope))
  {
    var before, turn := schedule[..n], schedule[n];
    var s := Run(init, before).value;
    assert schedule[..n + 1][..n] == before;
    RunSame(init, before);
    RunIsOk(init, before, calm);
    RunLocks(init, before);
    RunData(init, before);
    RunWhole(init, before, scope);
    StepMap(s, turn.caller, turn.env, scope);
    hide Run, Act, TearsAt;
    RemovalIs(init, s, turn.caller, scope, Act(s, turn.caller, turn.env).value, calm);
  }

  /** A read of the scope that is a life old. */
  ghost predicate HasOldRead(s: State, scope: Scope) {
    exists j :: 0 <= j < |s.log| && ReadOf(s, j, scope) && s.log[j].ended + CERT_LIFE <= s.now
  }

  lemma RemovalIs(init: State, s: State, t: nat, scope: Scope, s': State, calm: bool)
    requires SameCallers(init, s) && RunOk(s, calm) && Locks(s) && Data(s) && Whole(s, scope)
    requires t < |s.callers| && t < |s'.callers| && Removal(s, s', t, scope)
    ensures
      || (s.callers[t].pc.Forgetting? && IsFallible(init, t, scope, calm))
      || (OtherGood(init, scope) && HasOldRead(s, scope))
  {
    assert CallerOk(s.callers[t], calm) && CallerLocks(s, t) && SweeperOk(s, t, scope);
    if s.callers[t].pc.Dropping? {
      assert IsGood(init, t, s.callers[t].scope.value);
      var x := s.byScope[scope];
      var j :| 0 <= j < |s.log| && s.log[j].entry == Some(x) && s.log[j].ended + CERT_LIFE <= s.now;
      assert LogOk(s, j) && ReadOf(s, j, scope);
    }
  }

  // ----- a caller reads once --------------------------------------------------------------------

  /** After a read that succeeded. */
  predicate ReadPath(pc: Pc) {
    || (pc.Leaving? && pc.reply.Good?) || KeepPath(pc)
    || (pc.Unlocking? && pc.answer.Certs?) || (pc.Done? && pc.answer.Certs?)
  }

  ghost predicate ReadersDiffer(s: State) {
    && (forall i | 0 <= i < |s.log| :: s.log[i].who < |s.callers| && ReadPath(s.callers[s.log[i].who].pc)
                                      && s.callers[s.log[i].who].reply.Good?)
    && (forall i, k | 0 <= i < k < |s.log| :: s.log[i].who != s.log[k].who)
  }

  lemma StepDiffers(s: State, t: nat, env: Env)
    requires WellFormed(s) && ReadersDiffer(s) && t < |s.callers| && Act(s, t, env).Some?
    ensures ReadersDiffer(Act(s, t, env).value)
  {
    PathsStay(s, t, env);
    LogGrows(s, t, env);
  }

  /** A caller that has read goes on as one that has, and one that has failed as one that
      has not. */
  lemma PathsStay(s: State, t: nat, env: Env)
    requires WellFormed(s) && t < |s.callers| && Act(s, t, env).Some?
    ensures ReadPath(s.callers[t].pc) ==> ReadPath(Act(s, t, env).value.callers[t].pc)
    ensures FailPath(s.callers[t].pc) ==> FailPath(Act(s, t, env).value.callers[t].pc)
  {
  }

  lemma LogGrows(s: State, t: nat, env: Env)
    requires WellFormed(s) && t < |s.callers| && Act(s, t, env).Some?
    ensures
      var s' := Act(s, t, env).value;
      || s'.log == s.log
      || (s.callers[t].pc.Reading? && s.callers[t].reply.Good? && s'.callers[t].pc.Leaving?
          && |s'.log| == |s.log| + 1 && s'.log[..|s.log|] == s.log
          && s'.log[|s.log|].who == t && s'.log[|s.log|].begun == s.callers[t].pc.begun)
  {
  }

  lemma {:induction false} RunDiffers(init: State, schedule: seq<Turn>)
    requires Initial(init) && Run(init, schedule).Some?
    ensures ReadersDiffer(Run(init, schedule).value)
  {
    if schedule != [] {
      var last := |schedule| - 1;
      RunDiffers(init, schedule[..last]);
      StepDiffers(Run(init, schedule[..last]).value, schedule[last].caller, schedule[last].env);
    }
  }

  lemma {:induction false} FailedStayFailed(init: State, schedule: seq<Turn>, n: nat, t: nat)
    requires Initial(init) && Run(init, schedule).Some? && n <= |schedule|
    ensures Run(init, schedule[..n]).Some?
    ensures
      var s, s' := Run(init, schedule[..n]).value, Run(init, schedule).value;
      t < |s.callers| && FailPath(s.callers[t].pc) ==> t < |s'.callers| && FailPath(s'.callers[t].pc)
  {
    if n == |schedule| {
      assert schedule[..n] == schedule;
    } else {
      var last := |schedule| - 1;
      assert schedule[..last][..n] == schedule[..n];
      FailedStayFailed(init, schedule[..last], n, t);
      PathsStay(Run(init, schedule[..last]).value, schedule[last].caller, schedule[last].env);
    }
  }

  // ----- reads that end after a moment began after another ------------------------------------------

  /** What caller q reads from log index `from` on began no earlier than `time`. */
  ghost predicate ReadsLater(s: State, q: nat, from: nat, time: nat) {
    && q < |s.callers| && from <= |s.log| && time <= s.now
    && (s.callers[q].pc.Reading? ==> time <= s.callers[q].pc.begun)
    && forall r | from <= r < |s.log| && s.log[r].who == q :: time <= s.log[r].begun
  }

  lemma StepLater(s: State, t: nat, env: Env, q: nat, from: nat, time: nat)
    requires Locks(s) && ReadsLater(s, q, from, time) && t < |s.callers| && Act(s, t, env).Some?
    ensures ReadsLater(Act(s, t, env).value, q, from, time)
  {
    StepRead(s, t, env);
    LogGrows(s, t, env);
  }

  lemma {:induction false} RunLater(init: State, schedule: seq<Turn>, n: nat, q: nat, time: nat)
    requires Initial(init) && Run(init, schedule).Some? && n <= |schedule|
    ensures Run(init, schedule[..n]).Some?
    ensures
      var s, s' := Run(init, schedule[..n]).value, Run(init, schedule).value;
      && |s.log| <= |s'.log| && s'.log[..|s.log|] == s.log
      && (ReadsLater(s, q, |s.log|, time) ==> ReadsLater(s', q, |s.log|, time))
  {
    if n == |schedule| {
      assert schedule[..n] == schedule;
    } else {
      var last := |schedule| - 1;
      var before := schedule[..last];
      assert before[..n] == schedule[..n];
      RunLater(init, before, n, q, time);
      RunLocks(init, before);
      var s, m := Run(init, schedule[..n]).value, Run(init, before).value;
      LogGrows(m, schedule[last].caller, schedule[last].env);
      if ReadsLater(s, q, |s.log|, time) {
        StepLater(m, schedule[last].caller, schedule[last].env, q, |s.log|, time);
      }
    }
  }

  // ----- sufficient -----------------------------------------------------------------------------------

  /** Two reads of a scope are by two callers who can read it. */
  lemma TwoReaders(init: State, schedule: seq<Turn>, scope: Scope, i: nat, k: nat)
    requires Initial(init) && Run(init, schedule).Some?
    requires
      var s := Run(init, schedule).value;
      i < k < |s.log| && ReadOf(s, i, scope) && ReadOf(s, k, scope)
    ensures
      var s := Run(init, schedule).value;
      && s.log[i].who != s.log[k].who
      && IsGood(init, s.log[i].who, scope) && IsGood(init, s.log[k].who, scope)
  {
    RunDiffers(init, schedule);
    RunSame(init, schedule);
    hide Run;
    TwoReadersOf(init, Run(init, schedule).value, scope, i, k);
  }

  lemma TwoReadersOf(init: State, s: State, scope: Scope, i: nat, k: nat)
    requires SameCallers(init, s) && ReadersDiffer(s)
    requires i < k < |s.log| && ReadOf(s, i, scope) && ReadOf(s, k, scope)
    ensures s.log[i].who != s.log[k].who
    ensures IsGood(init, s.log[i].who, scope) && IsGood(init, s.log[k].who, scope)
  {
    assert IsGood(init, s.log[i].who, scope) && IsGood(init, s.log[k].who, scope);
  }

  /** The removal was no failed read's: whoever failed is neither of the two readers. */
  lemma TornBySweep(init: State, schedule: seq<Turn>, n: nat, scope: Scope, calm: bool, i: nat, k: nat)
    requires Initial(init) && Allowed(schedule, calm) && (calm ==> Undisturbed(init))
    requires !MayReadTwice(init, scope, calm) && Run(init, schedule).Some?
    requires n < |schedule| && TearsAt(init, schedule, n, scope) && Intact(init, schedule[..n], scope)
    requires
      var s := Run(init, schedule).value;
      i < k < |s.log| && ReadOf(s, i, scope) && ReadOf(s, k, scope)
    ensures OtherGood(init, scope) && HasOldRead(Run(init, schedule[..n]).value, scope)
  {
    TearIs(init, schedule, n, scope, calm);
    TwoReaders(init, schedule, scope, i, k);
    RunDiffers(init, schedule);
    FailedStayFailed(init, schedule, n, schedule[n].caller);
    hide Run, Intact, TearsAt, HasOldRead, OtherGood;
    FailedIsNoReader(init, Run(init, schedule).value, schedule[n].caller, scope, calm, i, k);
  }

  lemma FailedIsNoReader(init: State, s: State, t: nat, scope: Scope, calm: bool, i: nat, k: nat)
    requires ReadersDiffer(s) && i < k < |s.log| && !MayReadTwice(init, scope, calm)
    requires IsGood(init, s.log[i].who, scope) && IsGood(init, s.log[k].who, scope)
    ensures !(t < |s.callers| && FailPath(s.callers[t].pc) && IsFallible(init, t, scope, calm))
  {
    var p, q := s.log[i].who, s.log[k].who;
    assert ReadPath(s.callers[p].pc) && ReadPath(s.callers[q].pc);
  }

  lemma ApartSufficient(init: State, schedule: seq<Turn>, scope: Scope, calm: bool, i: nat, k: nat)
    requires Initial(init) && (calm ==> Undisturbed(init)) && !MayReadClose(init, scope, calm)
    requires Run(init, schedule).Some? && Allowed(schedule, calm)
    requires
      var s := Run(init, schedule).value;
      i < k < |s.log| && ReadOf(s, i, scope) && ReadOf(s, k, scope)
    ensures
      var log := Run(init, schedule).value.log;
      log[i].ended + CERT_LIFE <= log[k].begun
  {
    if Intact(init, schedule, scope) {
      ReadsOfAScopeAreALifeApart(init, schedule, scope, i, k);
    } else {
      var n := FirstTear(init, schedule, scope);
      TornBySweep(init, schedule, n, scope, calm, i, k);
      ApartAfterATear(init, schedule, n, scope, i, k);
    }
  }

  /** With two readers only, one made the read that the sweep found old, and the other reads
      after it. */
  lemma ApartAfterATear(init: State, schedule: seq<Turn>, n: nat, scope: Scope, i: nat, k: nat)
    requires Initial(init) && !ThreeGood(init, scope) && Run(init, schedule).Some?
    requires n < |schedule| && Intact(init, schedule[..n], scope) && Run(init, schedule[..n]).Some?
    requires HasOldRead(Run(init, schedule[..n]).value, scope)
    requires
      var s := Run(init, schedule).value;
      i < k < |s.log| && ReadOf(s, i, scope) && ReadOf(s, k, scope)
    ensures
      var log := Run(init, schedule).value.log;
      log[i].ended + CERT_LIFE <= log[k].begun
  {
    var s, s' := Run(init, schedule[..n]).value, Run(init, schedule).value;
    var j :| 0 <= j < |s.log| && ReadOf(s, j, scope) && s.log[j].ended + CERT_LIFE <= s.now;
    RunSame(init, schedule[..n]);
    RunSame(init, schedule);
    RunDiffers(init, schedule);
    RunWhole(init, schedule[..n], scope);
    RunLater(init, schedule, n, s'.log[k].who, s.log[j].ended + CERT_LIFE);
    hide Run, Intact;
    LaterIsApart(init, s, s', scope, i, j, k);
  }

  lemma LaterIsApart(init: State, s: State, s': State, scope: Scope, i: nat, j: nat, k: nat)
    requires !ThreeGood(init, scope) && SameCallers(init, s) && SameCallers(init, s') && ReadersDiffer(s')
    requires |s.log| <= |s'.log| && s'.log[..|s.log|] == s.log && Whole(s, scope)
    requires i < k < |s'.log| && ReadOf(s', i, scope) && ReadOf(s', k, scope)
    requires j < |s.log| && ReadOf(s, j, scope) && s.log[j].ended + CERT_LIFE <= s.now
    requires
      var q, time := s'.log[k].who, s.log[j].ended + CERT_LIFE;
      ReadsLater(s, q, |s.log|, time) ==> ReadsLater(s', q, |s.log|, time)
    ensures s'.log[i].ended + CERT_LIFE <= s'.log[k].begun
  {
    var q := s'.log[k].who;
    ThirdIsOne(init, s, s', scope, i, j, k);
    if k < |s.log| {
      assert PairApart(s, i, k, scope);
    } else {
      assert j == i && ReaderOk(s, q, scope);
      assert ReadsLater(s, q, |s.log|, s.log[j].ended + CERT_LIFE);
    }
  }

  lemma ThirdIsOne(init: State, s: State, s': State, scope: Scope, i: nat, j: nat, k: nat)
    requires !ThreeGood(init, scope) && SameCallers(init, s) && SameCallers(init, s') && ReadersDiffer(s')
    requires |s.log| <= |s'.log| && s'.log[..|s.log|] == s.log
    requires i < k < |s'.log| && ReadOf(s', i, scope) && ReadOf(s', k, scope)
    requires j < |s.log| && ReadOf(s, j, scope)
    ensures j == i || j == k
    ensures forall r | 0 <= r < |s.log| :: s.log[r] == s'.log[r] && (ReadOf(s, r, scope) <==> ReadOf(s', r, scope))
  {
    assert s.log[j] == s'.log[j];
    var f, g, h := s'.log[i].who, s'.log[j].who, s'.log[k].who;
    assert IsGood(init, f, scope) && IsGood(init, g, scope) && IsGood(init, h, scope);
    assert f == g || f == h || g == h;
  }

  /** Within a life a scope is read once, by all its callers together, unless one of them can
      fail and two others can read it. */
  lemma OnceInALife(init: State, schedule: seq<Turn>, scope: Scope, calm: bool, i: nat, k: nat)
    requires Initial(init) && (calm ==> Undisturbed(init)) && !MayReadTwice(init, scope, calm)
    requires Run(init, schedule).Some? && Allowed(schedule, calm)
    requires Run(init, schedule).value.now < init.now + CERT_LIFE
    requires i < k < |Run(init, schedule).value.log|
    ensures
      var s := Run(init, schedule).value;
      !(ReadOf(s, i, scope) && ReadOf(s, k, scope))
  {
    var s := Run(init, schedule).value;
    RunSame(init, schedule);
    RunData(init, schedule);
    if ReadOf(s, i, scope) && ReadOf(s, k, scope) {
      assert LogOk(s, k);
      if Intact(init, schedule, scope) {
        ReadsOfAScopeAreALifeApart(init, schedule, scope, i, k);
      } else {
        var n := FirstTear(init, schedule, scope);
        TornBySweep(init, schedule, n, scope, calm, i, k);
        RunSame(init, schedule[..n]);
        RunTime(init, schedule, n);
      }
    }
  }

  lemma {:induction false} RunTime(init: State, schedule: seq<Turn>, n: nat)
    requires Initial(init) && Run(init, schedule).Some? && n <= |schedule|
    ensures Run(init, schedule[..n]).Some? && Run(init, schedule[..n]).value.now <= Run(init, schedule).value.now
  {
    if n == |schedule| {
      assert schedule[..n] == schedule;
    } else {
      assert schedule[..|schedule| - 1][..n] == schedule[..n];
      RunTime(init, schedule[..|schedule| - 1], n);
    }
  }
}
