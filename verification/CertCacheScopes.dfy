/** How far apart two reads of one scope are, in every interleaving (plugins/kube/cert.go):
    a life, unless the scope's entry was taken out of the map while another caller had
    found it and was not done with it. */
module CertCacheScopes {
  import opened Common
  import opened CertCache
  import opened CertCacheLocks
  import opened CertCacheAnswers

  /** The entry a caller found and is not done with: waited for, or locked. */
  function Found(pc: Pc): Option<nat> {
    if pc.WaitEntry? then Some(pc.e) else Own(pc)
  }

  /** A step of t that takes the scope's entry out of the map under another caller. */
  ghost predicate Tears(s: State, s': State, t: nat, scope: Scope) {
    && scope in s.byScope && scope !in s'.byScope
    && exists v :: 0 <= v < |s.callers| && v != t && Found(s.callers[v].pc) == Some(s.byScope[scope])
  }

  ghost predicate TearsAt(init: State, schedule: seq<Turn>, n: nat, scope: Scope)
    requires Initial(init) && n < |schedule|
  {
    var before, after := Run(init, schedule[..n]), Run(init, schedule[..n + 1]);
    before.Some? && after.Some? && Tears(before.value, after.value, schedule[n].caller, scope)
  }

  /** No step of the run tears the scope. */
  ghost predicate Intact(init: State, schedule: seq<Turn>, scope: Scope)
    requires Initial(init)
  {
    forall n | 0 <= n < |schedule| :: !TearsAt(init, schedule, n, scope)
  }

  // ----- what an intact run keeps ------------------------------------------------------

  /** A read of the scope that was kept under it. */
  predicate ReadOf(s: State, i: nat, scope: Scope)
    requires i < |s.log|
  {
    s.log[i].who < |s.callers| && s.callers[s.log[i].who].scope == Some(scope)
  }

  /** Every successful read of the scope ended at least a life before `time`. */
  ghost predicate Apart(s: State, scope: Scope, time: nat) {
    forall i | 0 <= i < |s.log| && ReadOf(s, i, scope) :: s.log[i].ended + CERT_LIFE <= time
  }

  predicate IsCurrent(s: State, scope: Scope, e: nat) {
    scope in s.byScope && s.byScope[scope] == e
  }

  /** Who found an entry of the scope found the one it still has; one whose read failed may
      have dropped it. */
  predicate UserOk(s: State, t: nat, scope: Scope)
    requires t < |s.callers|
  {
    var c := s.callers[t];
    c.scope == Some(scope) && Found(c.pc).Some? && !(c.pc.Unlocking? && c.pc.answer.Failed?) ==>
      IsCurrent(s, scope, Found(c.pc).value)
  }

  /** A sweep that has come to the scope's entry: it is another scope's caller's, it holds
      the map, and what it is about to drop was read a life ago. */
  ghost predicate SweeperOk(s: State, t: nat, scope: Scope)
    requires t < |s.callers|
  {
    var c := s.callers[t];
    && (c.pc.Trying? && c.pc.at == scope ==> c.scope != Some(scope) && IsCurrent(s, scope, c.pc.x))
    && (c.pc.Dropping? && c.pc.at == scope ==>
          && c.scope != Some(scope) && scope in s.byScope && s.byScope[scope] < |s.entries|
          && OldRead(s, s.byScope[scope])
          && (Old(s.entries[s.byScope[scope]].kept, s.now) || Freshened(s, s.byScope[scope])))
  }

  ghost predicate OldRead(s: State, x: nat) {
    exists j :: 0 <= j < |s.log| && s.log[j].entry == Some(x) && s.log[j].ended + CERT_LIFE <= s.now
  }

  /** A caller has stored a read in the entry and waits for the map. */
  ghost predicate Freshened(s: State, x: nat) {
    exists w :: 0 <= w < |s.callers| && s.callers[w].pc.WaitSweep? && s.callers[w].pc.e == x
  }

  ghost predicate ReaderOk(s: State, t: nat, scope: Scope)
    requires t < |s.callers|
  {
    s.callers[t].scope == Some(scope) ==>
      match s.callers[t].pc
      case WaitPlace(_) => Apart(s, scope, s.now)
      case AtGate(_) => Apart(s, scope, s.now)
      case Reading(_, begun) => Apart(s, scope, begun)
      case _ => true
  }

  /** A read of the scope is in the entry it still has, or a life old. */
  ghost predicate ReadSpent(s: State, i: nat, scope: Scope)
    requires i < |s.log|
  {
    ReadOf(s, i, scope) ==>
      || (s.log[i].entry.Some? && IsCurrent(s, scope, s.log[i].entry.value))
      || s.log[i].ended + CERT_LIFE <= s.now
  }

  ghost predicate PairApart(s: State, i: nat, k: nat, scope: Scope)
    requires i < k < |s.log|
  {
    ReadOf(s, i, scope) && ReadOf(s, k, scope) ==> s.log[i].ended + CERT_LIFE <= s.log[k].begun
  }

  ghost predicate Whole(s: State, scope: Scope) {
    && (forall t | 0 <= t < |s.callers| :: UserOk(s, t, scope))
    && (forall t | 0 <= t < |s.callers| :: SweeperOk(s, t, scope))
    && (forall t | 0 <= t < |s.callers| :: ReaderOk(s, t, scope))
    && (forall i | 0 <= i < |s.log| :: ReadSpent(s, i, scope))
    && (forall i, k | 0 <= i < k < |s.log| :: PairApart(s, i, k, scope))
  }

  // ----- what a step may do to the map ----------------------------------------------------

  /** What a step of t does to the scope's place in the map, and to what t has found. */
  ghost predicate MapEffect(s: State, s': State, t: nat, scope: Scope)
    requires t < |s.callers| && t < |s'.callers|
  {
    var c, pc' := s.callers[t], s'.callers[t].pc;
    || ((scope in s'.byScope <==> scope in s.byScope)
        && (scope in s.byScope ==> s'.byScope[scope] == s.byScope[scope])
        && ((Found(pc') == Found(c.pc) && !c.pc.Unlocking?) || Found(pc').None?
            || (c.pc.Finding? && c.scope.Some? && c.scope.value in s.byScope && pc' == WaitEntry(s.byScope[c.scope.value]))
            || (c.pc.Finding? && c.scope != Some(scope))))
    || (c.pc.Finding? && c.scope == Some(scope) && scope !in s.byScope
        && IsCurrent(s', scope, |s.entries|) && pc' == WaitEntry(|s.entries|))
    || Removal(s, s', t, scope)
  }

  predicate Removal(s: State, s': State, t: nat, scope: Scope)
    requires t < |s.callers| && t < |s'.callers|
  {
    var c, pc' := s.callers[t], s'.callers[t].pc;
    && scope in s.byScope && scope !in s'.byScope
    && (|| (c.pc.Dropping? && c.pc.at == scope && pc'.Sweeping? && pc'.e == c.pc.e)
        || (c.pc.Forgetting? && c.scope == Some(scope) && s.byScope[scope] == c.pc.e
            && c.pc.e < |s.entries| && s.entries[c.pc.e].kept.None?
            && pc'.Unlocking? && pc'.answer.Failed?))
  }

  lemma StepMap(s: State, t: nat, env: Env, scope: Scope)
    requires Locks(s) && t < |s.callers| && Act(s, t, env).Some?
    ensures MapEffect(s, Act(s, t, env).value, t, scope)
  {
    assert CallerLocks(s, t);
    var pc := s.callers[t].pc;
    if Entering(pc) { EnteringMap(s, t, env, scope); }
    else if Gated(pc) { GatedMap(s, t, env, scope); }
    else if Tidying(pc) { TidyingMap(s, t, env, scope); }
    else { EndingMap(s, t, env, scope); }
  }

  lemma EnteringMap(s: State, t: nat, env: Env, scope: Scope)
    requires Locks(s) && t < |s.callers| && Act(s, t, env).Some? && Entering(s.callers[t].pc)
    ensures MapEffect(s, Act(s, t, env).value, t, scope)
  {
    assert CallerLocks(s, t);
  }

  lemma GatedMap(s: State, t: nat, env: Env, scope: Scope)
    requires Locks(s) && t < |s.callers| && Act(s, t, env).Some? && Gated(s.callers[t].pc)
    ensures MapEffect(s, Act(s, t, env).value, t, scope)
  {
    assert CallerLocks(s, t);
  }

  lemma TidyingMap(s: State, t: nat, env: Env, scope: Scope)
    requires Locks(s) && t < |s.callers| && Act(s, t, env).Some? && Tidying(s.callers[t].pc)
    ensures MapEffect(s, Act(s, t, env).value, t, scope)
  {
    assert CallerLocks(s, t);
  }

  lemma EndingMap(s: State, t: nat, env: Env, scope: Scope)
    requires Locks(s) && t < |s.callers| && Act(s, t, env).Some? && Ending(s.callers[t].pc)
    ensures MapEffect(s, Act(s, t, env).value, t, scope)
  {
    assert CallerLocks(s, t);
  }

  // ----- one step keeps it -----------------------------------------------------------------

  lemma StepUser(s: State, s': State, t: nat, u: nat, scope: Scope)
    requires Locks(s) && Whole(s, scope) && t < |s.callers| == |s'.callers| && u < |s.callers|
    requires s'.callers == s.callers[t := s.callers[t].(pc := s'.callers[t].pc)]
    requires MapEffect(s, s', t, scope) && !Tears(s, s', t, scope)
    ensures UserOk(s', u, scope)
  {
    assert UserOk(s, u, scope) && CallerLocks(s, u) && SweeperOk(s, t, scope);
    if u != t && Removal(s, s', t, scope) {
      assert Found(s.callers[u].pc) != Some(s.byScope[scope]);
    }
  }

  /** What a step of t does to sweeps: only its own, and it stores only in its own entry. */
  ghost predicate SweepEffect(s: State, s': State, t: nat)
    requires t < |s.callers| == |s'.callers|
  {
    var c, pc' := s.callers[t], s'.callers[t].pc;
    && (pc'.Trying? ==>
          && c.pc.Sweeping? && IsCurrent(s, pc'.at, pc'.x) && IsCurrent(s', pc'.at, pc'.x)
          && pc'.x < |s.entries| && s.entries[pc'.x].holder.None?)
    && (pc'.Dropping? ==>
          && c.pc.Trying? && pc'.at == c.pc.at && c.pc.x < |s.entries| <= |s'.entries|
          && s'.byScope == s.byScope && s'.log == s.log
          && s'.entries[c.pc.x].kept == s.entries[c.pc.x].kept && Old(s.entries[c.pc.x].kept, s'.now))
    && (c.pc.Storing? ==> pc'.WaitSweep? && pc'.e == c.pc.e)
    && (c.pc.WaitSweep? ==> s.mapLock.None?)
  }

  lemma StepSweep(s: State, t: nat, env: Env)
    requires Locks(s) && t < |s.callers| && Act(s, t, env).Some?
    ensures SweepEffect(s, Act(s, t, env).value, t)
  {
    var pc := s.callers[t].pc;
    if Entering(pc) { EnteringSweep(s, t, env); }
    else if Gated(pc) { GatedSweep(s, t, env); }
    else if Tidying(pc) { TidyingSweep(s, t, env); }
    else { EndingSweep(s, t, env); }
  }

  lemma EnteringSweep(s: State, t: nat, env: Env)
    requires Locks(s) && t < |s.callers| && Act(s, t, env).Some? && Entering(s.callers[t].pc)
    ensures SweepEffect(s, Act(s, t, env).value, t)
  {
    assert CallerLocks(s, t);
  }

  lemma GatedSweep(s: State, t: nat, env: Env)
    requires Locks(s) && t < |s.callers| && Act(s, t, env).Some? && Gated(s.callers[t].pc)
    ensures SweepEffect(s, Act(s, t, env).value, t)
  {
    assert CallerLocks(s, t);
  }

  lemma TidyingSweep(s: State, t: nat, env: Env)
    requires Locks(s) && t < |s.callers| && Act(s, t, env).Some? && Tidying(s.callers[t].pc)
    ensures SweepEffect(s, Act(s, t, env).value, t)
  {
    assert CallerLocks(s, t);
  }

  lemma EndingSweep(s: State, t: nat, env: Env)
    requires Locks(s) && t < |s.callers| && Act(s, t, env).Some? && Ending(s.callers[t].pc)
    ensures SweepEffect(s, Act(s, t, env).value, t)
  {
    assert CallerLocks(s, t);
  }

  lemma StepOwnSweeper(s: State, s': State, t: nat, scope: Scope)
    requires Locks(s) && Data(s) && Whole(s, scope) && t < |s.callers| == |s'.callers|
    requires s'.callers == s.callers[t := s.callers[t].(pc := s'.callers[t].pc)]
    requires SweepEffect(s, s', t)
    ensures SweeperOk(s', t, scope)
  {
    assert UserOk(s, t, scope) && CallerLocks(s, t) && SweeperOk(s, t, scope);
    var pc, pc' := s.callers[t].pc, s'.callers[t].pc;
    if pc'.Dropping? && pc'.at == scope {
      assert EntryKept(s, pc.x);
      var j := s.entries[pc.x].kept.value.read;
      assert s'.log[j].entry == Some(pc.x) && s'.log[j].ended + CERT_LIFE <= s'.now;
    }
  }

  lemma StepOtherSweeper(s: State, s': State, t: nat, u: nat, scope: Scope)
    requires Locks(s) && Whole(s, scope) && t < |s.callers| == |s'.callers| && u < |s.callers| && u != t
    requires DataEffect(s, s', t) && Effect(s, s', t) && SweepEffect(s, s', t)
    ensures SweeperOk(s', u, scope)
  {
    assert CallerLocks(s, u) && SweeperOk(s, u, scope);
    var pc := s.callers[u].pc;
    if pc.Dropping? && pc.at == scope {
      var x := s.byScope[scope];
      var j :| 0 <= j < |s.log| && s.log[j].entry == Some(x) && s.log[j].ended + CERT_LIFE <= s.now;
      assert s'.log[j] == s.log[j];
      if !Old(s'.entries[x].kept, s'.now) {
        StillFreshened(s, s', t, x);
      }
    }
  }

  lemma StillFreshened(s: State, s': State, t: nat, x: nat)
    requires t < |s.callers| == |s'.callers| && x < |s.entries| <= |s'.entries| && s.mapLock.Some?
    requires DataEffect(s, s', t) && SweepEffect(s, s', t)
    requires Old(s.entries[x].kept, s.now) || Freshened(s, x)
    requires !Old(s'.entries[x].kept, s'.now)
    ensures Freshened(s', x)
  {
    if s'.entries[x].kept != s.entries[x].kept {
      assert s'.callers[t].pc.WaitSweep? && s'.callers[t].pc.e == x;
    } else {
      var w :| 0 <= w < |s.callers| && s.callers[w].pc.WaitSweep? && s.callers[w].pc.e == x;
      assert s'.callers[w] == s.callers[w];
    }
  }

  /** Logged reads stay, and with them who made them. */
  lemma SameRead(s: State, s': State, t: nat, i: nat, scope: Scope)
    requires t < |s.callers| == |s'.callers| && i < |s.log| && DataEffect(s, s', t)
    ensures i < |s'.log| && s'.log[i] == s.log[i]
    ensures ReadOf(s', i, scope) <==> ReadOf(s, i, scope)
  {
  }

  lemma StepSpent(s: State, s': State, t: nat, i: nat, scope: Scope)
    requires Locks(s) && Data(s) && Whole(s, scope) && t < |s.callers| == |s'.callers| && i < |s'.log|
    requires DataEffect(s, s', t) && MapEffect(s, s', t, scope) && !Tears(s, s', t, scope)
    ensures ReadSpent(s', i, scope)
  {
    assert UserOk(s, t, scope) && CallerLocks(s, t);
    if i < |s.log| {
      SameRead(s, s', t, i, scope);
      assert ReadSpent(s, i, scope);
      if Removal(s, s', t, scope) && ReadOf(s, i, scope) && s.log[i].entry == Some(s.byScope[scope]) {
        RemovedIsSpent(s, s', t, i, scope);
      }
    }
  }

  /** What was read through an entry that is taken out of the map is a life old. */
  lemma RemovedIsSpent(s: State, s': State, t: nat, i: nat, scope: Scope)
    requires Locks(s) && Data(s) && Whole(s, scope) && t < |s.callers| == |s'.callers| && i < |s.log|
    requires Removal(s, s', t, scope) && !Tears(s, s', t, scope)
    requires ReadOf(s, i, scope) && s.log[i].entry == Some(s.byScope[scope])
    ensures s.log[i].ended + CERT_LIFE <= s.now
  {
    var x := s.byScope[scope];
    assert LogOk(s, i) && CallerLocks(s, t) && SweeperOk(s, t, scope);
    assert forall v | 0 <= v < |s.callers| && v != t :: Found(s.callers[v].pc) != Some(x);
    if s.entries[x].holder.Some? {
      assert EntryLock(s, x);
    }
  }

  lemma StepOtherReader(s: State, s': State, t: nat, u: nat, scope: Scope)
    requires Locks(s) && Whole(s, scope) && t < |s.callers| == |s'.callers| && u < |s.callers| && u != t
    requires DataEffect(s, s', t)
    ensures ReaderOk(s', u, scope)
  {
    assert ReaderOk(s, u, scope) && UserOk(s, u, scope) && UserOk(s, t, scope);
    assert CallerLocks(s, t) && CallerLocks(s, u);
    var pc := s.callers[u].pc;
    if Gated(pc) && s.callers[u].scope == Some(scope) {
      OwnersDiffer(s, t, u, Own(pc).value);
      KeepsApart(s, s', t, scope, if pc.Reading? then pc.begun else s.now);
    }
  }

  /** A step that logs no read of the scope leaves its reads as far apart as they were. */
  lemma KeepsApart(s: State, s': State, t: nat, scope: Scope, time: nat)
    requires t < |s.callers| == |s'.callers| && DataEffect(s, s', t)
    requires s.callers[t].pc.Reading? ==> s.callers[t].scope != Some(scope)
    ensures Apart(s, scope, time) ==> Apart(s', scope, time)
  {
    if Apart(s, scope, time) {
      forall i | 0 <= i < |s'.log| && ReadOf(s', i, scope) ensures s'.log[i].ended + CERT_LIFE <= time {
        if i < |s.log| {
          SameRead(s, s', t, i, scope);
        }
      }
    }
  }

  /** A reader's own step: it comes to the gate when what it found is a life old, and begins
      no earlier. */
  ghost predicate ReadEffect(s: State, s': State, t: nat)
    requires t < |s.callers| == |s'.callers|
  {
    var pc, pc' := s.callers[t].pc, s'.callers[t].pc;
    && (pc'.WaitPlace? || pc'.AtGate? || pc'.Reading? ==> s'.log == s.log)
    && (pc'.WaitPlace? && s.callers[t].scope.Some? ==> pc.Checking? && pc'.own == Some(pc.e))
    && (pc'.AtGate? ==> pc.WaitPlace?)
    && (pc'.Reading? ==> (pc.WaitPlace? || pc.AtGate?) && pc'.begun == s'.now)
  }

  lemma StepRead(s: State, t: nat, env: Env)
    requires Locks(s) && t < |s.callers| && Act(s, t, env).Some?
    ensures ReadEffect(s, Act(s, t, env).value, t)
  {
    var pc := s.callers[t].pc;
    if Entering(pc) { EnteringRead(s, t, env); }
    else if Gated(pc) { GatedRead(s, t, env); }
    else if Tidying(pc) { TidyingRead(s, t, env); }
    else { EndingRead(s, t, env); }
  }

  lemma EnteringRead(s: State, t: nat, env: Env)
    requires Locks(s) && t < |s.callers| && Act(s, t, env).Some? && Entering(s.callers[t].pc)
    ensures ReadEffect(s, Act(s, t, env).value, t)
  {
    assert CallerLocks(s, t);
  }

  lemma GatedRead(s: State, t: nat, env: Env)
    requires Locks(s) && t < |s.callers| && Act(s, t, env).Some? && Gated(s.callers[t].pc)
    ensures ReadEffect(s, Act(s, t, env).value, t)
  {
    assert CallerLocks(s, t);
  }

  lemma TidyingRead(s: State, t: nat, env: Env)
    requires Locks(s) && t < |s.callers| && Act(s, t, env).Some? && Tidying(s.callers[t].pc)
    ensures ReadEffect(s, Act(s, t, env).value, t)
  {
    assert CallerLocks(s, t);
  }

  lemma EndingRead(s: State, t: nat, env: Env)
    requires Locks(s) && t < |s.callers| && Act(s, t, env).Some? && Ending(s.callers[t].pc)
    ensures ReadEffect(s, Act(s, t, env).value, t)
  {
    assert CallerLocks(s, t);
  }

  lemma StepOwnReader(s: State, s': State, t: nat, scope: Scope)
    requires Locks(s) && Data(s) && Whole(s, scope) && t < |s.callers| == |s'.callers|
    requires DataEffect(s, s', t) && ReadEffect(s, s', t) && CallerData(s', t)
    ensures ReaderOk(s', t, scope)
  {
    var pc, pc' := s.callers[t].pc, s'.callers[t].pc;
    assert ReaderOk(s, t, scope) && UserOk(s, t, scope);
    if s.callers[t].scope == Some(scope) && (pc'.WaitPlace? || pc'.AtGate? || pc'.Reading?) {
      forall i | 0 <= i < |s'.log| && ReadOf(s', i, scope) ensures s'.log[i].ended + CERT_LIFE <= s'.now {
        SameRead(s, s', t, i, scope);
        assert ReadSpent(s, i, scope);
      }
    }
  }

  lemma StepPair(s: State, s': State, t: nat, i: nat, k: nat, scope: Scope)
    requires Whole(s, scope) && t < |s.callers| == |s'.callers| && i < k < |s'.log|
    requires DataEffect(s, s', t)
    ensures PairApart(s', i, k, scope)
  {
    SameRead(s, s', t, i, scope);
    if k < |s.log| {
      SameRead(s, s', t, k, scope);
      assert PairApart(s, i, k, scope);
    } else {
      assert ReaderOk(s, t, scope);
    }
  }

  lemma StepWhole(s: State, t: nat, env: Env, scope: Scope)
    requires Locks(s) && Data(s) && Whole(s, scope) && t < |s.callers| && Act(s, t, env).Some?
    requires !Tears(s, Act(s, t, env).value, t, scope)
    ensures Whole(Act(s, t, env).value, scope)
  {
    var s' := Act(s, t, env).value;
    StepMap(s, t, env, scope);
    StepSweep(s, t, env);
    StepRead(s, t, env);
    StepDataEffect(s, t, env);
    StepLocks(s, t, env);
    StepData(s, t, env);
    hide *;
    WholeFromEffects(s, s', t, scope);
  }

  lemma WholeFromEffects(s: State, s': State, t: nat, scope: Scope)
    requires Locks(s) && Data(s) && Whole(s, scope) && t < |s.callers| == |s'.callers| && Data(s')
    requires MapEffect(s, s', t, scope) && SweepEffect(s, s', t) && ReadEffect(s, s', t)
    requires DataEffect(s, s', t) && Effect(s, s', t) && !Tears(s, s', t, scope)
    ensures Whole(s', scope)
  {
    assert CallerData(s', t);
    assert s'.callers == s.callers[t := s.callers[t].(pc := s'.callers[t].pc)];
    hide MapEffect, SweepEffect, ReadEffect, Tears, UserOk, SweeperOk, ReaderOk, ReadSpent, PairApart;
    forall u | 0 <= u < |s'.callers|
      ensures UserOk(s', u, scope) && SweeperOk(s', u, scope) && ReaderOk(s', u, scope)
    {
      StepUser(s, s', t, u, scope);
      if u == t {
        StepOwnSweeper(s, s', t, scope);
        StepOwnReader(s, s', t, scope);
      } else {
        StepOtherSweeper(s, s', t, u, scope);
        StepOtherReader(s, s', t, u, scope);
      }
    }
    forall i | 0 <= i < |s'.log| ensures ReadSpent(s', i, scope) {
      StepSpent(s, s', t, i, scope);
    }
    forall i, k | 0 <= i < k < |s'.log| ensures PairApart(s', i, k, scope) {
      StepPair(s, s', t, i, k, scope);
    }
  }

  lemma IntactPrefix(init: State, schedule: seq<Turn>, m: nat, scope: Scope)
    requires Initial(init) && Intact(init, schedule, scope) && m <= |schedule|
    ensures Intact(init, schedule[..m], scope)
  {
    forall n | 0 <= n < m ensures !TearsAt(init, schedule[..m], n, scope) {
      assert schedule[..m][..n] == schedule[..n] && schedule[..m][..n + 1] == schedule[..n + 1];
      assert !TearsAt(init, schedule, n, scope);
    }
  }

  lemma {:induction false} RunWhole(init: State, schedule: seq<Turn>, scope: Scope)
    requires Initial(init) && Run(init, schedule).Some? && Intact(init, schedule, scope)
    ensures Whole(Run(init, schedule).value, scope)
  {
    if schedule != [] {
      var last := |schedule| - 1;
      var s, turn := Run(init, schedule[..last]).value, schedule[last];
      IntactPrefix(init, schedule, last, scope);
      RunWhole(init, schedule[..last], scope);
      RunData(init, schedule[..last]);
      RunLocks(init, schedule[..last]);
      assert schedule[..last + 1] == schedule;
      assert !TearsAt(init, schedule, last, scope);
      StepWhole(s, turn.caller, turn.env, scope);
    }
  }

  // ----- how far apart the reads of a scope are ------------------------------------------------

  /** In a run of any length, callers that fail or are cancelled included, that never takes
      the scope's entry out of the map under another caller, successful reads of the scope
      never begin within a life of the end of one before, whatever entries they went
      through. */
  lemma ReadsOfAScopeAreALifeApart(init: State, schedule: seq<Turn>, scope: Scope, i: nat, k: nat)
    requires Initial(init) && Run(init, schedule).Some? && Intact(init, schedule, scope)
    requires
      var s := Run(init, schedule).value;
      i < k < |s.log| && ReadOf(s, i, scope) && ReadOf(s, k, scope)
    ensures
      var log := Run(init, schedule).value.log;
      log[i].ended + CERT_LIFE <= log[k].begun
  {
    RunWhole(init, schedule, scope);
    assert PairApart(Run(init, schedule).value, i, k, scope);
  }

  /** So two reads of a scope closer than that are always the work of a step that took the
      scope's entry out of the map while another caller had found it and was not done. */
  lemma CloseReadsTookARemoval(init: State, schedule: seq<Turn>, scope: Scope, i: nat, k: nat)
    requires Initial(init) && Run(init, schedule).Some?
    requires
      var s := Run(init, schedule).value;
      && i < k < |s.log| && ReadOf(s, i, scope) && ReadOf(s, k, scope)
      && s.log[k].begun < s.log[i].ended + CERT_LIFE
    ensures exists n :: 0 <= n < |schedule| && TearsAt(init, schedule, n, scope)
  {
    if Intact(init, schedule, scope) {
      ReadsOfAScopeAreALifeApart(init, schedule, scope, i, k);
    }
  }
}
