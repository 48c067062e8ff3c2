/** What the certificate cache answers in every interleaving (plugins/kube/cert.go):
    each answer is a successful read of the caller's own scope, a reused one is younger
    than a quarter of an hour, and successful reads through one entry are at least that
    far apart, the sweeper's races included. */
module CertCacheAnswers {
  import opened Common
  import opened CertCache
  import opened CertCacheLocks

  /** Every successful read through entry e ended at least a life before `time`. */
  ghost predicate Spaced(s: State, e: nat, time: nat) {
    forall i | 0 <= i < |s.log| && s.log[i].entry == Some(e) :: s.log[i].ended + CERT_LIFE <= time
  }

  ghost predicate Fetched(s: State, t: nat, own: Option<nat>, certs: seq<string>, read: nat) {
    read < |s.log| && s.log[read].who == t && s.log[read].entry == own && s.log[read].certs == certs
  }

  /** `kept` is a successful read of what caller t's own read would have covered. */
  ghost predicate FromRead(s: State, t: nat, kept: Kept)
    requires t < |s.callers|
  {
    && kept.read < |s.log|
    && var r := s.log[kept.read];
    && r.certs == kept.certs
    && r.begun <= r.ended <= kept.at <= s.now
    && r.who < |s.callers|
    && s.callers[r.who].reply == Good(kept.certs)
    && s.callers[r.who].scope == s.callers[t].scope
    && (s.callers[t].scope.None? ==> r.who == t)
  }

  ghost predicate AnswerOk(s: State, t: nat, a: Answer)
    requires t < |s.callers|
  {
    a.Certs? ==>
      && FromRead(s, t, a.kept)
      && a.kept.at <= a.when <= s.now
      && (a.reused ==> a.when - a.kept.at < CERT_LIFE)
      && (!a.reused ==> s.log[a.kept.read].who == t)
  }

  ghost predicate CallerData(s: State, t: nat)
    requires t < |s.callers|
  {
    match s.callers[t].pc
    case WaitPlace(own) => own.Some? ==> Spaced(s, own.value, s.now)
    case AtGate(own) => own.Some? ==> Spaced(s, own.value, s.now)
    case Reading(own, begun) => begun <= s.now && (own.Some? ==> Spaced(s, own.value, begun))
    case Leaving(own, reply, read) => reply.Good? ==> Fetched(s, t, own, reply.certs, read)
    case Storing(e, certs, read) => Fetched(s, t, Some(e), certs, read)
    case WaitSweep(_, kept) => FromRead(s, t, kept) && s.log[kept.read].who == t
    case Sweeping(_, kept, _) => FromRead(s, t, kept) && s.log[kept.read].who == t
    case Trying(_, kept, _, _, _) => FromRead(s, t, kept) && s.log[kept.read].who == t
    case Dropping(_, kept, _, _) => FromRead(s, t, kept) && s.log[kept.read].who == t
    case Unlocking(_, a) => AnswerOk(s, t, a)
    case Done(a) => AnswerOk(s, t, a)
    case _ => true
  }

  /** A caller that made read i and has not kept it yet. */
  predicate Pending(pc: Pc, i: nat) {
    || (pc.Leaving? && pc.reply.Good? && pc.read == i)
    || (pc.Storing? && pc.read == i)
  }

  ghost predicate LogOk(s: State, i: nat)
    requires i < |s.log|
  {
    var r := s.log[i];
    && r.who < |s.callers| && s.callers[r.who].reply == Good(r.certs)
    && r.begun <= r.ended <= s.now
    && (r.entry.None? ==> s.callers[r.who].scope.None?)
    && (r.entry.Some? ==>
          var x := r.entry.value;
          && x < |s.entries|
          && s.callers[r.who].scope == Some(s.entries[x].scope)
          && (|| (s.entries[x].kept.Some? && s.entries[x].kept.value.at >= r.ended)
              || (s.entries[x].holder.Some? && s.entries[x].holder.value < |s.callers|
                  && Pending(s.callers[s.entries[x].holder.value].pc, i))))
  }

  ghost predicate EntryKept(s: State, x: nat)
    requires x < |s.entries|
  {
    s.entries[x].kept.Some? ==>
      var k := s.entries[x].kept.value;
      && k.read < |s.log|
      && s.log[k.read].entry == Some(x) && s.log[k.read].certs == k.certs
      && s.log[k.read].ended <= k.at <= s.now
  }

  /** Successful reads through one entry are at least a life apart, end to start. */
  ghost predicate ReadsSpaced(s: State) {
    forall i, k | 0 <= i < k < |s.log| && s.log[i].entry.Some? && s.log[k].entry == s.log[i].entry ::
      s.log[i].ended + CERT_LIFE <= s.log[k].begun
  }

  ghost predicate Data(s: State) {
    && (forall t | 0 <= t < |s.callers| :: CallerData(s, t))
    && (forall i | 0 <= i < |s.log| :: LogOk(s, i))
    && (forall x | 0 <= x < |s.entries| :: EntryKept(s, x))
    && ReadsSpaced(s)
  }

  /** What a step of caller t may do to what is read and kept: log its own read, or
      keep it. */
  ghost predicate DataEffect(s: State, s': State, t: nat)
    requires t < |s.callers| == |s'.callers|
  {
    var pc, pc' := s.callers[t].pc, s'.callers[t].pc;
    && s.now <= s'.now
    && s'.callers == s.callers[t := s.callers[t].(pc := pc')]
    && (|| s'.log == s.log
        || (pc.Reading? && s.callers[t].reply.Good?
            && s'.log == s.log + [Read(t, pc.own, pc.begun, s'.now, s.callers[t].reply.certs)]
            && pc' == Leaving(pc.own, s.callers[t].reply, |s.log|)))
    && |s.entries| <= |s'.entries|
    && (forall x | |s.entries| <= x < |s'.entries| :: s'.entries[x].kept.None?)
    && (forall x {:trigger s.entries[x]} {:trigger s'.entries[x]} | 0 <= x < |s.entries| ::
          || s'.entries[x].kept == s.entries[x].kept
          || (pc.Storing? && x == pc.e && s'.entries[x].kept == Some(Kept(s'.now, pc.certs, pc.read))))
    && (pc.Storing? ==> pc.e < |s.entries| && s'.entries[pc.e].kept == Some(Kept(s'.now, pc.certs, pc.read)))
    && (pc.Leaving? && pc.reply.Good? && pc.own.Some? ==> pc' == Storing(pc.own.value, pc.reply.certs, pc.read))
  }

  lemma StepDataEffect(s: State, t: nat, env: Env)
    requires Locks(s) && t < |s.callers| && Act(s, t, env).Some?
    ensures DataEffect(s, Act(s, t, env).value, t)
  {
    assert CallerLocks(s, t);
    var pc := s.callers[t].pc;
    if Entering(pc) { EnteringData(s, t, env); }
    else if Gated(pc) { GatedData(s, t, env); }
    else if Tidying(pc) { TidyingData(s, t, env); }
    else { EndingData(s, t, env); }
  }

  lemma EnteringData(s: State, t: nat, env: Env)
    requires Locks(s) && t < |s.callers| && Act(s, t, env).Some? && Entering(s.callers[t].pc)
    ensures DataEffect(s, Act(s, t, env).value, t)
  {
    assert CallerLocks(s, t);
  }

  lemma GatedData(s: State, t: nat, env: Env)
    requires Locks(s) && t < |s.callers| && Act(s, t, env).Some? && Gated(s.callers[t].pc)
    ensures DataEffect(s, Act(s, t, env).value, t)
  {
    assert CallerLocks(s, t);
  }

  lemma TidyingData(s: State, t: nat, env: Env)
    requires Locks(s) && t < |s.callers| && Act(s, t, env).Some? && Tidying(s.callers[t].pc)
    ensures DataEffect(s, Act(s, t, env).value, t)
  {
    assert CallerLocks(s, t);
  }

  lemma EndingData(s: State, t: nat, env: Env)
    requires Locks(s) && t < |s.callers| && Act(s, t, env).Some? && Ending(s.callers[t].pc)
    ensures DataEffect(s, Act(s, t, env).value, t)
  {
    assert CallerLocks(s, t);
  }

  lemma KeepsFromRead(s: State, s': State, t: nat, u: nat, kept: Kept)
    requires t < |s.callers| == |s'.callers| && u < |s.callers|
    requires DataEffect(s, s', t) && FromRead(s, u, kept)
    ensures FromRead(s', u, kept)
    ensures s'.log[kept.read] == s.log[kept.read]
  {
  }

  lemma KeepsSpaced(s: State, s': State, t: nat, e: nat, time: nat)
    requires t < |s.callers| == |s'.callers|
    requires DataEffect(s, s', t) && Spaced(s, e, time) && Own(s.callers[t].pc) != Some(e)
    ensures Spaced(s', e, time)
  {
    assert forall i | 0 <= i < |s.log| :: s'.log[i] == s.log[i];
  }

  /** Two callers never own one entry. */
  lemma OwnersDiffer(s: State, t: nat, u: nat, e: nat)
    requires Locks(s) && t < |s.callers| && u < |s.callers| && t != u
    requires Own(s.callers[u].pc) == Some(e)
    ensures Own(s.callers[t].pc) != Some(e)
  {
    assert CallerLocks(s, t) && CallerLocks(s, u);
  }

  lemma OtherGatedData(s: State, s': State, t: nat, u: nat)
    requires Locks(s) && Data(s) && t < |s.callers| == |s'.callers| && u < |s.callers| && u != t
    requires DataEffect(s, s', t) && Gated(s.callers[u].pc)
    ensures CallerData(s', u)
  {
    assert CallerData(s, u);
    if Own(s.callers[u].pc).Some? {
      OwnersDiffer(s, t, u, Own(s.callers[u].pc).value);
    }
    match s.callers[u].pc
    case WaitPlace(own) => if own.Some? { KeepsSpaced(s, s', t, own.value, s.now); }
    case AtGate(own) => if own.Some? { KeepsSpaced(s, s', t, own.value, s.now); }
    case Reading(own, begun) => if own.Some? { KeepsSpaced(s, s', t, own.value, begun); }
    case _ =>
  }

  lemma OtherTidyingData(s: State, s': State, t: nat, u: nat)
    requires Data(s) && t < |s.callers| == |s'.callers| && u < |s.callers| && u != t
    requires DataEffect(s, s', t) && Tidying(s.callers[u].pc)
    ensures CallerData(s', u)
  {
    assert CallerData(s, u);
    KeepsFromRead(s, s', t, u, s.callers[u].pc.kept);
  }

  lemma OtherAnswerData(s: State, s': State, t: nat, u: nat)
    requires Data(s) && t < |s.callers| == |s'.callers| && u < |s.callers| && u != t
    requires DataEffect(s, s', t) && (s.callers[u].pc.Unlocking? || s.callers[u].pc.Done?)
    ensures CallerData(s', u)
  {
    assert CallerData(s, u);
    var a := s.callers[u].pc.answer;
    if a.Certs? {
      KeepsFromRead(s, s', t, u, a.kept);
    }
  }

  lemma OtherPlainData(s: State, s': State, t: nat, u: nat)
    requires Data(s) && t < |s.callers| == |s'.callers| && u < |s.callers| && u != t
    requires DataEffect(s, s', t)
    requires
      var pc := s.callers[u].pc;
      !Gated(pc) && !Tidying(pc) && !pc.Unlocking? && !pc.Done?
    ensures CallerData(s', u)
  {
    assert CallerData(s, u);
  }

  lemma StepOtherData(s: State, s': State, t: nat, u: nat)
    requires Locks(s) && Data(s) && t < |s.callers| == |s'.callers| && u < |s.callers| && u != t
    requires DataEffect(s, s', t)
    ensures CallerData(s', u)
  {
    var pc := s.callers[u].pc;
    if Gated(pc) { OtherGatedData(s, s', t, u); }
    else if Tidying(pc) { OtherTidyingData(s, s', t, u); }
    else if pc.Unlocking? || pc.Done? { OtherAnswerData(s, s', t, u); }
    else { OtherPlainData(s, s', t, u); }
  }

  lemma StepOwnData(s: State, t: nat, env: Env)
    requires Locks(s) && Data(s) && t < |s.callers| && Act(s, t, env).Some?
    ensures CallerData(Act(s, t, env).value, t)
  {
    assert CallerLocks(s, t) && CallerData(s, t);
    var s' := Act(s, t, env).value;
    var pc := s.callers[t].pc;
    if pc.Checking? {
      CheckedData(s, t, env);
    } else if Gated(pc) {
      GatedOwnData(s, t, env);
    } else if Entering(pc) {
    } else if Tidying(pc) {
      TidyingOwnData(s, t, env);
    } else {
      EndingOwnData(s, t, env);
    }
  }

  lemma CheckedData(s: State, t: nat, env: Env)
    requires Locks(s) && Data(s) && t < |s.callers| && Act(s, t, env).Some? && s.callers[t].pc.Checking?
    ensures CallerData(Act(s, t, env).value, t)
  {
    assert CallerLocks(s, t);
    var s' := Act(s, t, env).value;
    var e := s.callers[t].pc.e;
    assert EntryKept(s, e);
    assert s'.log == s.log;
    if Young(s.entries[e].kept, s'.now) {
      assert LogOk(s, s.entries[e].kept.value.read);
    } else {
      forall i | 0 <= i < |s.log| && s.log[i].entry == Some(e)
        ensures s.log[i].ended + CERT_LIFE <= s'.now
      {
        assert LogOk(s, i);
      }
    }
  }

  lemma GatedOwnData(s: State, t: nat, env: Env)
    requires Locks(s) && Data(s) && t < |s.callers| && Act(s, t, env).Some? && Gated(s.callers[t].pc)
    ensures CallerData(Act(s, t, env).value, t)
  {
    assert CallerData(s, t);
    match s.callers[t].pc
    case WaitPlace(_) => BegunData(s, t, env);
    case AtGate(_) => BegunData(s, t, env);
    case _ => ReadData(s, t, env);
  }

  lemma BegunData(s: State, t: nat, env: Env)
    requires Locks(s) && Data(s) && t < |s.callers| && Act(s, t, env).Some?
    requires s.callers[t].pc.WaitPlace? || s.callers[t].pc.AtGate?
    ensures CallerData(Act(s, t, env).value, t)
  {
    assert CallerData(s, t);
    assert Act(s, t, env).value.log == s.log;
  }

  lemma ReadData(s: State, t: nat, env: Env)
    requires Locks(s) && Data(s) && t < |s.callers| && Act(s, t, env).Some?
    requires Gated(s.callers[t].pc) && !s.callers[t].pc.WaitPlace? && !s.callers[t].pc.AtGate?
    ensures CallerData(Act(s, t, env).value, t)
  {
    assert CallerLocks(s, t) && CallerData(s, t);
    var pc := s.callers[t].pc;
    if pc.Leaving? && pc.reply.Good? {
      assert LogOk(s, pc.read);
    }
  }

  lemma TidyingOwnData(s: State, t: nat, env: Env)
    requires Locks(s) && Data(s) && t < |s.callers| && Act(s, t, env).Some? && Tidying(s.callers[t].pc)
    ensures CallerData(Act(s, t, env).value, t)
  {
    assert CallerLocks(s, t) && CallerData(s, t);
  }

  lemma EndingOwnData(s: State, t: nat, env: Env)
    requires Locks(s) && Data(s) && t < |s.callers| && Act(s, t, env).Some? && Ending(s.callers[t].pc)
    ensures CallerData(Act(s, t, env).value, t)
  {
    assert CallerLocks(s, t) && CallerData(s, t);
    var pc := s.callers[t].pc;
    if pc.Storing? {
      assert LogOk(s, pc.read);
    }
  }

  lemma StepLog(s: State, s': State, t: nat, i: nat)
    requires Locks(s) && Data(s) && t < |s.callers| == |s'.callers| && i < |s'.log|
    requires DataEffect(s, s', t) && Effect(s, s', t) && CallerLocks(s', t)
    ensures LogOk(s', i)
  {
    assert CallerLocks(s, t) && CallerData(s, t);
    if i < |s.log| {
      assert LogOk(s, i) && s'.log[i] == s.log[i];
      if s.log[i].entry.Some? {
        var x := s.log[i].entry.value;
        assert EntryLock(s, x);
        assert EntryEffect(s, s', t, x);
      }
    }
  }

  lemma StepEntryKept(s: State, s': State, t: nat, x: nat)
    requires Locks(s) && Data(s) && t < |s.callers| == |s'.callers| && x < |s'.entries|
    requires DataEffect(s, s', t)
    ensures EntryKept(s', x)
  {
    assert CallerLocks(s, t) && CallerData(s, t);
    if x < |s.entries| {
      assert EntryKept(s, x);
      if s'.entries[x].kept != s.entries[x].kept {
        assert LogOk(s, s.callers[t].pc.read);
      }
    }
  }

  lemma StepSpacing(s: State, s': State, t: nat)
    requires Locks(s) && Data(s) && t < |s.callers| == |s'.callers|
    requires DataEffect(s, s', t)
    ensures ReadsSpaced(s')
  {
    assert CallerData(s, t);
  }

  lemma StepData(s: State, t: nat, env: Env)
    requires Locks(s) && Data(s) && t < |s.callers| && Act(s, t, env).Some?
    ensures Data(Act(s, t, env).value)
  {
    var s' := Act(s, t, env).value;
    StepDataEffect(s, t, env);
    StepLocks(s, t, env);
    StepSpacing(s, s', t);
    forall u | 0 <= u < |s'.callers| ensures CallerData(s', u) {
      if u == t { StepOwnData(s, t, env); } else { StepOtherData(s, s', t, u); }
    }
    forall i | 0 <= i < |s'.log| ensures LogOk(s', i) {
      assert CallerLocks(s', t);
      StepLog(s, s', t, i);
    }
    forall x | 0 <= x < |s'.entries| ensures EntryKept(s', x) {
      StepEntryKept(s, s', t, x);
    }
  }

  lemma {:induction false} RunData(init: State, schedule: seq<Turn>)
    requires Initial(init) && Run(init, schedule).Some?
    ensures Data(Run(init, schedule).value)
  {
    if schedule != [] {
      var last := |schedule| - 1;
      var s := Run(init, schedule[..last]).value;
      RunData(init, schedule[..last]);
      RunLocks(init, schedule[..last]);
      StepData(s, schedule[last].caller, schedule[last].env);
    }
  }
}
