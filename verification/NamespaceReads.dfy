/** The bounded fan-out of a cnpg listing (plugins/cnpg/namespaces.go): one goroutine
    a namespace, six places, and a flag that ends the queue at the first failure of
    the connection. A run is any schedule of the goroutines; what each read answers
    is a parameter, since each namespace is read at most once. */
module NamespaceReads {
  import opened Common

  const READS_AT_ONCE: nat := 6

  datatype Error = Error(code: string, message: string)

  /** Whether a failure is the connection's, so that every other read would meet it. */
  predicate ClusterWide(e: Error) {
    e.code in {"cnpg.unreachable", "cnpg.auth.failed", "cnpg.login", "cnpg.context.none",
               "cnpg.kubectl.missing", "cnpg.crd.missing", "cnpg.resource.unserved"}
  }

  datatype Reply<T> = Reply(got: T, err: Option<Error>)

  predicate Wide<T>(r: Reply<T>) {
    r.err.Some? && ClusterWide(r.err.value)
  }

  /** What one scope came to; `got` is None where the Go value is left zero. */
  datatype Outcome<T> = Outcome(scope: string, got: Option<T>, err: Option<Error>)

  datatype Job<!T> = Job(scopes: seq<string>, read: nat -> Reply<T>)

  datatype Pc<T> =
    | Waiting                 // at `slots <- struct{}{}`
    | Placed                  // has a place, has not looked at the flag
    | Reading
    | Noting                  // the read failed connection-wide, about to set the flag
    | Storing(o: Outcome<T>)
    | Leaving                 // stored, about to give the place back
    | Done

  /** `asked` is history: the scopes whose read was begun. */
  datatype State<T> = State(
    stopped: Option<Error>, taken: nat, out: seq<Option<Outcome<T>>>, pcs: seq<Pc<T>>, asked: set<nat>)

  ghost function Init<T>(j: Job<T>): State<T> {
    State(None, 0, seq(|j.scopes|, _ => None), seq(|j.scopes|, _ => Waiting), {})
  }

  function At<T>(s: State<T>, i: nat, pc: Pc<T>): State<T>
    requires i < |s.pcs|
  {
    s.(pcs := s.pcs[i := pc])
  }

  function ReadOutcome<T>(j: Job<T>, i: nat): Outcome<T>
    requires i < |j.scopes|
  {
    Outcome(j.scopes[i], Some(j.read(i).got), j.read(i).err)
  }

  predicate Shaped<T>(j: Job<T>, s: State<T>) {
    |s.pcs| == |j.scopes| && |s.out| == |j.scopes|
  }

  /** The next atomic step of goroutine i, or None where it has to wait or has ended. */
  ghost function Act<T>(j: Job<T>, s: State<T>, i: nat): Option<State<T>>
    requires Shaped(j, s) && i < |s.pcs|
  {
    match s.pcs[i]
    case Waiting =>
      if s.taken < READS_AT_ONCE then Some(At(s, i, Placed).(taken := s.taken + 1)) else None
    case Placed =>
      if s.stopped.Some?
      then Some(At(s, i, Storing(Outcome(j.scopes[i], None, s.stopped))))
      else Some(At(s, i, Reading).(asked := s.asked + {i}))
    case Reading =>
      Some(At(s, i, if Wide(j.read(i)) then Noting else Storing(ReadOutcome(j, i))))
    case Noting =>
      var first := if s.stopped.None? then j.read(i).err else s.stopped;
      Some(At(s, i, Storing(ReadOutcome(j, i))).(stopped := first))
    case Storing(o) =>
      Some(At(s, i, Leaving).(out := s.out[i := Some(o)]))
    case Leaving =>
      // A receive from an empty channel would block.
      if s.taken > 0 then Some(At(s, i, Done).(taken := s.taken - 1)) else None
    case Done => None
  }

  /** The state after a schedule, or None when it schedules a goroutine that has to wait. */
  ghost function Run<T>(j: Job<T>, schedule: seq<nat>): (r: Option<State<T>>)
    ensures r.Some? ==> Shaped(j, r.value)
  {
    if schedule == [] then Some(Init(j)) else
      var last := |schedule| - 1;
      match Run(j, schedule[..last])
      case None => None
      case Some(s) => if schedule[last] < |s.pcs| then Act(j, s, schedule[last]) else None
  }

  // ----- the invariant ---------------------------------------------------------

  predicate HasPlace<T>(pc: Pc<T>) {
    !pc.Waiting? && !pc.Done?
  }

  predicate Running<T>(pc: Pc<T>) {
    pc.Reading? || pc.Noting?
  }

  /** The one outcome scope i can have. */
  ghost predicate Rightful<T>(j: Job<T>, s: State<T>, i: nat, o: Outcome<T>)
    requires i < |j.scopes|
  {
    if i in s.asked then o == ReadOutcome(j, i)
    else s.stopped.Some? && o == Outcome(j.scopes[i], None, s.stopped)
  }

  ghost predicate GoroutineOk<T>(j: Job<T>, s: State<T>, i: nat)
    requires Shaped(j, s) && i < |s.pcs|
  {
    match s.pcs[i]
    case Waiting => i !in s.asked && s.out[i] == None
    case Placed => i !in s.asked && s.out[i] == None
    case Reading => i in s.asked && s.out[i] == None
    case Noting => i in s.asked && s.out[i] == None && Wide(j.read(i))
    case Storing(o) => Rightful(j, s, i, o) && s.out[i] == None
    case Leaving => s.out[i].Some? && Rightful(j, s, i, s.out[i].value)
    case Done => s.out[i].Some? && Rightful(j, s, i, s.out[i].value)
  }

  ghost function WideAsked<T>(j: Job<T>, s: State<T>): set<nat> {
    set i | i in s.asked && Wide(j.read(i))
  }

  ghost predicate Inv<T>(j: Job<T>, s: State<T>) {
    && Shaped(j, s)
    && s.taken == CountIf(s.pcs, HasPlace) <= READS_AT_ONCE
    && (forall i | 0 <= i < |s.pcs| :: GoroutineOk(j, s, i))
    && (forall i | i in s.asked :: i < |s.pcs|)
    // The flag is the error of a read that was made, and while it is down every
    // connection-wide failure still holds its place.
    && (s.stopped.Some? ==> exists k :: k in WideAsked(j, s) && j.read(k).err == s.stopped)
    && (s.stopped.None? ==> forall i | i in WideAsked(j, s) :: Running(s.pcs[i]))
    && |WideAsked(j, s)| <= READS_AT_ONCE
  }

  lemma InitInv<T>(j: Job<T>)
    ensures Inv(j, Init(j))
  {
    CountZero(Init(j).pcs, HasPlace);
    assert WideAsked(j, Init(j)) == {};
  }

  /** A step of one goroutine leaves every goroutine's own facts standing. */
  lemma StepGoroutine<T>(j: Job<T>, s: State<T>, i: nat, k: nat)
    requires Inv(j, s) && i < |s.pcs| && k < |s.pcs| && Act(j, s, i).Some?
    ensures GoroutineOk(j, Act(j, s, i).value, k)
  {
    assert GoroutineOk(j, s, i) && GoroutineOk(j, s, k);
    if s.pcs[i].Noting? && s.stopped.None? {
      assert k == i || s.pcs[k] == Act(j, s, i).value.pcs[k];
    }
  }

  /** A step keeps the flag the error of a read that was made, and the number of
      connection-wide failures within the places there are. */
  lemma StepFlag<T>(j: Job<T>, s: State<T>, i: nat)
    requires Inv(j, s) && i < |s.pcs| && Act(j, s, i).Some?
    ensures
      var s' := Act(j, s, i).value;
      && (s'.stopped.Some? ==> exists k :: k in WideAsked(j, s') && j.read(k).err == s'.stopped)
      && (s'.stopped.None? ==> forall k | k in WideAsked(j, s') :: Running(s'.pcs[k]))
      && s'.taken == CountIf(s'.pcs, HasPlace) <= READS_AT_ONCE
      && |WideAsked(j, s')| <= READS_AT_ONCE
  {
    var s' := Act(j, s, i).value;
    assert GoroutineOk(j, s, i);
    CountUpdate(s.pcs, HasPlace, i, s'.pcs[i]);
    assert s'.pcs == s.pcs[i := s'.pcs[i]];
    if s'.asked == s.asked {
      assert WideAsked(j, s') == WideAsked(j, s);
      if s.pcs[i].Noting? {
        assert i in WideAsked(j, s');
      }
    } else {
      assert s.pcs[i].Placed? && s.stopped.None?;
      CountCovers(s'.pcs, HasPlace, WideAsked(j, s'));
    }
  }

  lemma StepInv<T>(j: Job<T>, s: State<T>, i: nat)
    requires Inv(j, s) && i < |s.pcs| && Act(j, s, i).Some?
    ensures Inv(j, Act(j, s, i).value)
  {
    StepFlag(j, s, i);
    forall k | 0 <= k < |s.pcs| ensures GoroutineOk(j, Act(j, s, i).value, k) {
      StepGoroutine(j, s, i, k);
    }
  }

  lemma {:induction false} RunInv<T>(j: Job<T>, schedule: seq<nat>)
    requires Run(j, schedule).Some?
    ensures Inv(j, Run(j, schedule).value)
  {
    if schedule == [] {
      InitInv(j);
    } else {
      var last := |schedule| - 1;
      RunInv(j, schedule[..last]);
      StepInv(j, Run(j, schedule[..last]).value, schedule[last]);
    }
  }

  // ----- what every run keeps ---------------------------------------------------

  /** In every reachable state at most six reads run, at most six have failed for the
      connection, and each outcome stored is the scope's own: its read's answer when
      it was read, the flag's error when it was not. */
  lemma ReadsAreBounded<T>(j: Job<T>, schedule: seq<nat>)
    requires Run(j, schedule).Some?
    ensures
      var s := Run(j, schedule).value;
      && |set i: nat | i < |s.pcs| && Running(s.pcs[i])| <= READS_AT_ONCE
      && |WideAsked(j, s)| <= READS_AT_ONCE
      && (forall i | 0 <= i < |s.out| && s.out[i].Some? :: Rightful(j, s, i, s.out[i].value))
  {
    RunInv(j, schedule);
    var s := Run(j, schedule).value;
    CountCovers(s.pcs, HasPlace, set i: nat | i < |s.pcs| && Running(s.pcs[i]));
    forall i | 0 <= i < |s.out| && s.out[i].Some? ensures Rightful(j, s, i, s.out[i].value) {
      assert GoroutineOk(j, s, i);
    }
  }

  /** A connection on which every read fails is asked six times, whatever the number
      of namespaces. */
  lemma DeadConnectionAskedSixTimes<T>(j: Job<T>, schedule: seq<nat>)
    requires Run(j, schedule).Some?
    requires forall i | 0 <= i < |j.scopes| :: Wide(j.read(i))
    ensures |Run(j, schedule).value.asked| <= READS_AT_ONCE
  {
    RunInv(j, schedule);
    var s := Run(j, schedule).value;
    assert WideAsked(j, s) == s.asked;
  }

  /** Once the flag is up it keeps its error, and no further read is begun. */
  lemma {:induction false} FlagSticks<T>(j: Job<T>, before: seq<nat>, after: seq<nat>)
    requires Run(j, before + after).Some?
    ensures Run(j, before).Some?
    ensures
      var s, s' := Run(j, before).value, Run(j, before + after).value;
      s.stopped.Some? ==> s'.stopped == s.stopped && s'.asked == s.asked
  {
    if after == [] {
      assert before + after == before;
    } else {
      var last := |after| - 1;
      assert (before + after)[..|before + after| - 1] == before + after[..last];
      FlagSticks(j, before, after[..last]);
    }
  }

  // ----- every run ends ---------------------------------------------------------

  function StepsLeft<T>(pc: Pc<T>): nat {
    match pc
    case Waiting => 6
    case Placed => 5
    case Reading => 4
    case Noting => 3
    case Storing(_) => 2
    case Leaving => 1
    case Done => 0
  }

  /** No schedule takes more than six steps a namespace. */
  lemma {:induction false} RunsAreShort<T>(j: Job<T>, schedule: seq<nat>)
    requires Run(j, schedule).Some?
    ensures |schedule| + SumOf(Run(j, schedule).value.pcs, StepsLeft) <= 6 * |j.scopes|
  {
    if schedule == [] {
      SumBound(Init(j).pcs, StepsLeft, 6);
    } else {
      var last := |schedule| - 1;
      var s, s', i := Run(j, schedule[..last]).value, Run(j, schedule).value, schedule[last];
      RunsAreShort(j, schedule[..last]);
      SumUpdate(s.pcs, StepsLeft, i, s'.pcs[i]);
      assert s'.pcs == s.pcs[i := s'.pcs[i]];
    }
  }

  ghost predicate AllDone<T>(s: State<T>) {
    forall i | 0 <= i < |s.pcs| :: s.pcs[i].Done?
  }

  /** No reachable state is stuck: until every goroutine has ended, some goroutine can
      take a step, and giving a place back never waits. */
  lemma SomeoneCanStep<T>(j: Job<T>, schedule: seq<nat>)
    requires Run(j, schedule).Some? && !AllDone(Run(j, schedule).value)
    ensures
      var s := Run(j, schedule).value;
      && (exists i: nat :: i < |s.pcs| && Act(j, s, i).Some?)
      && (forall i: nat | i < |s.pcs| && s.pcs[i].Leaving? :: Act(j, s, i).Some?)
  {
    RunInv(j, schedule);
    var s := Run(j, schedule).value;
    CountZero(s.pcs, HasPlace);
    var k: nat :| k < |s.pcs| && !s.pcs[k].Done?;
    if exists i: nat :: i < |s.pcs| && HasPlace(s.pcs[i]) {
      var i: nat :| i < |s.pcs| && HasPlace(s.pcs[i]);
      assert Act(j, s, i).Some?;
    } else {
      assert Act(j, s, k).Some?;
    }
  }

  // ----- what readEach returns ----------------------------------------------------

  /** `outs` is what one call of readEach may return. A single scope is read without
      goroutines. */
  ghost predicate Returns<T>(j: Job<T>, outs: seq<Outcome<T>>) {
    if |j.scopes| == 1 then outs == [ReadOutcome(j, 0)]
    else exists schedule :: ReturnsBy(j, schedule, outs)
  }

  ghost predicate ReturnsBy<T>(j: Job<T>, schedule: seq<nat>, outs: seq<Outcome<T>>) {
    && Run(j, schedule).Some?
    && AllDone(Run(j, schedule).value)
    && Run(j, schedule).value.out == seq(|outs|, i requires 0 <= i < |outs| => Some(outs[i]))
  }

  /** Outcome i is scope i's own read, or `stop` in its place. */
  ghost predicate InOrder<T>(j: Job<T>, outs: seq<Outcome<T>>, stop: Option<Error>) {
    && |outs| == |j.scopes|
    && forall i | 0 <= i < |outs| ::
         || outs[i] == Outcome(j.scopes[i], Some(j.read(i).got), j.read(i).err)
         || (stop.Some? && outs[i] == Outcome(j.scopes[i], None, stop))
  }

  /** Every call returns one outcome for each scope, in the order of the scopes: the
      scope's own answer, or the one failure of the connection that some read met. */
  lemma EveryScopeIsAnswered<T>(j: Job<T>, outs: seq<Outcome<T>>) returns (stop: Option<Error>)
    requires Returns(j, outs)
    ensures InOrder(j, outs, stop)
    ensures stop.Some? ==> exists k: nat :: k < |j.scopes| && Wide(j.read(k)) && j.read(k).err == stop
                                            && outs[k] == ReadOutcome(j, k)
  {
    if |j.scopes| == 1 {
      stop := None;
    } else {
      var schedule :| ReturnsBy(j, schedule, outs);
      RunInv(j, schedule);
      var s := Run(j, schedule).value;
      stop := s.stopped;
      forall i | 0 <= i < |outs|
        ensures Rightful(j, s, i, outs[i])
      {
        assert GoroutineOk(j, s, i) && s.out[i] == Some(outs[i]);
      }
      if stop.Some? {
        var k :| k in WideAsked(j, s) && j.read(k).err == s.stopped;
        assert Rightful(j, s, k, outs[k]);
      }
    }
  }

  /** The sequential loop the fan-out stands for: read each scope once, in order. */
  function OneByOne<T>(j: Job<T>, n: nat): seq<Outcome<T>>
    requires n <= |j.scopes|
  {
    if n == 0 then [] else OneByOne(j, n - 1) + [ReadOutcome(j, n - 1)]
  }

  /** While no read fails for the connection, every schedule returns what the
      sequential loop returns. */
  lemma {:induction false} FanOutIsTheLoop<T>(j: Job<T>, outs: seq<Outcome<T>>)
    requires Returns(j, outs)
    requires forall i | 0 <= i < |j.scopes| :: !Wide(j.read(i))
    ensures outs == OneByOne(j, |j.scopes|)
    ensures outs == seq(|j.scopes|, i requires 0 <= i < |j.scopes| => Outcome(j.scopes[i], Some(j.read(i).got), j.read(i).err))
  {
    var stop := EveryScopeIsAnswered(j, outs);
    LoopAt(j, |j.scopes|);
  }

  lemma {:induction false} LoopAt<T>(j: Job<T>, n: nat)
    requires n <= |j.scopes|
    ensures |OneByOne(j, n)| == n
    ensures forall i | 0 <= i < n :: OneByOne(j, n)[i] == ReadOutcome(j, i)
  {
    if n > 0 {
      LoopAt(j, n - 1);
    }
  }

  /** When every goroutine has ended, every place is free. */
  lemma PlacesAreGivenBack<T>(j: Job<T>, schedule: seq<nat>)
    requires Run(j, schedule).Some? && AllDone(Run(j, schedule).value)
    ensures Run(j, schedule).value.taken == 0
  {
    RunInv(j, schedule);
    CountZero(Run(j, schedule).value.pcs, HasPlace);
  }

  /** Any run can be completed, and one that is returns: a call never hangs on its own
      bookkeeping, whatever the reads answer. */
  lemma {:induction false} RunsComplete<T>(j: Job<T>, schedule: seq<nat>) returns (full: seq<nat>, outs: seq<Outcome<T>>)
    requires Run(j, schedule).Some?
    ensures schedule <= full && ReturnsBy(j, full, outs)
    decreases 6 * |j.scopes| - |schedule|
  {
    RunInv(j, schedule);
    var s := Run(j, schedule).value;
    if AllDone(s) {
      full := schedule;
      forall i | 0 <= i < |s.out| ensures s.out[i].Some? {
        assert GoroutineOk(j, s, i);
      }
      outs := seq(|s.out|, i requires 0 <= i < |s.out| => s.out[i].value);
      assert s.out == seq(|outs|, i requires 0 <= i < |outs| => Some(outs[i]));
    } else {
      SomeoneCanStep(j, schedule);
      var i: nat :| i < |s.pcs| && Act(j, s, i).Some?;
      assert (schedule + [i])[..|schedule + [i]| - 1] == schedule;
      RunsAreShort(j, schedule + [i]);
      full, outs := RunsComplete(j, schedule + [i]);
    }
  }
}
