/** Concurrent kubectl reads behind gates, and the certificate cache in front of some
    of them (plugins/kube/cert.go, plugins/kube/kubectl.go).

    A caller either draws on the cache for a scope it can name (tlsCerts) or makes a
    bare kubectl call (any other read, and a certificate read whose scope cannot be
    named). Either may share a gate with others or have none. The program counter
    follows the code from one synchronisation to the next, and a run is any schedule
    of the callers with any passage of time between their steps. */
module CertCache {
  import opened Common

  /** A quarter of an hour, in seconds. */
  const CERT_LIFE: nat := 15 * 60

  datatype Scope = Scope(context: string, namespace: string)

  datatype Error = Error(code: string, message: string)

  /** Whether a failure says of every call that it will fail. */
  predicate ClusterWide(e: Error) {
    e.code in {"kube.unreachable", "kube.auth.failed", "kube.login", "kube.credential.missing",
               "kube.noconfig", "kube.context.unknown", "kube.context.none", "kube.kubectl.missing"}
  }

  datatype Reply = Good(certs: seq<string>) | Bad(err: Error)

  predicate Wide(r: Reply) {
    r.Bad? && ClusterWide(r.err)
  }

  /** What an entry holds once a read of it succeeded (`at` is no longer zero); `read`
      is history, the index of that read in the log. */
  datatype Kept = Kept(at: nat, certs: seq<string>, read: nat)

  /** A certEntry; `scope` is the scope it was made for. */
  datatype Entry = Entry(scope: Scope, holder: Option<nat>, kept: Option<Kept>)

  /** `asked` is history: the callers whose subprocess was started. */
  datatype Gate = Gate(width: nat, taken: nat, down: Option<Error>, asked: set<nat>)

  /** A successful read, from the start of the subprocess to its end. */
  datatype Read = Read(who: nat, entry: Option<nat>, begun: nat, ended: nat, certs: seq<string>)

  /** What tlsCerts returned, and when; `read` is the log index of the read behind it. */
  datatype Answer =
    | Certs(kept: Kept, reused: bool, when: nat)
    | Failed(err: Error)

  datatype Pc =
    | Start                                 // certEntryFor is at certReads.Lock()
    | Finding                               // in certEntryFor, holding the map
    | WaitEntry(e: nat)                     // at e.mu.Lock()
    | Checking(e: nat)                      // holds e, has not looked at its age
    | WaitPlace(own: Option<nat>)           // at the gate's select
    | AtGate(own: Option<nat>)              // took a place, has not looked at down
    | TurnedAway(own: Option<nat>, err: Error)  // gives the place back
    | Reading(own: Option<nat>, begun: nat)
    | Noting(own: Option<nat>, err: Error)
    | Leaving(own: Option<nat>, reply: Reply, read: nat)
    | Storing(e: nat, certs: seq<string>, read: nat)
    | WaitSweep(e: nat, kept: Kept)         // forgetOld is at certReads.Lock()
    | Sweeping(e: nat, kept: Kept, todo: set<Scope>)
    | Trying(e: nat, kept: Kept, todo: set<Scope>, at: Scope, x: nat)  // TryLock succeeded
    | Dropping(e: nat, kept: Kept, todo: set<Scope>, at: Scope)        // unlocked, about to delete
    | WaitForget(e: nat, err: Error)        // forgetUnread is at certReads.Lock()
    | Forgetting(e: nat, err: Error)
    | Unlocking(e: nat, answer: Answer)     // the deferred e.mu.Unlock()
    | Done(answer: Answer)

  /** The stretches of a caller's way: to its entry, past the gate, through the sweep, and
      out. */
  predicate Entering(pc: Pc) {
    pc.Start? || pc.Finding? || pc.WaitEntry? || pc.Checking?
  }

  predicate Gated(pc: Pc) {
    pc.WaitPlace? || pc.AtGate? || pc.TurnedAway? || pc.Reading? || pc.Noting? || pc.Leaving?
  }

  predicate Tidying(pc: Pc) {
    pc.WaitSweep? || pc.Sweeping? || pc.Trying? || pc.Dropping?
  }

  predicate Ending(pc: Pc) {
    pc.Storing? || pc.WaitForget? || pc.Forgetting? || pc.Unlocking? || pc.Done?
  }

  /** `reply` is what the caller's own read answers, should it be made. */
  datatype Caller = Caller(scope: Option<Scope>, gate: Option<nat>, reply: Reply, pc: Pc)

  datatype State = State(
    now: nat, mapLock: Option<nat>, byScope: map<Scope, nat>, entries: seq<Entry>,
    gates: seq<Gate>, callers: seq<Caller>, log: seq<Read>)

  /** What a step may find: the time, whether the caller's context is done, and the map
      key the iteration of forgetOld comes to. */
  datatype Env = Env(now: nat, cancelled: bool, pick: Scope)

  const CANCELLED := Error("kube.cancelled", "the call was cancelled")

  predicate Young(k: Option<Kept>, now: nat) {
    k.Some? && now - k.value.at < CERT_LIFE
  }

  predicate Old(k: Option<Kept>, now: nat) {
    k.Some? && now - k.value.at >= CERT_LIFE
  }

  // ----- steps ------------------------------------------------------------------

  predicate WellFormed(s: State) {
    forall t | 0 <= t < |s.callers| && s.callers[t].gate.Some? :: s.callers[t].gate.value < |s.gates|
  }

  function To(s: State, t: nat, pc: Pc): State
    requires t < |s.callers|
  {
    s.(callers := s.callers[t := s.callers[t].(pc := pc)])
  }

  function Lock(s: State, e: nat, holder: Option<nat>): State
    requires e < |s.entries|
  {
    s.(entries := s.entries[e := s.entries[e].(holder := holder)])
  }

  function SetGate(s: State, g: nat, gate: Gate): State
    requires g < |s.gates|
  {
    s.(gates := s.gates[g := gate])
  }

  /** After the failure of a read: a cached caller drops its entry if it is unread. */
  function Fail(own: Option<nat>, err: Error): Pc {
    match own
    case Some(e) => WaitForget(e, err)
    case None => Done(Failed(err))
  }

  /** The step of caller t at `env.now`, or None where it has to wait or has ended. */
  function Act(s0: State, t: nat, env: Env): (r: Option<State>)
    requires WellFormed(s0) && t < |s0.callers|
    ensures r.Some? ==>
      && WellFormed(r.value) && |r.value.gates| == |s0.gates| && r.value.now == env.now >= s0.now
      && |r.value.callers| == |s0.callers|
      && r.value.callers == s0.callers[t := s0.callers[t].(pc := r.value.callers[t].pc)]
  {
    if env.now < s0.now then None else
    var s := s0.(now := env.now);
    var c := s.callers[t];
    match c.pc
    case Start => StartStep(s, t)
    case Finding => FindStep(s, t)
    case WaitEntry(e) =>
      if e < |s.entries| && s.entries[e].holder.None?
      then Some(To(Lock(s, e, Some(t)), t, Checking(e))) else None
    case Checking(e) => if e < |s.entries| then Some(CheckStep(s, t, e)) else None
    case WaitPlace(own) => PlaceStep(s, t, own, env.cancelled)
    case AtGate(own) => Some(GateStep(s, t, own))
    case TurnedAway(own, err) => LeaveStep(s, t, Fail(own, err))
    case Reading(own, begun) => Some(ReadStep(s, t, own, begun))
    case Noting(own, err) => Some(NoteStep(s, t, own, err))
    case Leaving(own, reply, read) => LeaveStep(s, t, AfterRead(s, own, reply, read))
    case Storing(e, certs, read) =>
      if e < |s.entries| then
        var kept := Kept(s.now, certs, read);
        Some(To(s.(entries := s.entries[e := s.entries[e].(kept := Some(kept))]), t, WaitSweep(e, kept)))
      else None
    case WaitSweep(e, kept) =>
      if s.mapLock.None? then Some(To(s.(mapLock := Some(t)), t, Sweeping(e, kept, s.byScope.Keys))) else None
    case Sweeping(e, kept, todo) => SweepStep(s, t, e, kept, todo, env.pick)
    case Trying(e, kept, todo, at, x) =>
      if x < |s.entries| then
        var next := if Old(s.entries[x].kept, s.now) then Dropping(e, kept, todo, at)
                    else Sweeping(e, kept, todo - {at});
        Some(To(Lock(s, x, None), t, next))
      else None
    case Dropping(e, kept, todo, at) =>
      Some(To(s.(byScope := s.byScope - {at}), t, Sweeping(e, kept, todo - {at})))
    case WaitForget(e, err) =>
      if s.mapLock.None? then Some(To(s.(mapLock := Some(t)), t, Forgetting(e, err))) else None
    case Forgetting(e, err) => ForgetStep(s, t, e, err)
    case Unlocking(e, answer) =>
      if e < |s.entries| then Some(To(Lock(s, e, None), t, Done(answer))) else None
    case Done(_) => None
  }

  function StartStep(s: State, t: nat): Option<State>
    requires t < |s.callers|
  {
    if s.callers[t].scope.None? then Some(To(s, t, WaitPlace(None)))
    else if s.mapLock.None? then Some(To(s.(mapLock := Some(t)), t, Finding))
    else None
  }

  function FindStep(s: State, t: nat): Option<State>
    requires t < |s.callers|
  {
    match s.callers[t].scope
    case None => None
    case Some(scope) =>
      if scope in s.byScope then Some(To(s.(mapLock := None), t, WaitEntry(s.byScope[scope])))
      else
        var e := |s.entries|;
        Some(To(s.(mapLock := None,
                   entries := s.entries + [Entry(scope, None, None)],
                   byScope := s.byScope[scope := e]), t, WaitEntry(e)))
  }

  function CheckStep(s: State, t: nat, e: nat): State
    requires t < |s.callers| && e < |s.entries|
  {
    var kept := s.entries[e].kept;
    if Young(kept, s.now) then To(s, t, Unlocking(e, Certs(kept.value, true, s.now)))
    else To(s, t, WaitPlace(Some(e)))
  }

  /** gate.enter: a place, or the end of the context; no gate is no wait. */
  function PlaceStep(s: State, t: nat, own: Option<nat>, cancelled: bool): Option<State>
    requires WellFormed(s) && t < |s.callers|
  {
    match s.callers[t].gate
    case None => Some(To(s, t, Reading(own, s.now)))
    case Some(g) =>
      if cancelled then Some(To(s, t, Fail(own, CANCELLED)))
      else if s.gates[g].taken < s.gates[g].width
      then Some(To(SetGate(s, g, s.gates[g].(taken := s.gates[g].taken + 1)), t, AtGate(own)))
      else None
  }

  function GateStep(s: State, t: nat, own: Option<nat>): State
    requires WellFormed(s) && t < |s.callers|
  {
    match s.callers[t].gate
    case None => To(s, t, Reading(own, s.now))
    case Some(g) =>
      var gate := s.gates[g];
      if gate.down.Some? then To(s, t, TurnedAway(own, gate.down.value))
      else To(SetGate(s, g, gate.(asked := gate.asked + {t})), t, Reading(own, s.now))
  }

  /** The subprocess ends; a good answer is logged. */
  function ReadStep(s: State, t: nat, own: Option<nat>, begun: nat): State
    requires t < |s.callers|
  {
    match s.callers[t].reply
    case Good(certs) =>
      To(s.(log := s.log + [Read(t, own, begun, s.now, certs)]), t, Leaving(own, Good(certs), |s.log|))
    case Bad(err) => To(s, t, Noting(own, err))
  }

  function NoteStep(s: State, t: nat, own: Option<nat>, err: Error): State
    requires WellFormed(s) && t < |s.callers|
  {
    var s' := To(s, t, Leaving(own, Bad(err), 0));
    match s.callers[t].gate
    case None => s'
    case Some(g) =>
      if ClusterWide(err) && s.gates[g].down.None?
      then SetGate(s', g, s.gates[g].(down := Some(err)))
      else s'
  }

  /** A receive from the slots channel, which would block on an empty one. */
  function LeaveStep(s: State, t: nat, next: Pc): Option<State>
    requires WellFormed(s) && t < |s.callers|
  {
    match s.callers[t].gate
    case None => Some(To(s, t, next))
    case Some(g) =>
      if s.gates[g].taken > 0
      then Some(To(SetGate(s, g, s.gates[g].(taken := s.gates[g].taken - 1)), t, next))
      else None
  }

  function AfterRead(s: State, own: Option<nat>, reply: Reply, read: nat): Pc {
    match reply
    case Bad(err) => Fail(own, err)
    case Good(certs) =>
      match own
      case Some(e) => Storing(e, certs, read)
      case None => Done(Certs(Kept(s.now, certs, read), false, s.now))
  }

  /** One turn of forgetOld's loop: an entry in use is passed over. */
  function SweepStep(s: State, t: nat, e: nat, kept: Kept, todo: set<Scope>, pick: Scope): Option<State>
    requires t < |s.callers|
  {
    if todo == {} then
      Some(To(s.(mapLock := None), t, Unlocking(e, Certs(kept, false, s.now))))
    else if pick in todo && pick in s.byScope && s.byScope[pick] < |s.entries| then
      var x := s.byScope[pick];
      if s.entries[x].holder.Some? then Some(To(s, t, Sweeping(e, kept, todo - {pick})))
      else Some(To(Lock(s, x, Some(t)), t, Trying(e, kept, todo, pick, x)))
    else None
  }

  function ForgetStep(s: State, t: nat, e: nat, err: Error): Option<State>
    requires t < |s.callers|
  {
    match s.callers[t].scope
    case None => None
    case Some(scope) =>
      if e < |s.entries| then
        var drop := scope in s.byScope && s.byScope[scope] == e && s.entries[e].kept.None?;
        Some(To(s.(mapLock := None, byScope := if drop then s.byScope - {scope} else s.byScope),
                t, Unlocking(e, Failed(err))))
      else None
  }

  // ----- runs ---------------------------------------------------------------------

  /** A state before any call: an empty cache, every gate open and wide enough for one. */
  predicate Initial(s: State) {
    && WellFormed(s)
    && s.mapLock.None? && s.byScope == map[] && s.entries == [] && s.log == []
    && (forall g | 0 <= g < |s.gates| :: s.gates[g] == Gate(s.gates[g].width, 0, None, {}) && s.gates[g].width > 0)
    && (forall t | 0 <= t < |s.callers| :: s.callers[t].pc == Start)
  }

  datatype Turn = Turn(caller: nat, env: Env)

  /** The state after a schedule, or None when it schedules a caller that has to wait. */
  function Run(init: State, schedule: seq<Turn>): (r: Option<State>)
    requires Initial(init)
    ensures r.Some? ==> WellFormed(r.value) && |r.value.gates| == |init.gates|
  {
    if schedule == [] then Some(init) else
      var last := |schedule| - 1;
      match Run(init, schedule[..last])
      case None => None
      case Some(s) =>
        if schedule[last].caller < |s.callers|
        then Act(s, schedule[last].caller, schedule[last].env) else None
  }
}
