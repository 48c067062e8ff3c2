/** Whether a browser flow asks everyone for a second factor, read off the same flat listing
    with a stack of its own (plugins/keycloak/audit.go: gradeBrowserFlow). */
module BrowserFlow {
  import opened Common
  import opened ExecutionTree

  const SECOND_FACTOR_STEPS: set<string> := {
    "auth-otp-form", "auth-conditional-otp-form", "webauthn-authenticator",
    "webauthn-authenticator-passwordless", "auth-recovery-authn-code-form"
  }

  datatype Grade = OK | Warn | Fail

  predicate IsConditional(s: Step) {
    s.flow && s.requirement == "CONDITIONAL"
  }

  /** A second-factor step that is switched on. */
  predicate IsFactor(s: Step) {
    !s.flow && s.provider in SECOND_FACTOR_STEPS && s.requirement != "DISABLED"
  }

  // ----- the rule, on the tree ------------------------------------------------------------------

  predicate UnderConditional(above: seq<Step>) {
    exists i :: 0 <= i < |above| && IsConditional(above[i])
  }

  /** REQUIRED, and nothing above it CONDITIONAL. */
  predicate IsEnforced(s: Step, above: seq<Step>) {
    IsFactor(s) && s.requirement == "REQUIRED" && !UnderConditional(above)
  }

  function RuledGrade(walk: seq<(Step, seq<Step>)>): Grade {
    if exists i :: 0 <= i < |walk| && IsEnforced(walk[i].0, walk[i].1) then OK
    else if exists i :: 0 <= i < |walk| && IsFactor(walk[i].0) then Warn
    else Fail
  }

  /** Whether a step, with what stands above it, makes everyone give a second factor; and
      whether it lets someone give one. */
  function AsksEveryone(): ((Step, seq<Step>)) -> bool {
    (w: (Step, seq<Step>)) =>
      && !w.0.flow && w.0.provider in SECOND_FACTOR_STEPS && w.0.requirement == "REQUIRED"
      && forall k | 0 <= k < |w.1| :: !(w.1[k].flow && w.1[k].requirement == "CONDITIONAL")
  }

  function LetsSomeone(): ((Step, seq<Step>)) -> bool {
    (w: (Step, seq<Step>)) => !w.0.flow && w.0.provider in SECOND_FACTOR_STEPS && w.0.requirement != "DISABLED"
  }

  function NameOf(): ((Step, seq<Step>)) -> string {
    (w: (Step, seq<Step>)) => w.0.name
  }

  // ----- the program --------------------------------------------------------------------------------

  function Cut<T>(stack: seq<T>, level: nat): seq<T> {
    if level < |stack| then stack[..level] else stack
  }

  function Pushed(stack: seq<bool>, s: Step): seq<bool> {
    if s.flow then Cut(stack, s.level) + [IsConditional(s)] else Cut(stack, s.level)
  }

  /** The stack when the steps have been passed. */
  function StackAfter(steps: seq<Step>): seq<bool> {
    if steps == [] then [] else Pushed(StackAfter(steps[..|steps| - 1]), steps[|steps| - 1])
  }

  /** Whether the stack has a CONDITIONAL in it where step `i` is looked at. */
  predicate Flagged(steps: seq<Step>, i: nat)
    requires i < |steps|
  {
    true in Cut(StackAfter(steps[..i]), steps[i].level)
  }

  /** The step is enforced, by what the stack says. */
  predicate Enforces(steps: seq<Step>, i: nat)
    requires i < |steps|
  {
    IsFactor(steps[i]) && steps[i].requirement == "REQUIRED" && !Flagged(steps, i)
  }

  function EnforcedNames(steps: seq<Step>, n: nat): seq<string>
    requires n <= |steps|
  {
    if n == 0 then []
    else if Enforces(steps, n - 1) then EnforcedNames(steps, n - 1) + [steps[n - 1].name]
    else EnforcedNames(steps, n - 1)
  }

  function OfferedNames(steps: seq<Step>, n: nat): seq<string>
    requires n <= |steps|
  {
    if n == 0 then []
    else if IsFactor(steps[n - 1]) && !Enforces(steps, n - 1) then OfferedNames(steps, n - 1) + [steps[n - 1].name]
    else OfferedNames(steps, n - 1)
  }

  method GradeBrowserFlow(execs: seq<Step>) returns (grade: Grade, names: seq<string>)
    ensures grade == RuledGrade(Walk(TreeOf(Renested(execs)), []))
    ensures names == match grade
      case OK => EnforcedNames(execs, |execs|)
      case Warn => OfferedNames(execs, |execs|)
      case Fail => []
    ensures grade == Fail <==>
              forall i | 0 <= i < |execs| ::
                execs[i].flow || execs[i].provider !in SECOND_FACTOR_STEPS || execs[i].requirement == "DISABLED"
    ensures NamesThose(grade, names, Walk(TreeOf(Renested(execs)), []))
  {
    hide NamesThose, Walk, TreeOf, Renested, RuledGrade;
    var conditionalAt: seq<bool> := [];
    var enforced, offered: seq<string> := [], [];
    for i := 0 to |execs|
      invariant conditionalAt == StackAfter(execs[..i])
      invariant enforced == EnforcedNames(execs, i) && offered == OfferedNames(execs, i)
    {
      var e := execs[i];
      assert execs[..i + 1][..i] == execs[..i];
      if e.level < |conditionalAt| {
        conditionalAt := conditionalAt[..e.level];
      }
      if e.flow {
        conditionalAt := conditionalAt + [e.requirement == "CONDITIONAL"];
        continue;
      }
      if e.provider !in SECOND_FACTOR_STEPS || e.requirement == "DISABLED" {
        continue;
      }
      var underConditional := false;
      for k := 0 to |conditionalAt|
        invariant underConditional <==> true in conditionalAt[..k]
      {
        assert conditionalAt[..k + 1] == conditionalAt[..k] + [conditionalAt[k]];
        underConditional := underConditional || conditionalAt[k];
      }
      assert conditionalAt[..|conditionalAt|] == conditionalAt;
      if e.requirement == "REQUIRED" && !underConditional {
        enforced := enforced + [e.name];
      } else {
        offered := offered + [e.name];
      }
    }
    GradeFromNames(execs);
    FailExactlyWhen(execs);
    GradeNames(execs);
    if |enforced| > 0 {
      return OK, enforced;
    }
    if |offered| > 0 {
      return Warn, offered;
    }
    return Fail, [];
  }

  /** OK is said when some step asks everyone, and names those that do; Warn names those
      that let someone give a second factor. */
  ghost predicate NamesThose(grade: Grade, names: seq<string>, walk: seq<(Step, seq<Step>)>) {
    && (grade == OK <==> exists i :: 0 <= i < |walk| && AsksEveryone()(walk[i]))
    && (grade == OK ==> Picks(names, walk, AsksEveryone(), NameOf()))
    && (grade == Warn ==> Picks(names, walk, LetsSomeone(), NameOf()))
  }

  ghost predicate SameSteps(steps: seq<Step>, walk: seq<(Step, seq<Step>)>) {
    |walk| == |steps| && forall i | 0 <= i < |steps| :: SameAt(steps, walk, i) && walk[i].0.name == steps[i].name
  }

  lemma WalkedSteps(steps: seq<Step>)
    ensures SameSteps(steps, Walk(TreeOf(Renested(steps)), []))
  {
    var walk := Walk(TreeOf(Renested(steps)), []);
    WalkLength(Renested(steps));
    hide TreeOf, Walk, Renested;
    forall i | 0 <= i < |steps| ensures SameAt(steps, walk, i) && walk[i].0.name == steps[i].name {
      StackIsTheRuleAt(steps, i);
      SameRule(steps, i, walk[i].0.level, walk[i].1);
    }
  }

  /** Fail is said when no step but sub-flows, other steps and ones switched off is there. */
  lemma FailExactlyWhen(steps: seq<Step>)
    ensures RuledGrade(Walk(TreeOf(Renested(steps)), [])) == Fail <==>
            forall i | 0 <= i < |steps| ::
              steps[i].flow || steps[i].provider !in SECOND_FACTOR_STEPS || steps[i].requirement == "DISABLED"
  {
    WalkedSteps(steps);
    GradeOfSame(steps, Walk(TreeOf(Renested(steps)), []));
    NamesExactlyWhen(steps, |steps|);
    hide TreeOf, Walk, Renested, RuledGrade, SameSteps;
  }

  lemma GradeNames(steps: seq<Step>)
    ensures
      var grade := RuledGrade(Walk(TreeOf(Renested(steps)), []));
      NamesThose(grade, match grade
                        case OK => EnforcedNames(steps, |steps|)
                        case Warn => OfferedNames(steps, |steps|)
                        case Fail => [], Walk(TreeOf(Renested(steps)), []))
  {
    var walk := Walk(TreeOf(Renested(steps)), []);
    WalkedSteps(steps);
    hide TreeOf, Walk, Renested, Picks, IsFactor, IsEnforced;
    EnforcedArePicked(steps, walk, |steps|);
    assert walk[..|steps|] == walk;
    if RuledGrade(walk) == Warn {
      OfferedArePicked(steps, walk, |steps|);
    }
    forall i | 0 <= i < |walk| ensures AsksEveryone()(walk[i]) <==> IsEnforced(walk[i].0, walk[i].1) {
      AsksIsEnforced(walk[i]);
    }
  }

  lemma AsksIsEnforced(w: (Step, seq<Step>))
    ensures AsksEveryone()(w) <==> IsEnforced(w.0, w.1)
    ensures LetsSomeone()(w) <==> IsFactor(w.0)
  {
    if IsEnforced(w.0, w.1) {
      forall k | 0 <= k < |w.1| ensures !(w.1[k].flow && w.1[k].requirement == "CONDITIONAL") {
        assert !IsConditional(w.1[k]);
      }
    }
  }

  lemma {:induction false} EnforcedArePicked(steps: seq<Step>, walk: seq<(Step, seq<Step>)>, n: nat)
    requires SameSteps(steps, walk) && n <= |steps|
    ensures Picks(EnforcedNames(steps, n), walk[..n], AsksEveryone(), NameOf())
  {
    if n > 0 {
      EnforcedArePicked(steps, walk, n - 1);
      assert walk[..n][..n - 1] == walk[..n - 1] && SameAt(steps, walk, n - 1);
      AsksIsEnforced(walk[n - 1]);
      PicksLast(EnforcedNames(steps, n - 1), walk[..n], AsksEveryone(), NameOf());
    }
  }

  lemma {:induction false} OfferedArePicked(steps: seq<Step>, walk: seq<(Step, seq<Step>)>, n: nat)
    requires SameSteps(steps, walk) && n <= |steps|
    requires forall i | 0 <= i < |walk| :: !IsEnforced(walk[i].0, walk[i].1)
    ensures Picks(OfferedNames(steps, n), walk[..n], LetsSomeone(), NameOf())
  {
    if n > 0 {
      OfferedArePicked(steps, walk, n - 1);
      assert walk[..n][..n - 1] == walk[..n - 1] && SameAt(steps, walk, n - 1);
      AsksIsEnforced(walk[n - 1]);
      PicksLast(OfferedNames(steps, n - 1), walk[..n], LetsSomeone(), NameOf());
    }
  }

  lemma GradeFromNames(steps: seq<Step>)
    ensures RuledGrade(Walk(TreeOf(Renested(steps)), [])) ==
            if EnforcedNames(steps, |steps|) != [] then OK
            else if OfferedNames(steps, |steps|) != [] then Warn
            else Fail
  {
    var walk := Walk(TreeOf(Renested(steps)), []);
    WalkLength(Renested(steps));
    forall i | 0 <= i < |steps| ensures SameAt(steps, walk, i) {
      StackIsTheRuleAt(steps, i);
      SameRule(steps, i, walk[i].0.level, walk[i].1);
    }
    GradeOfSame(steps, walk);
  }

  ghost predicate SameAt(steps: seq<Step>, walk: seq<(Step, seq<Step>)>, i: nat)
    requires |walk| == |steps| && i < |steps|
  {
    (IsFactor(walk[i].0) <==> IsFactor(steps[i])) && (IsEnforced(walk[i].0, walk[i].1) <==> Enforces(steps, i))
  }

  lemma GradeOfSame(steps: seq<Step>, walk: seq<(Step, seq<Step>)>)
    requires |walk| == |steps| && forall i | 0 <= i < |steps| :: SameAt(steps, walk, i)
    ensures RuledGrade(walk) ==
            if EnforcedNames(steps, |steps|) != [] then OK
            else if OfferedNames(steps, |steps|) != [] then Warn
            else Fail
  {
    hide IsFactor, IsEnforced, Enforces;
    NamesExactlyWhen(steps, |steps|);
    if i :| 0 <= i < |steps| && Enforces(steps, i) {
      assert SameAt(steps, walk, i);
    }
    if i :| 0 <= i < |steps| && IsFactor(steps[i]) {
      assert SameAt(steps, walk, i);
    }
    if i :| 0 <= i < |walk| && IsEnforced(walk[i].0, walk[i].1) {
      assert SameAt(steps, walk, i);
    }
    if i :| 0 <= i < |walk| && IsFactor(walk[i].0) {
      assert SameAt(steps, walk, i);
    }
  }

  lemma SameRule(steps: seq<Step>, i: nat, level: nat, above: seq<Step>)
    requires i < |steps| && (Flagged(steps, i) <==> UnderConditional(above))
    ensures
      var s := steps[i].(level := level);
      && (IsFactor(s) <==> IsFactor(steps[i]))
      && (IsEnforced(s, above) <==> Enforces(steps, i))
  {
    hide Flagged, UnderConditional;
  }

  lemma {:induction false} NamesExactlyWhen(steps: seq<Step>, n: nat)
    requires n <= |steps|
    ensures EnforcedNames(steps, n) != [] <==>
              exists i :: 0 <= i < n && Enforces(steps, i)
    ensures EnforcedNames(steps, n) != [] || OfferedNames(steps, n) != [] <==>
              exists i :: 0 <= i < n && IsFactor(steps[i])
  {
    if n > 0 {
      NamesExactlyWhen(steps, n - 1);
    }
  }

  // ----- what the stack says, in terms of the tree ------------------------------------------------------

  /** The level a step can hang at when only sub-flows have anything under them. */
  function RoomFor(steps: seq<Step>, i: nat): nat
    requires i <= |steps|
  {
    if i == 0 then 0 else steps[i - 1].level + ToNat(steps[i - 1].flow)
  }

  /** The listing with each step no deeper than that. */
  function Renested(steps: seq<Step>): (out: seq<Step>)
    ensures |out| == |steps|
    ensures forall i | 0 <= i < |steps| :: out[i] == steps[i].(level := out[i].level)
  {
    if steps == [] then []
    else
      var n := |steps| - 1;
      var front := Renested(steps[..n]);
      front + [steps[n].(level := Least(steps[n].level, RoomFor(front, n)))]
  }

  /** Levels deepen only under a sub-flow. */
  predicate WellNested(steps: seq<Step>) {
    forall i | 0 <= i < |steps| :: steps[i].level <= RoomFor(steps, i)
  }

  lemma {:induction false} RenestedPrefix(steps: seq<Step>, i: nat)
    requires i <= |steps|
    ensures Renested(steps)[..i] == Renested(steps[..i])
  {
    if i < |steps| {
      var n := |steps| - 1;
      RenestedPrefix(steps[..n], i);
      assert steps[..n][..i] == steps[..i];
      assert Renested(steps)[..i] == Renested(steps[..n])[..i];
    } else {
      assert steps[..i] == steps;
    }
  }

  /** The listing is left as it is exactly when it deepens only under sub-flows. */
  lemma {:induction false} RenestedExactlyWhen(steps: seq<Step>)
    ensures Renested(steps) == steps <==> WellNested(steps)
    ensures WellNested(Renested(steps))
  {
    if steps != [] {
      var n := |steps| - 1;
      RenestedExactlyWhen(steps[..n]);
      WellNestedFront(steps);
      WellNestedFront(Renested(steps));
      RenestedFront(steps);
    }
  }

  lemma RenestedFront(steps: seq<Step>)
    requires steps != []
    ensures
      var n := |steps| - 1;
      var front := Renested(steps[..n]);
      && Renested(steps)[..n] == front
      && Renested(steps)[n] == steps[n].(level := Least(steps[n].level, RoomFor(front, n)))
      && (Renested(steps) == steps <==> front == steps[..n] && Renested(steps)[n] == steps[n])
  {
    var n := |steps| - 1;
    var front, out := Renested(steps[..n]), Renested(steps);
    assert out == front + [steps[n].(level := Least(steps[n].level, RoomFor(front, n)))];
    hide Renested, RoomFor;
    DropAppend(front, [out[n]]);
    SameFromFront(out, steps);
  }

  lemma SameFromFront<T>(a: seq<T>, b: seq<T>)
    requires |a| == |b| > 0
    ensures a == b <==> a[..|a| - 1] == b[..|a| - 1] && a[|a| - 1] == b[|a| - 1]
  {
    assert a == a[..|a| - 1] + [a[|a| - 1]];
    assert b == b[..|a| - 1] + [b[|a| - 1]];
  }

  lemma WellNestedFront(steps: seq<Step>)
    requires steps != []
    ensures
      var n := |steps| - 1;
      WellNested(steps) <==> WellNested(steps[..n]) && steps[n].level <= RoomFor(steps, n)
  {
    var n := |steps| - 1;
    assert forall i | 0 <= i <= n :: RoomFor(steps[..n], i) == RoomFor(steps, i);
  }

  /** The stack grows with the depth the steps can hang at, and sees nothing else. */
  lemma {:induction false} StackOfRenested(steps: seq<Step>)
    ensures StackAfter(Renested(steps)) == StackAfter(steps)
    ensures |StackAfter(steps)| == RoomFor(Renested(steps), |steps|)
  {
    if steps != [] {
      var n := |steps| - 1;
      StackOfRenested(steps[..n]);
      assert Renested(steps)[..n] == Renested(steps[..n]);
    }
  }

  function Flags(steps: seq<Step>): (flags: seq<bool>)
    ensures |flags| == |steps|
  {
    seq(|steps|, i requires 0 <= i < |steps| => IsConditional(steps[i]))
  }

  lemma FlagsSayUnder(above: seq<Step>)
    ensures true in Flags(above) <==> UnderConditional(above)
  {
    if i :| 0 <= i < |above| && IsConditional(above[i]) {
      assert Flags(above)[i];
    }
  }

  lemma {:induction false} WellNestedClamps(steps: seq<Step>)
    requires WellNested(steps)
    ensures forall i | 0 <= i < |steps| :: Clamped(steps)[i] == steps[i].level
  {
    forall i | 0 <= i < |steps| ensures steps[i].level <= RoomAt(steps, i) {
      assert steps[i].level <= RoomFor(steps, i);
    }
    NestedKeepsLevels(steps);
  }

  /** The stack is the CONDITIONAL flags along the spine, as far as sub-flows go. */
  lemma {:induction false} StackIsTheSpine(steps: seq<Step>)
    requires WellNested(steps)
    ensures RoomFor(steps, |steps|) <= |Spine(TreeOf(steps))|
    ensures StackAfter(steps) == Flags(Spine(TreeOf(steps)))[..RoomFor(steps, |steps|)]
  {
    if steps != [] {
      var n := |steps| - 1;
      var t, s := TreeOf(steps[..n]), steps[n];
      assert StackAfter(steps) == Pushed(StackAfter(steps[..n]), s);
      assert TreeOf(steps) == Grow(t, Clamped(steps)[n], s);
      hide Spine, TreeOf, Grow, Clamped, Renested, StackAfter, Pushed;
      WellNestedFront(steps);
      StackIsTheSpine(steps[..n]);
      WellNestedClamps(steps);
      GrowSpine(t, s.level, s);
      PushOnSpine(StackAfter(steps[..n]), Spine(t), RoomFor(steps, n), s);
    }
  }

  lemma PushOnSpine(stack: seq<bool>, spine: seq<Step>, room: nat, s: Step)
    requires s.level <= room <= |spine| && stack == Flags(spine)[..room]
    ensures Pushed(stack, s) == Flags(spine[..s.level] + [s])[..s.level + ToNat(s.flow)]
  {
    assert Cut(stack, s.level) == Flags(spine[..s.level]);
    assert Flags(spine[..s.level] + [s]) == Flags(spine[..s.level]) + [IsConditional(s)];
  }

  lemma WalkFront(steps: seq<Step>)
    requires steps != [] && WellNested(steps)
    ensures
      var n := |steps| - 1;
      var t := TreeOf(steps[..n]);
      && steps[n].level <= |Spine(t)|
      && Walk(TreeOf(steps), []) == Walk(t, []) + [(steps[n], Spine(t)[..steps[n].level])]
      && |Walk(t, [])| == n
  {
    var n := |steps| - 1;
    var t, s := TreeOf(steps[..n]), steps[n];
    WellNestedFront(steps);
    StackIsTheSpine(steps[..n]);
    WellNestedClamps(steps);
    GrowWalk(t, s.level, s, []);
    WalkLength(steps[..n]);
    assert [] + Spine(t)[..s.level] == Spine(t)[..s.level];
  }

  /** Where the last step is looked at, the stack is the flags along the spine above it. */
  lemma LastFlagged(steps: seq<Step>)
    requires steps != [] && WellNested(steps)
    ensures
      var n := |steps| - 1;
      var spine := Spine(TreeOf(steps[..n]));
      && steps[n].level <= |spine|
      && (Flagged(steps, n) <==> UnderConditional(spine[..steps[n].level]))
  {
    var n := |steps| - 1;
    var level := steps[n].level;
    WellNestedFront(steps);
    StackIsTheSpine(steps[..n]);
    var above := Spine(TreeOf(steps[..n]))[..level];
    assert Cut(StackAfter(steps[..n]), level) == Flags(above);
    FlagsSayUnder(above);
  }

  /** Where step `i` is looked at, the stack is the flags of what stands above it. */
  lemma {:induction false} FlaggedIsUnder(steps: seq<Step>, i: nat)
    requires WellNested(steps) && i < |steps|
    ensures |Walk(TreeOf(steps), [])| == |steps|
    ensures
      var (s, above) := Walk(TreeOf(steps), [])[i];
      s == steps[i] && (Flagged(steps, i) <==> UnderConditional(above))
  {
    var n := |steps| - 1;
    WalkFront(steps);
    LastFlagged(steps);
    WellNestedFront(steps);
    hide Walk, TreeOf, Spine, UnderConditional, WellNested;
    if i < n {
      FlaggedIsUnder(steps[..n], i);
      assert steps[..n][..i] == steps[..i];
    }
  }

  /** For every listing: the stack flags a step exactly when something above it is
      CONDITIONAL in the tree where only sub-flows have steps under them. */
  lemma StackIsTheRule(steps: seq<Step>)
    ensures forall i | 0 <= i < |steps| :: StackRuleAt(steps, i)
  {
    hide StackRuleAt;
    forall i | 0 <= i < |steps| ensures StackRuleAt(steps, i) {
      StackIsTheRuleAt(steps, i);
    }
  }

  ghost predicate StackRuleAt(steps: seq<Step>, i: nat)
    requires i < |steps|
  {
    var walk := Walk(TreeOf(Renested(steps)), []);
    && |walk| == |steps|
    && walk[i].0 == steps[i].(level := walk[i].0.level)
    && (Flagged(steps, i) <==> UnderConditional(walk[i].1))
  }

  lemma StackIsTheRuleAt(steps: seq<Step>, i: nat)
    requires i < |steps|
    ensures StackRuleAt(steps, i)
  {
    var out := Renested(steps);
    RenestedExactlyWhen(steps);
    FlaggedIsUnder(out, i);
    RenestedPrefix(steps, i);
    StackOfRenested(steps[..i]);
    CutAtRoom(steps, i);
    var stack := StackAfter(steps[..i]);
    hide Walk, TreeOf, Renested, StackAfter, UnderConditional, WellNested;
    assert Cut(stack, out[i].level) == Cut(stack, steps[i].level);
  }

  lemma CutAtRoom(steps: seq<Step>, i: nat)
    requires i < |steps|
    ensures Renested(steps)[i].level == Least(steps[i].level, RoomFor(Renested(steps), i))
    ensures RoomFor(Renested(steps), i) == RoomFor(Renested(steps[..i]), i)
  {
    hide Renested, RoomFor;
    var u, out := steps[..i + 1], Renested(steps);
    RenestedPrefix(steps, i);
    RenestedPrefix(steps, i + 1);
    RenestedFront(u);
    SliceOfSlice(steps, 0, i);
    assert u[..i] == steps[..i];
    assert out[i] == out[..i + 1][i];
    RoomInFront(out, i);
  }

  lemma RoomInFront(steps: seq<Step>, i: nat)
    requires i <= |steps|
    ensures RoomFor(steps, i) == RoomFor(steps[..i], i)
  {
  }

  /** For a listing that deepens only under sub-flows the grade is the rule on the tree
      that the listing is drawn as. */
  lemma {:induction false} NestedGrade(steps: seq<Step>)
    requires WellNested(steps)
    ensures RuledGrade(Walk(TreeOf(Renested(steps)), [])) == RuledGrade(Walk(TreeOf(steps), []))
  {
    RenestedExactlyWhen(steps);
  }

  /** Without that the two may differ: a REQUIRED step beside a conditional sub-flow, both
      under a step that is no sub-flow. */
  lemma UnnestedGradeDiffers(form: Step, sub: Step, otp: Step)
    requires form.level == 0 && !form.flow && !IsFactor(form)
    requires sub.level == 1 && IsConditional(sub)
    requires otp.level == 1 && IsFactor(otp) && otp.requirement == "REQUIRED"
    ensures RuledGrade(Walk(TreeOf([form, sub, otp]), [])) == OK
    ensures RuledGrade(Walk(TreeOf(Renested([form, sub, otp])), [])) == Warn
  {
    var steps := [form, sub, otp];
    UnnestedTree(form, sub, otp);
    UnnestedStack(form, sub, otp);
    GradeFromNames(steps);
    NamesExactlyWhen(steps, 3);
    var walk := Walk(TreeOf(steps), []);
    hide Walk, TreeOf, Renested, IsFactor, IsConditional;
    assert IsEnforced(walk[2].0, walk[2].1);
    assert IsFactor(steps[2]);
  }

  lemma UnnestedTree(form: Step, sub: Step, otp: Step)
    requires form.level == 0 && sub.level == 1 && otp.level == 1
    ensures Walk(TreeOf([form, sub, otp]), []) == [(form, []), (sub, [form]), (otp, [form])]
  {
    var steps := [form, sub, otp];
    assert steps[..2] == [form, sub] && [form, sub][..1] == [form] && [form][..0] == [];
    assert Clamped([form]) == [0];
    assert Clamped([form, sub]) == [0, 1];
    assert Clamped(steps) == [0, 1, 1];
    assert TreeOf([form]) == Snoc(Empty, form, Empty);
    assert TreeOf([form, sub]) == Grow(TreeOf([form]), 1, sub);
    assert Grow(Empty, 0, sub) == Snoc(Empty, sub, Empty);
    assert TreeOf([form, sub]) == Snoc(Empty, form, Snoc(Empty, sub, Empty));
    assert TreeOf(steps) == Grow(TreeOf([form, sub]), 1, otp);
    assert Grow(Snoc(Empty, sub, Empty), 0, otp) == Snoc(Snoc(Empty, sub, Empty), otp, Empty);
    var below := Snoc(Snoc(Empty, sub, Empty), otp, Empty);
    assert TreeOf(steps) == Snoc(Empty, form, below);
    assert [] + [form] == [form];
    assert Walk(Snoc(Empty, sub, Empty), [form]) == [(sub, [form])];
    assert Walk(below, [form]) == [(sub, [form]), (otp, [form])];
  }

  lemma UnnestedStack(form: Step, sub: Step, otp: Step)
    requires form.level == 0 && !form.flow && sub.level == 1 && IsConditional(sub) && otp.level == 1
    ensures Flagged([form, sub, otp], 2)
  {
    var steps := [form, sub, otp];
    assert steps[..2] == [form, sub] && [form, sub][..1] == [form] && [form][..0] == [];
    assert StackAfter([form]) == [];
    assert StackAfter([form, sub]) == [true];
  }
}
