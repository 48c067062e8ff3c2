/** Exactly when the grade of a browser flow is the rule on the tree that the same listing
    is drawn as (plugins/keycloak/audit.go: gradeBrowserFlow, plugins/keycloak/flow.go:
    executionTree), and which way it errs when it is not. */
module FlowAgreement {
  import opened Common
  import opened ExecutionTree
  import opened BrowserFlow

  // ----- standing above, by levels -----------------------------------------------------------

  /** Step k stands above step i: the last before it at a lower level of its own. */
  predicate StandsAbove(levels: seq<nat>, k: nat, i: nat) {
    k < i < |levels| && levels[k] < levels[i] && LastAt(levels[..i], levels[k]) == Some(k)
  }

  /** The levels of a listing as it is drawn, and as it is graded. */
  function DrawnLevels(steps: seq<Step>): (levels: seq<nat>)
    ensures |levels| == |steps|
  {
    Clamped(steps)
  }

  function GradedLevels(steps: seq<Step>): (levels: seq<nat>)
    ensures |levels| == |steps|
  {
    Clamped(Renested(steps))
  }

  /** What stands above a step in the tree is the steps that stand above it by their
      levels. */
  lemma AboveByLevels(steps: seq<Step>, i: nat)
    requires i < |steps|
    ensures |Walk(TreeOf(steps), [])| == |steps|
    ensures Walk(TreeOf(steps), [])[i].0 == steps[i]
    ensures forall x :: x in Walk(TreeOf(steps), [])[i].1 <==>
              exists k :: 0 <= k < i && StandsAbove(Clamped(steps), k, i) && steps[k] == x
    ensures UnderConditional(Walk(TreeOf(steps), [])[i].1) <==>
              exists k :: 0 <= k < i && StandsAbove(Clamped(steps), k, i) && IsConditional(steps[k])
  {
    AboveIsNearest(steps, i);
    var levels, above := Clamped(steps), Walk(TreeOf(steps), [])[i].1;
    hide Walk, TreeOf, Clamped;
    forall j | 0 <= j < |above|
      ensures exists k :: 0 <= k < i && StandsAbove(levels, k, i) && steps[k] == above[j]
    {
      var k := LastAt(levels[..i], j).value;
      LastAtIsLast(levels[..i], j);
      assert StandsAbove(levels, k, i);
    }
    forall k | 0 <= k < i && StandsAbove(levels, k, i) ensures steps[k] in above {
      assert above[levels[k]] == steps[k];
    }
    if UnderConditional(above) {
      var j :| 0 <= j < |above| && IsConditional(above[j]);
    }
  }

  // ----- levels that go down one at a time --------------------------------------------------------

  predicate Stepwise(levels: seq<nat>) {
    forall j | 0 < j < |levels| :: levels[j] <= levels[j - 1] + 1
  }

  /** Everything between is deeper. */
  predicate DeeperBetween(levels: seq<nat>, k: nat, i: nat) {
    k < i < |levels| && levels[k] < levels[i] && forall j | k < j < i :: levels[j] > levels[k]
  }

  lemma AboveIsDeeperBetween(levels: seq<nat>, k: nat, i: nat)
    requires Stepwise(levels)
    ensures StandsAbove(levels, k, i) <==> DeeperBetween(levels, k, i)
  {
    if k < i < |levels| {
      var front := levels[..i];
      LastAtIsLast(front, levels[k]);
      if DeeperBetween(levels, k, i) {
        assert forall j | k < j < i :: front[j] != levels[k];
        assert front[k] == levels[k] && levels[k] in front;
      }
      if StandsAbove(levels, k, i) {
        assert forall j | k < j < i :: front[j] in front[k + 1..] by {
          assert forall j | k < j < i :: front[k + 1..][j - k - 1] == front[j];
        }
        StaysDeeper(levels, k, i, k + 1);
      }
    }
  }

  /** Going back from a deeper step one level at a time, the level of k is not passed
      without being met. */
  lemma {:induction false} StaysDeeper(levels: seq<nat>, k: nat, i: nat, from: nat)
    requires Stepwise(levels) && k < from <= i < |levels| && levels[k] < levels[i]
    requires forall j | k < j < i :: levels[j] != levels[k]
    ensures forall j | from <= j < i :: levels[j] > levels[k]
    decreases i - from
  {
    if from < i {
      StaysDeeper(levels, k, i, from + 1);
      assert levels[from + 1] <= levels[from] + 1;
    }
  }

  lemma {:induction false} ClampedIsStepwise(steps: seq<Step>)
    ensures Stepwise(Clamped(steps))
  {
    if steps != [] {
      ClampedIsStepwise(steps[..|steps| - 1]);
      ClampedStep(steps);
    }
  }

  // ----- the two trees -----------------------------------------------------------------------------

  lemma GradedIsRenested(steps: seq<Step>)
    ensures forall i | 0 <= i < |steps| :: GradedLevels(steps)[i] == Renested(steps)[i].level
  {
    RenestedExactlyWhen(steps);
    WellNestedClamps(Renested(steps));
  }

  /** How the two readings take one more level down: the drawing under any step, the grade
      under a sub-flow only. */
  lemma LevelsStep(steps: seq<Step>, i: nat)
    requires i < |steps|
    ensures DrawnLevels(steps)[i] == Least(steps[i].level, if i == 0 then 0 else DrawnLevels(steps)[i - 1] + 1)
    ensures GradedLevels(steps)[i] ==
            Least(steps[i].level, if i == 0 then 0 else GradedLevels(steps)[i - 1] + ToNat(steps[i - 1].flow))
  {
    GradedIsRenested(steps);
    CutAtRoom(steps, i);
    ClampedFront(steps, i);
    ClampedFront(steps, i + 1);
    ClampedStep(steps[..i + 1]);
    assert steps[..i + 1][..i] == steps[..i];
  }

  lemma {:induction false} ClampedFront(steps: seq<Step>, i: nat)
    requires i <= |steps|
    ensures Clamped(steps)[..i] == Clamped(steps[..i])
  {
    if i == |steps| {
      assert steps[..i] == steps;
    } else {
      ClampedFront(steps[..|steps| - 1], i);
      ClampedStep(steps);
      assert steps[..|steps| - 1][..i] == steps[..i];
      assert Clamped(steps)[..i] == Clamped(steps)[..|steps| - 1][..i];
    }
  }

  lemma {:induction false} GradedIsHigher(steps: seq<Step>, i: nat)
    requires i < |steps|
    ensures GradedLevels(steps)[i] <= DrawnLevels(steps)[i]
  {
    LevelsStep(steps, i);
    if i > 0 {
      GradedIsHigher(steps, i - 1);
    }
  }

  /** A sub-flow above a step as it is drawn is above it as it is graded. */
  lemma SubFlowsStayAbove(steps: seq<Step>, k: nat, i: nat)
    requires k < |steps| && steps[k].flow && StandsAbove(DrawnLevels(steps), k, i)
    ensures StandsAbove(GradedLevels(steps), k, i)
  {
    ClampedIsStepwise(steps);
    ClampedIsStepwise(Renested(steps));
    AboveIsDeeperBetween(DrawnLevels(steps), k, i);
    AboveIsDeeperBetween(GradedLevels(steps), k, i);
    forall j | k < j <= i ensures GradedLevels(steps)[j] > GradedLevels(steps)[k] {
      UnderSubFlow(steps, k, i, j);
    }
  }

  lemma {:induction false} UnderSubFlow(steps: seq<Step>, k: nat, i: nat, j: nat)
    requires k < |steps| && steps[k].flow && DeeperBetween(DrawnLevels(steps), k, i) && k < j <= i
    ensures GradedLevels(steps)[j] > GradedLevels(steps)[k]
    decreases j
  {
    LevelsStep(steps, j);
    GradedIsHigher(steps, k);
    assert DrawnLevels(steps)[j] > DrawnLevels(steps)[k];
    if j > k + 1 {
      UnderSubFlow(steps, k, i, j - 1);
    }
  }

  // ----- the rule by levels ---------------------------------------------------------------------------

  ghost predicate UnderConditionalBy(steps: seq<Step>, levels: seq<nat>, i: nat) {
    exists k :: 0 <= k < i && k < |steps| && StandsAbove(levels, k, i) && IsConditional(steps[k])
  }

  ghost predicate EnforcedBy(steps: seq<Step>, levels: seq<nat>, i: nat)
    requires i < |steps|
  {
    IsFactor(steps[i]) && steps[i].requirement == "REQUIRED" && !UnderConditionalBy(steps, levels, i)
  }

  ghost predicate SomeEnforcedBy(steps: seq<Step>, levels: seq<nat>) {
    exists i :: 0 <= i < |steps| && EnforcedBy(steps, levels, i)
  }

  predicate SomeFactor(steps: seq<Step>) {
    exists i :: 0 <= i < |steps| && IsFactor(steps[i])
  }

  /** The rule on the tree the listing is drawn as. */
  function DrawnGrade(steps: seq<Step>): Grade {
    RuledGrade(Walk(TreeOf(steps), []))
  }

  /** What gradeBrowserFlow answers. */
  function CodeGrade(steps: seq<Step>): Grade {
    RuledGrade(Walk(TreeOf(Renested(steps)), []))
  }

  ghost predicate GradeIs(g: Grade, steps: seq<Step>, levels: seq<nat>) {
    (g == OK <==> SomeEnforcedBy(steps, levels)) && (g == Fail <==> !SomeEnforcedBy(steps, levels) && !SomeFactor(steps))
  }

  lemma DrawnByLevels(steps: seq<Step>)
    ensures GradeIs(DrawnGrade(steps), steps, DrawnLevels(steps))
  {
    var walk, levels := Walk(TreeOf(steps), []), DrawnLevels(steps);
    WalkLength(steps);
    forall i | 0 <= i < |steps|
      ensures walk[i].0 == steps[i] && (UnderConditional(walk[i].1) <==> UnderConditionalBy(steps, levels, i))
    {
      AboveByLevels(steps, i);
    }
    hide UnderConditional, UnderConditionalBy, Walk, TreeOf, IsFactor, Clamped;
    RuleByLevels(walk, steps, levels);
  }

  lemma CodeByLevels(steps: seq<Step>)
    ensures GradeIs(CodeGrade(steps), steps, GradedLevels(steps))
  {
    var out := Renested(steps);
    var walk, levels := Walk(TreeOf(out), []), GradedLevels(steps);
    WalkLength(out);
    forall i | 0 <= i < |steps|
      ensures walk[i].0 == steps[i].(level := walk[i].0.level)
      ensures UnderConditional(walk[i].1) <==> UnderConditionalBy(steps, levels, i)
    {
      AboveByLevels(out, i);
      SameConditionals(out, steps, levels, i);
    }
    hide UnderConditional, UnderConditionalBy, Walk, TreeOf, IsFactor, Clamped, Renested;
    RuleByLevels(walk, steps, levels);
  }

  lemma SameConditionals(out: seq<Step>, steps: seq<Step>, levels: seq<nat>, i: nat)
    requires |out| == |steps| && forall k | 0 <= k < |steps| :: out[k] == steps[k].(level := out[k].level)
    requires i < |steps|
    ensures UnderConditionalBy(out, levels, i) <==> UnderConditionalBy(steps, levels, i)
  {
    assert forall k | 0 <= k < |steps| :: IsConditional(out[k]) <==> IsConditional(steps[k]);
  }

  /** The rule does not look at a step's level. */
  lemma RuleByLevels(walk: seq<(Step, seq<Step>)>, steps: seq<Step>, levels: seq<nat>)
    requires |walk| == |steps|
    requires forall i | 0 <= i < |steps| :: walk[i].0 == steps[i].(level := walk[i].0.level)
    requires forall i | 0 <= i < |steps| :: UnderConditional(walk[i].1) <==> UnderConditionalBy(steps, levels, i)
    ensures GradeIs(RuledGrade(walk), steps, levels)
  {
    hide UnderConditional, UnderConditionalBy, IsFactor;
    forall i | 0 <= i < |steps|
      ensures IsFactor(walk[i].0) <==> IsFactor(steps[i])
      ensures IsEnforced(walk[i].0, walk[i].1) <==> EnforcedBy(steps, levels, i)
    {
      SameButLevel(steps[i], walk[i].0.level);
    }
    RuledByMatching(walk, steps, levels);
  }

  lemma SameButLevel(s: Step, level: nat)
    ensures IsFactor(s.(level := level)) <==> IsFactor(s)
    ensures IsConditional(s.(level := level)) <==> IsConditional(s)
  {
  }

  lemma RuledByMatching(walk: seq<(Step, seq<Step>)>, steps: seq<Step>, levels: seq<nat>)
    requires |walk| == |steps|
    requires forall i | 0 <= i < |steps| :: IsFactor(walk[i].0) <==> IsFactor(steps[i])
    requires forall i | 0 <= i < |steps| :: IsEnforced(walk[i].0, walk[i].1) <==> EnforcedBy(steps, levels, i)
    ensures GradeIs(RuledGrade(walk), steps, levels)
  {
    hide IsFactor, IsEnforced, EnforcedBy;
    if i :| 0 <= i < |walk| && IsEnforced(walk[i].0, walk[i].1) {
      assert EnforcedBy(steps, levels, i);
    }
    if i :| 0 <= i < |steps| && EnforcedBy(steps, levels, i) {
      assert IsEnforced(walk[i].0, walk[i].1);
    }
    if i :| 0 <= i < |walk| && IsFactor(walk[i].0) {
      assert IsFactor(steps[i]);
    }
    if i :| 0 <= i < |steps| && IsFactor(steps[i]) {
      assert IsFactor(walk[i].0);
    }
  }

  // ----- which way the grade errs -----------------------------------------------------------------------

  /** For every listing: OK is never answered unless the rule on the drawn tree is OK, and
      the two say together that no second factor is switched on. So where they differ, a
      second factor the drawn tree requires is called offered. */
  lemma NeverOverstates(steps: seq<Step>)
    ensures CodeGrade(steps) == OK ==> DrawnGrade(steps) == OK
    ensures CodeGrade(steps) == Fail <==> DrawnGrade(steps) == Fail
  {
    DrawnByLevels(steps);
    CodeByLevels(steps);
    forall i | 0 <= i < |steps| && EnforcedBy(steps, GradedLevels(steps), i)
      ensures EnforcedBy(steps, DrawnLevels(steps), i)
    {
      EnforcedAsDrawn(steps, i);
    }
    forall i | 0 <= i < |steps| && IsFactor(steps[i]) ensures SomeFactor(steps) {
    }
    EnforcedIsFactor(steps, DrawnLevels(steps));
    EnforcedIsFactor(steps, GradedLevels(steps));
  }

  lemma EnforcedIsFactor(steps: seq<Step>, levels: seq<nat>)
    ensures SomeEnforcedBy(steps, levels) ==> SomeFactor(steps)
  {
  }

  lemma EnforcedAsDrawn(steps: seq<Step>, i: nat)
    requires i < |steps| && EnforcedBy(steps, GradedLevels(steps), i)
    ensures EnforcedBy(steps, DrawnLevels(steps), i)
  {
    UnderAsGraded(steps, i);
  }

  lemma UnderAsGraded(steps: seq<Step>, i: nat)
    requires i < |steps|
    ensures UnderConditionalBy(steps, DrawnLevels(steps), i) ==> UnderConditionalBy(steps, GradedLevels(steps), i)
  {
    if k :| 0 <= k < i && k < |steps| && StandsAbove(DrawnLevels(steps), k, i) && IsConditional(steps[k]) {
      SubFlowsStayAbove(steps, k, i);
    }
  }

  // ----- exactly when the two agree -------------------------------------------------------------------------

  /** No sub-flow stands above a plain step as it is graded without standing above it as it
      is drawn. */
  predicate Agreeable(steps: seq<Step>) {
    forall k, i | 0 <= k < i < |steps| && steps[k].flow && !steps[i].flow
                && StandsAbove(GradedLevels(steps), k, i) :: StandsAbove(DrawnLevels(steps), k, i)
  }

  /** The same levels and sub-flows, whatever is required of whom. */
  predicate SameShape(a: seq<Step>, b: seq<Step>) {
    |a| == |b| && forall i | 0 <= i < |a| :: a[i].level == b[i].level && a[i].flow == b[i].flow
  }

  lemma {:induction false} ShapeDraws(a: seq<Step>, b: seq<Step>, i: nat)
    requires SameShape(a, b) && i < |a|
    ensures DrawnLevels(a)[i] == DrawnLevels(b)[i] && GradedLevels(a)[i] == GradedLevels(b)[i]
  {
    LevelsStep(a, i);
    LevelsStep(b, i);
    if i > 0 {
      ShapeDraws(a, b, i - 1);
    }
  }

  lemma ShapeGivesLevels(a: seq<Step>, b: seq<Step>)
    requires SameShape(a, b)
    ensures DrawnLevels(a) == DrawnLevels(b) && GradedLevels(a) == GradedLevels(b)
  {
    forall i | 0 <= i < |a| ensures DrawnLevels(a)[i] == DrawnLevels(b)[i] && GradedLevels(a)[i] == GradedLevels(b)[i] {
      ShapeDraws(a, b, i);
    }
  }

  lemma AgreeableAgrees(steps: seq<Step>)
    requires Agreeable(steps)
    ensures CodeGrade(steps) == DrawnGrade(steps)
  {
    DrawnByLevels(steps);
    CodeByLevels(steps);
    NeverOverstates(steps);
    forall i | 0 <= i < |steps| && EnforcedBy(steps, DrawnLevels(steps), i)
      ensures EnforcedBy(steps, GradedLevels(steps), i)
    {
      EnforcedAsGraded(steps, i);
    }
  }

  lemma EnforcedAsGraded(steps: seq<Step>, i: nat)
    requires Agreeable(steps) && i < |steps| && EnforcedBy(steps, DrawnLevels(steps), i)
    ensures EnforcedBy(steps, GradedLevels(steps), i)
  {
    UnderAsDrawn(steps, i);
  }

  lemma UnderAsDrawn(steps: seq<Step>, i: nat)
    requires Agreeable(steps) && i < |steps| && !steps[i].flow
    ensures UnderConditionalBy(steps, GradedLevels(steps), i) ==> UnderConditionalBy(steps, DrawnLevels(steps), i)
  {
    if k :| 0 <= k < i && k < |steps| && StandsAbove(GradedLevels(steps), k, i) && IsConditional(steps[k]) {
      assert StandsAbove(DrawnLevels(steps), k, i);
    }
  }

  /** The shape with sub-flow k alone CONDITIONAL and step i alone a second factor. */
  function Labelled(steps: seq<Step>, k: nat, i: nat): (out: seq<Step>)
    ensures SameShape(steps, out)
  {
    seq(|steps|, j requires 0 <= j < |steps| =>
      Step("", if j == i then "auth-otp-form" else "", if j == k then "CONDITIONAL" else "REQUIRED",
           steps[j].level, steps[j].flow))
  }

  lemma LabelledFactors(steps: seq<Step>, k: nat, i: nat)
    requires k < i < |steps| && steps[k].flow && !steps[i].flow
    ensures
      var out := Labelled(steps, k, i);
      && (forall j | 0 <= j < |steps| :: IsFactor(out[j]) <==> j == i)
      && (forall j | 0 <= j < |steps| :: IsConditional(out[j]) <==> j == k)
      && out[i].requirement == "REQUIRED"
  {
  }

  /** Then the drawn tree requires the second factor, and the grade says it is offered. */
  lemma LabelledDisagrees(steps: seq<Step>, k: nat, i: nat)
    requires k < i < |steps| && steps[k].flow && !steps[i].flow
    requires StandsAbove(GradedLevels(steps), k, i) && !StandsAbove(DrawnLevels(steps), k, i)
    ensures DrawnGrade(Labelled(steps, k, i)) == OK && CodeGrade(Labelled(steps, k, i)) == Warn
  {
    var out := Labelled(steps, k, i);
    LabelledFactors(steps, k, i);
    ShapeGivesLevels(steps, out);
    DrawnByLevels(out);
    CodeByLevels(out);
    hide IsFactor, IsConditional, StandsAbove, DrawnLevels, GradedLevels, DrawnGrade, CodeGrade, Labelled;
    OneFactor(out, DrawnLevels(out), k, i);
    OneFactor(out, GradedLevels(out), k, i);
  }

  /** The one second factor is enforced unless the one CONDITIONAL sub-flow stands above it. */
  lemma OneFactor(out: seq<Step>, levels: seq<nat>, k: nat, i: nat)
    requires k < i < |out| && out[i].requirement == "REQUIRED"
    requires forall j | 0 <= j < |out| :: IsFactor(out[j]) <==> j == i
    requires forall j | 0 <= j < |out| :: IsConditional(out[j]) <==> j == k
    ensures SomeEnforcedBy(out, levels) <==> !StandsAbove(levels, k, i)
    ensures SomeFactor(out)
  {
    hide IsFactor, IsConditional, StandsAbove;
    assert IsFactor(out[i]) && IsConditional(out[k]);
    assert UnderConditionalBy(out, levels, i) <==> StandsAbove(levels, k, i);
    assert EnforcedBy(out, levels, i) <==> !StandsAbove(levels, k, i);
  }

  /** The grade agrees with the rule on the drawn tree whatever is required of whom, exactly
      when no sub-flow stands above a plain step as graded without standing above it as
      drawn: a condition on levels and sub-flows alone. */
  lemma AgreeExactlyWhen(steps: seq<Step>)
    ensures (forall other | SameShape(steps, other) :: CodeGrade(other) == DrawnGrade(other)) <==> Agreeable(steps)
  {
    if Agreeable(steps) {
      forall other | SameShape(steps, other) ensures CodeGrade(other) == DrawnGrade(other) {
        ShapeGivesLevels(steps, other);
        assert Agreeable(other);
        AgreeableAgrees(other);
      }
    } else {
      var k, i :| 0 <= k < i < |steps| && steps[k].flow && !steps[i].flow
                && StandsAbove(GradedLevels(steps), k, i) && !StandsAbove(DrawnLevels(steps), k, i);
      LabelledDisagrees(steps, k, i);
      assert SameShape(steps, Labelled(steps, k, i));
    }
  }

  /** A listing that deepens only under sub-flows is one. */
  lemma NestedIsAgreeable(steps: seq<Step>)
    requires WellNested(steps)
    ensures Agreeable(steps)
  {
    RenestedExactlyWhen(steps);
  }
}
