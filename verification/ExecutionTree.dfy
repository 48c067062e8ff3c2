/** Nesting a flat listing of executions by their levels, through pointers into slices
    that may be reallocated under them (plugins/keycloak/flow.go: executionTree). */
module ExecutionTree {
  import opened Common

  datatype Step = Step(name: string, provider: string, requirement: string, level: nat, flow: bool)

  // ----- the tree as a value ----------------------------------------------------------------

  /** A list of nodes, the last one and what is below it apart from the ones before. */
  datatype Forest = Empty | Snoc(before: Forest, last: Step, below: Forest)

  /** The last node, the last node below it, and so on down. */
  function Spine(f: Forest): seq<Step> {
    match f
    case Empty => []
    case Snoc(_, last, below) => [last] + Spine(below)
  }

  /** One more node, `depth` levels down the spine. */
  function Grow(f: Forest, depth: nat, s: Step): Forest {
    match f
    case Empty => Snoc(Empty, s, Empty)
    case Snoc(before, last, below) =>
      if depth == 0 then Snoc(f, s, Empty) else Snoc(before, last, Grow(below, depth - 1, s))
  }

  /** The nodes in the order they are drawn, each with its depth. */
  function Flatten(f: Forest, depth: nat): seq<(Step, nat)> {
    match f
    case Empty => []
    case Snoc(before, last, below) => Flatten(before, depth) + [(last, depth)] + Flatten(below, depth + 1)
  }

  /** The nodes in the order they are drawn, each with the nodes above it, outermost first. */
  function Walk(f: Forest, above: seq<Step>): seq<(Step, seq<Step>)> {
    match f
    case Empty => []
    case Snoc(before, last, below) => Walk(before, above) + [(last, above)] + Walk(below, above + [last])
  }

  /** The level a step is given: no deeper than one below the step before it. */
  function Clamped(steps: seq<Step>): (levels: seq<nat>)
    ensures |levels| == |steps|
  {
    if steps == [] then []
    else
      var n := |steps| - 1;
      var sofar := Clamped(steps[..n]);
      sofar + [Least(steps[n].level, Room(sofar))]
  }

  function Room(levels: seq<nat>): nat {
    if levels == [] then 0 else levels[|levels| - 1] + 1
  }

  function Least(a: nat, b: nat): nat {
    if a < b then a else b
  }

  function TreeOf(steps: seq<Step>): Forest {
    if steps == [] then Empty
    else
      var n := |steps| - 1;
      Grow(TreeOf(steps[..n]), Clamped(steps)[n], steps[n])
  }

  lemma {:induction false} GrowSpine(f: Forest, depth: nat, s: Step)
    requires depth <= |Spine(f)|
    ensures Spine(Grow(f, depth, s)) == Spine(f)[..depth] + [s]
  {
    if f.Snoc? && depth > 0 {
      GrowSpine(f.below, depth - 1, s);
      assert Spine(f)[..depth] == [f.last] + Spine(f.below)[..depth - 1];
    }
  }

  lemma {:induction false} GrowFlatten(f: Forest, depth: nat, s: Step, base: nat)
    requires depth <= |Spine(f)|
    ensures Flatten(Grow(f, depth, s), base) == Flatten(f, base) + [(s, base + depth)]
  {
    if f.Snoc? && depth > 0 {
      GrowFlatten(f.below, depth - 1, s, base + 1);
      Associative(Flatten(f.before, base) + [(f.last, base)], Flatten(f.below, base + 1), [(s, base + depth)]);
    }
  }

  lemma {:induction false} GrowWalk(f: Forest, depth: nat, s: Step, above: seq<Step>)
    requires depth <= |Spine(f)|
    ensures Walk(Grow(f, depth, s), above) == Walk(f, above) + [(s, above + Spine(f)[..depth])]
  {
    if f.Snoc? && depth > 0 {
      GrowWalk(f.below, depth - 1, s, above + [f.last]);
      assert above + [f.last] + Spine(f.below)[..depth - 1] == above + Spine(f)[..depth];
      Associative(Walk(f.before, above) + [(f.last, above)], Walk(f.below, above + [f.last]), [(s, above + Spine(f)[..depth])]);
    } else {
      assert above + Spine(f)[..depth] == above;
    }
  }

  lemma {:induction false} TreeSpine(steps: seq<Step>)
    ensures |Spine(TreeOf(steps))| == Room(Clamped(steps))
  {
    if steps != [] {
      var n := |steps| - 1;
      TreeSpine(steps[..n]);
      GrowSpine(TreeOf(steps[..n]), Clamped(steps)[n], steps[n]);
    }
  }

  /** Drawing the tree gives the listing back, in order, each step at its clamped level. */
  lemma {:induction false} TreeFlattens(steps: seq<Step>)
    ensures Flatten(TreeOf(steps), 0) == seq(|steps|, i requires 0 <= i < |steps| => (steps[i], Clamped(steps)[i]))
  {
    if steps != [] {
      var n := |steps| - 1;
      TreeFlattens(steps[..n]);
      TreeSpine(steps[..n]);
      GrowFlatten(TreeOf(steps[..n]), Clamped(steps)[n], steps[n], 0);
    }
  }

  /** A listing that never jumps down more than one level keeps the levels it came with. */
  lemma {:induction false} NestedKeepsLevels(steps: seq<Step>)
    requires OneLevelAtATime(steps)
    ensures forall i | 0 <= i < |steps| :: Clamped(steps)[i] == steps[i].level
  {
    if steps != [] {
      var n := |steps| - 1;
      FrontIsNested(steps);
      NestedKeepsLevels(steps[..n]);
      ClampedStep(steps);
      assert steps[n].level <= RoomAt(steps, n);
      hide Clamped, OneLevelAtATime;
      KeptOneMore(steps, Clamped(steps[..n]), Clamped(steps));
    }
  }

  lemma KeptOneMore(steps: seq<Step>, sofar: seq<nat>, levels: seq<nat>)
    requires |levels| == |steps| == |sofar| + 1
    requires forall i | 0 <= i < |sofar| :: sofar[i] == steps[..|sofar|][i].level
    requires levels[..|sofar|] == sofar && levels[|sofar|] == Least(steps[|sofar|].level, Room(sofar))
    requires steps[|sofar|].level <= RoomAt(steps, |sofar|)
    ensures forall i | 0 <= i < |steps| :: levels[i] == steps[i].level
  {
    forall i | 0 <= i < |sofar| ensures levels[i] == steps[i].level {
      assert levels[..|sofar|][i] == levels[i] && steps[..|sofar|][i] == steps[i];
    }
  }

  lemma ClampedStep(steps: seq<Step>)
    requires steps != []
    ensures Clamped(steps)[..|steps| - 1] == Clamped(steps[..|steps| - 1])
    ensures Clamped(steps)[|steps| - 1] == Least(steps[|steps| - 1].level, Room(Clamped(steps[..|steps| - 1])))
  {
    ClampedUnfolds(steps);
  }

  lemma ClampedUnfolds(steps: seq<Step>)
    requires steps != []
    ensures
      var sofar := Clamped(steps[..|steps| - 1]);
      Clamped(steps) == sofar + [Least(steps[|steps| - 1].level, Room(sofar))]
  {
  }

  lemma FrontIsNested(steps: seq<Step>)
    requires OneLevelAtATime(steps) && steps != []
    ensures OneLevelAtATime(steps[..|steps| - 1])
  {
    var front := steps[..|steps| - 1];
    forall i | 0 <= i < |front| ensures front[i].level <= RoomAt(front, i) {
      assert steps[i].level <= RoomAt(steps, i);
    }
  }

  predicate OneLevelAtATime(steps: seq<Step>) {
    forall i | 0 <= i < |steps| :: steps[i].level <= RoomAt(steps, i)
  }

  function RoomAt(steps: seq<Step>, i: nat): nat
    requires i < |steps|
  {
    if i == 0 then 0 else steps[i - 1].level + 1
  }

  // ----- the flat drawing determines the tree -------------------------------------------------

  lemma {:induction false} FlattenDepths(f: Forest, depth: nat)
    ensures forall i | 0 <= i < |Flatten(f, depth)| :: Flatten(f, depth)[i].1 >= depth
    ensures f.Snoc? ==> Flatten(f, depth) != []
  {
    if f.Snoc? {
      FlattenDepths(f.before, depth);
      FlattenDepths(f.below, depth + 1);
    }
  }

  /** No other tree is drawn the same. */
  lemma {:induction false} FlattenIsInjective(f: Forest, g: Forest, depth: nat)
    requires Flatten(f, depth) == Flatten(g, depth)
    ensures f == g
  {
    FlattenDepths(f, depth);
    FlattenDepths(g, depth);
    if f.Snoc? && g.Snoc? {
      FlattenDepths(f.below, depth + 1);
      FlattenDepths(g.below, depth + 1);
      var a, b := Flatten(f.before, depth), Flatten(f.below, depth + 1);
      var c, d := Flatten(g.before, depth), Flatten(g.below, depth + 1);
      LastOfDepth(a, f.last, b, c, g.last, d, depth);
      FlattenIsInjective(f.before, g.before, depth);
      FlattenIsInjective(f.below, g.below, depth + 1);
    }
  }

  lemma LastOfDepth(a: seq<(Step, nat)>, x: Step, b: seq<(Step, nat)>, c: seq<(Step, nat)>, y: Step, d: seq<(Step, nat)>,
                    depth: nat)
    requires a + [(x, depth)] + b == c + [(y, depth)] + d
    requires forall i | 0 <= i < |b| :: b[i].1 > depth
    requires forall i | 0 <= i < |d| :: d[i].1 > depth
    ensures a == c && x == y && b == d
  {
    var whole := a + [(x, depth)] + b;
    DeepAfter(a, x, b, depth);
    DeepAfter(c, y, d, depth);
    assert |a| == |c|;
    assert a == whole[..|a|] && b == whole[|a| + 1..];
    assert c == whole[..|c|] && d == whole[|c| + 1..];
  }

  lemma DeepAfter(a: seq<(Step, nat)>, x: Step, b: seq<(Step, nat)>, depth: nat)
    requires forall i | 0 <= i < |b| :: b[i].1 > depth
    ensures
      var whole := a + [(x, depth)] + b;
      && whole[|a|] == (x, depth)
      && forall i | |a| < i < |whole| :: whole[i].1 > depth
  {
    var whole := a + [(x, depth)] + b;
    assert forall i | |a| < i < |whole| :: whole[i] == b[i - |a| - 1];
  }

  // ----- whose child a step is ------------------------------------------------------------------

  /** The last index at a level, if there is one. */
  function LastAt(levels: seq<nat>, level: nat): Option<nat> {
    if levels == [] then None
    else if levels[|levels| - 1] == level then Some(|levels| - 1)
    else LastAt(levels[..|levels| - 1], level)
  }

  lemma {:induction false} LastAtIsLast(levels: seq<nat>, level: nat)
    ensures
      match LastAt(levels, level)
      case None => level !in levels
      case Some(k) => k < |levels| && levels[k] == level && level !in levels[k + 1..]
  {
    if levels != [] {
      var n := |levels| - 1;
      LastAtIsLast(levels[..n], level);
      assert levels == levels[..n] + [levels[n]];
      match LastAt(levels[..n], level)
      case None =>
      case Some(k) => assert levels[k + 1..] == levels[..n][k + 1..] + [levels[n]];
    }
  }

  lemma {:induction false} SpineIsNearest(steps: seq<Step>, j: nat)
    requires j < |Spine(TreeOf(steps))|
    ensures LastAt(Clamped(steps), j).Some?
    ensures LastAt(Clamped(steps), j).value < |steps|
    ensures Spine(TreeOf(steps))[j] == steps[LastAt(Clamped(steps), j).value]
  {
    if steps != [] {
      var n := |steps| - 1;
      var depth := Clamped(steps)[n];
      TreeSpine(steps[..n]);
      GrowSpine(TreeOf(steps[..n]), depth, steps[n]);
      assert Clamped(steps)[..n] == Clamped(steps[..n]);
      if j < depth {
        SpineIsNearest(steps[..n], j);
      }
    }
  }

  /** What stands above a step in the tree: for each level above its own, the nearest
      step before it at that level. */
  lemma {:induction false} AboveIsNearest(steps: seq<Step>, i: nat)
    requires i < |steps|
    ensures |Walk(TreeOf(steps), [])| == |steps|
    ensures
      var (s, above) := Walk(TreeOf(steps), [])[i];
      && s == steps[i] && |above| == Clamped(steps)[i]
      && forall j | 0 <= j < |above| ::
           var k := LastAt(Clamped(steps)[..i], j);
           k.Some? && k.value < i && above[j] == steps[k.value]
  {
    var n := |steps| - 1;
    var t := TreeOf(steps[..n]);
    var depth := Clamped(steps)[n];
    TreeSpine(steps[..n]);
    GrowWalk(t, depth, steps[n], []);
    WalkLength(steps[..n]);
    assert [] + Spine(t)[..depth] == Spine(t)[..depth];
    if i < n {
      AboveIsNearest(steps[..n], i);
      assert Clamped(steps)[..i] == Clamped(steps[..n])[..i];
    } else {
      assert Clamped(steps)[..n] == Clamped(steps[..n]);
      forall j | 0 <= j < depth
        ensures
          var k := LastAt(Clamped(steps[..n]), j);
          k.Some? && k.value < n && Spine(t)[j] == steps[k.value]
      {
        SpineIsNearest(steps[..n], j);
      }
    }
  }

  lemma {:induction false} WalkLength(steps: seq<Step>)
    ensures |Walk(TreeOf(steps), [])| == |steps|
  {
    if steps != [] {
      var n := |steps| - 1;
      WalkLength(steps[..n]);
      TreeSpine(steps[..n]);
      GrowWalk(TreeOf(steps[..n]), Clamped(steps)[n], steps[n], []);
    }
  }
}
