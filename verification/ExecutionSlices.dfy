/** The nesting as the program does it: nodes are values in slices, the way down is a stack
    of pointers to them, and appending to a slice may move its nodes to another block of
    memory (plugins/keycloak/flow.go: executionTree). */
module ExecutionSlices {
  import opened Common
  import opened ExecutionTree

  /** A slice is a block and how much of it is in use; the block's length is its capacity. */
  datatype Slice = Nil | Slice(block: nat, len: nat)

  datatype Cell = Cell(step: Step, children: Slice)

  datatype Pointer = Pointer(block: nat, index: nat)

  type Memory = seq<seq<Cell>>

  function Len(s: Slice): nat {
    if s.Nil? then 0 else s.len
  }

  predicate InMemory(mem: Memory, s: Slice) {
    s.Slice? ==> s.block < |mem| && s.len <= |mem[s.block]|
  }

  function Content(mem: Memory, s: Slice): seq<Cell>
    requires InMemory(mem, s)
  {
    if s.Nil? then [] else mem[s.block][..s.len]
  }

  // ----- which tree a slice holds --------------------------------------------------------------

  /** The blocks that the nodes of a tree stand in. */
  ghost function Foot(mem: Memory, s: Slice, f: Forest): set<nat>
    decreases f, 1
  {
    if f.Empty? || s.Nil? then {} else {s.block} + FootBelow(mem, s.block, s.len, f)
  }

  ghost function FootBelow(mem: Memory, b: nat, len: nat, f: Forest): set<nat>
    decreases f, 0
  {
    match f
    case Empty => {}
    case Snoc(before, last, below) =>
      if b < |mem| && 0 < len <= |mem[b]|
      then Foot(mem, mem[b][len - 1].children, below) + FootBelow(mem, b, len - 1, before)
      else {}
  }

  /** The slice holds the tree, and no block holds two of its lists. */
  ghost predicate Holds(mem: Memory, s: Slice, f: Forest)
    decreases f, 1
  {
    if f.Empty? then s.Nil? else s.Slice? && HoldsList(mem, s.block, s.len, f)
  }

  ghost predicate HoldsList(mem: Memory, b: nat, len: nat, f: Forest)
    decreases f, 0
  {
    match f
    case Empty => len == 0
    case Snoc(before, last, below) =>
      && b < |mem| && 0 < len <= |mem[b]|
      && HoldsList(mem, b, len - 1, before)
      && mem[b][len - 1].step == last
      && Holds(mem, mem[b][len - 1].children, below)
      && b !in Foot(mem, mem[b][len - 1].children, below)
      && Foot(mem, mem[b][len - 1].children, below) !! FootBelow(mem, b, len - 1, before)
  }

  /** Pointers to the last node, the last below it, and so on down. */
  ghost function Pointers(mem: Memory, s: Slice, f: Forest): seq<Pointer>
    requires Holds(mem, s, f)
    decreases f
  {
    match f
    case Empty => []
    case Snoc(_, _, below) =>
      assert HoldsList(mem, s.block, s.len, f);
      [Pointer(s.block, s.len - 1)] + Pointers(mem, mem[s.block][s.len - 1].children, below)
  }

  // ----- what a change of memory leaves alone -----------------------------------------------------

  ghost predicate Agree(mem: Memory, now: Memory, blocks: set<nat>) {
    |mem| <= |now| && forall b | b in blocks :: b < |mem| && now[b] == mem[b]
  }

  lemma {:induction false} FootInMemory(mem: Memory, s: Slice, f: Forest)
    requires Holds(mem, s, f)
    ensures forall b | b in Foot(mem, s, f) :: b < |mem|
    ensures s.Slice? ==> FootBelow(mem, s.block, s.len, f) <= Foot(mem, s, f)
    decreases f, 1
  {
    if f.Snoc? {
      BelowInMemory(mem, s.block, s.len, f);
    }
  }

  lemma {:induction false} BelowInMemory(mem: Memory, b: nat, len: nat, f: Forest)
    requires HoldsList(mem, b, len, f)
    ensures forall x | x in FootBelow(mem, b, len, f) :: x < |mem| && x != b
    decreases f, 0
  {
    if f.Snoc? {
      BelowInMemory(mem, b, len - 1, f.before);
      FootInMemory(mem, mem[b][len - 1].children, f.below);
    }
  }

  /** A tree whose blocks are untouched is still there. */
  lemma {:induction false} Untouched(mem: Memory, now: Memory, s: Slice, f: Forest)
    requires Holds(mem, s, f) && Agree(mem, now, Foot(mem, s, f))
    ensures Holds(now, s, f) && Foot(now, s, f) == Foot(mem, s, f)
    ensures Pointers(now, s, f) == Pointers(mem, s, f)
    decreases f, 1
  {
    if f.Snoc? {
      BelowInMemory(mem, s.block, s.len, f);
      Moved(mem, now, s.block, s.block, s.len, f);
      Untouched(mem, now, mem[s.block][s.len - 1].children, f.below);
    }
  }

  /** So is a list whose own nodes were copied to the front of a block, or stayed there. */
  lemma {:induction false} Moved(mem: Memory, now: Memory, from: nat, to: nat, len: nat, f: Forest)
    requires HoldsList(mem, from, len, f) && Agree(mem, now, FootBelow(mem, from, len, f))
    requires f.Snoc? ==> from < |mem| && len <= |mem[from]|
    requires to < |now| && len <= |now[to]| && to !in FootBelow(mem, from, len, f)
    requires forall i | 0 <= i < len :: from < |mem| && i < |mem[from]| && now[to][i] == mem[from][i]
    ensures HoldsList(now, to, len, f) && FootBelow(now, to, len, f) == FootBelow(mem, from, len, f)
    decreases f, 0
  {
    if f.Snoc? {
      Moved(mem, now, from, to, len - 1, f.before);
      Untouched(mem, now, mem[from][len - 1].children, f.below);
    }
  }

  // ----- one append -----------------------------------------------------------------------------------

  /** `now` and `r` are what append may make of a slice and one more node: in place while
      the block has room, else copied to the front of a new block. */
  ghost predicate Appended(mem: Memory, s: Slice, c: Cell, now: Memory, r: Slice)
    requires InMemory(mem, s)
  {
    && r.Slice? && r.block < |now| && r.len == Len(s) + 1 <= |now[r.block]|
    && (forall i | 0 <= i < Len(s) :: now[r.block][i] == mem[s.block][i])
    && now[r.block][Len(s)] == c
    && |mem| <= |now|
    && (forall b | 0 <= b < |mem| :: |now[b]| == |mem[b]|)
    && (forall b | 0 <= b < |mem| && b != r.block :: now[b] == mem[b])
    && (if s.Slice? && s.len < |mem[s.block]| then r.block == s.block else r.block >= |mem|)
  }

  /** What a step may have changed: nothing outside the blocks of the tree it worked on. */
  ghost predicate Within(mem: Memory, now: Memory, before: set<nat>, after: set<nat>) {
    && |mem| <= |now|
    && (forall b | 0 <= b < |mem| && b !in before :: now[b] == mem[b])
    && (forall b | b in after :: b in before || b >= |mem|)
  }

  /** A node appended to the outermost list. */
  lemma AppendHere(mem: Memory, s: Slice, f: Forest, st: Step, now: Memory, r: Slice)
    requires Holds(mem, s, f) && InMemory(mem, s) && Appended(mem, s, Cell(st, Nil), now, r)
    ensures Holds(now, r, Grow(f, 0, st))
    ensures Pointers(now, r, Grow(f, 0, st)) == [Pointer(r.block, r.len - 1)]
    ensures Within(mem, now, Foot(mem, s, f), Foot(now, r, Grow(f, 0, st)))
  {
    FootInMemory(mem, s, f);
    if f.Snoc? {
      BelowInMemory(mem, s.block, s.len, f);
      Moved(mem, now, s.block, r.block, s.len, f);
    }
    var below := FootBelow(now, r.block, r.len - 1, f);
    assert HoldsList(now, r.block, r.len - 1, f) && below <= Foot(mem, s, f);
    assert Foot(now, r, Snoc(f, st, Empty)) == {r.block} + (Foot(now, Nil, Empty) + below);
  }

  /** A tree that is there, taken apart at its last node and put together again. */
  ghost predicate Parts(mem: Memory, s: Slice, before: Forest, last: Step, below: Forest) {
    && s.Slice? && s.block < |mem| && 0 < s.len <= |mem[s.block]|
    && HoldsList(mem, s.block, s.len - 1, before)
    && mem[s.block][s.len - 1].step == last
    && Holds(mem, mem[s.block][s.len - 1].children, below)
    && s.block !in Foot(mem, mem[s.block][s.len - 1].children, below)
    && Foot(mem, mem[s.block][s.len - 1].children, below) !! FootBelow(mem, s.block, s.len - 1, before)
  }

  lemma PartsOf(mem: Memory, s: Slice, before: Forest, last: Step, below: Forest)
    ensures Holds(mem, s, Snoc(before, last, below)) <==> Parts(mem, s, before, last, below)
    ensures
      var f := Snoc(before, last, below);
      Holds(mem, s, f) ==>
        var children := mem[s.block][s.len - 1].children;
        && Foot(mem, s, f) == {s.block} + Foot(mem, children, below) + FootBelow(mem, s.block, s.len - 1, before)
        && Pointers(mem, s, f) == [Pointer(s.block, s.len - 1)] + Pointers(mem, children, below)
  {
    var f := Snoc(before, last, below);
    if s.Slice? {
      assert HoldsList(mem, s.block, s.len, f) <==> Parts(mem, s, before, last, below);
    }
  }

  /** The children of the last node changed; the lists around them did not. */
  lemma AroundChildren(mem: Memory, s: Slice, before: Forest, last: Step, below: Forest,
                       grown: Forest, children: Slice, now: Memory)
    requires Parts(mem, s, before, last, below)
    requires Holds(now, children, grown)
    requires
      var cell := mem[s.block][s.len - 1];
      && Within(mem, now, Foot(mem, cell.children, below) + {s.block}, Foot(now, children, grown))
      && s.block !in Foot(now, children, grown)
      && now[s.block] == mem[s.block][s.len - 1 := cell.(children := children)]
    ensures Parts(now, s, before, last, grown)
    ensures FootBelow(now, s.block, s.len - 1, before) == FootBelow(mem, s.block, s.len - 1, before)
  {
    var cell := mem[s.block][s.len - 1];
    BelowInMemory(mem, s.block, s.len - 1, before);
    FootInMemory(mem, cell.children, below);
    Moved(mem, now, s.block, s.block, s.len - 1, before);
  }

  /** A node appended to the children of the last node, `depth` levels further down: the
      append may move those children, and the pointer above them is still good. */
  lemma {:induction false} AppendBelow(mem: Memory, s: Slice, f: Forest, depth: nat, st: Step, mid: Memory, r: Slice)
    requires Holds(mem, s, f) && depth < |Pointers(mem, s, f)|
    requires
      var p := Pointers(mem, s, f)[depth];
      && p.block < |mem| && p.index < |mem[p.block]|
      && InMemory(mem, mem[p.block][p.index].children)
      && Appended(mem, mem[p.block][p.index].children, Cell(st, Nil), mid, r)
      && p.block < |mid| && p.index < |mid[p.block]|
    ensures
      var p := Pointers(mem, s, f)[depth];
      var now := SetChildren(mid, p, r);
      var g := Grow(f, depth + 1, st);
      && Holds(now, s, g)
      && Pointers(now, s, g) == Pointers(mem, s, f)[..depth + 1] + [Pointer(r.block, r.len - 1)]
      && Within(mem, now, Foot(mem, s, f), Foot(now, s, g))
    decreases depth
  {
    PartsOf(mem, s, f.before, f.last, f.below);
    var cell := mem[s.block][s.len - 1];
    var p := Pointers(mem, s, f)[depth];
    var now := SetChildren(mid, p, r);
    var ends := [Pointer(r.block, r.len - 1)];
    if depth == 0 {
      AppendChild(mem, s, f, st, mid, r);
      Concluded(mem, s, f, Grow(f.below, 0, st), ends, now);
    } else {
      var lower := Pointers(mem, cell.children, f.below);
      AppendBelow(mem, cell.children, f.below, depth - 1, st, mid, r);
      AroundLower(mem, s, f, Grow(f.below, depth, st), lower[..depth] + ends, now);
      Concluded(mem, s, f, Grow(f.below, depth, st), lower[..depth] + ends, now);
      assert Pointers(mem, s, f)[..depth + 1] == [Pointer(s.block, s.len - 1)] + lower[..depth];
    }
  }

  /** The tree below the last node of `f` has become `grown`, and the rest has stayed. */
  ghost predicate Midway(mem: Memory, s: Slice, f: Forest, grown: Forest, lower: seq<Pointer>, now: Memory)
    requires f.Snoc?
  {
    && Parts(mem, s, f.before, f.last, f.below)
    && Parts(now, s, f.before, f.last, grown)
    && FootBelow(now, s.block, s.len - 1, f.before) == FootBelow(mem, s.block, s.len - 1, f.before)
    && var cell, children := mem[s.block][s.len - 1], now[s.block][s.len - 1].children;
    && Pointers(now, children, grown) == lower
    && Within(mem, now, Foot(mem, cell.children, f.below) + {s.block}, Foot(now, children, grown))
  }

  lemma Concluded(mem: Memory, s: Slice, f: Forest, grown: Forest, lower: seq<Pointer>, now: Memory)
    requires f.Snoc? && Midway(mem, s, f, grown, lower, now)
    ensures
      var g := Snoc(f.before, f.last, grown);
      && Holds(mem, s, f) && Holds(now, s, g)
      && Pointers(now, s, g) == [Pointer(s.block, s.len - 1)] + lower
      && Within(mem, now, Foot(mem, s, f), Foot(now, s, g))
  {
    PartsOf(mem, s, f.before, f.last, f.below);
    PartsOf(now, s, f.before, f.last, grown);
  }

  /** The change was further down. */
  lemma AroundLower(mem: Memory, s: Slice, f: Forest, grown: Forest, lower: seq<Pointer>, now: Memory)
    requires f.Snoc? && Parts(mem, s, f.before, f.last, f.below)
    requires
      var children := mem[s.block][s.len - 1].children;
      && Holds(now, children, grown) && Pointers(now, children, grown) == lower
      && Within(mem, now, Foot(mem, children, f.below), Foot(now, children, grown))
    ensures Midway(mem, s, f, grown, lower, now)
  {
    var cell := mem[s.block][s.len - 1];
    assert now[s.block] == mem[s.block];
    assert mem[s.block] == mem[s.block][s.len - 1 := cell.(children := cell.children)];
    AroundChildren(mem, s, f.before, f.last, f.below, grown, cell.children, now);
  }

  /** The pointer is to the last node itself. */
  lemma AppendChild(mem: Memory, s: Slice, f: Forest, st: Step, mid: Memory, r: Slice)
    requires f.Snoc? && Parts(mem, s, f.before, f.last, f.below)
    requires
      var cell := mem[s.block][s.len - 1];
      && InMemory(mem, cell.children)
      && Appended(mem, cell.children, Cell(st, Nil), mid, r)
      && s.block < |mid| && s.len <= |mid[s.block]|
    ensures
      var now := SetChildren(mid, Pointer(s.block, s.len - 1), r);
      Midway(mem, s, f, Grow(f.below, 0, st), [Pointer(r.block, r.len - 1)], now)
  {
    var cell := mem[s.block][s.len - 1];
    var grown := Grow(f.below, 0, st);
    var now := SetChildren(mid, Pointer(s.block, s.len - 1), r);
    AppendHere(mem, cell.children, f.below, st, mid, r);
    FootInMemory(mid, r, grown);
    FootInMemory(mem, cell.children, f.below);
    assert mid[s.block] == mem[s.block];
    Untouched(mid, now, r, grown);
    AroundChildren(mem, s, f.before, f.last, f.below, grown, r, now);
  }

  /** parent.Children = ... through the pointer to the parent. */
  function SetChildren(mem: Memory, p: Pointer, children: Slice): Memory
    requires p.block < |mem| && p.index < |mem[p.block]|
  {
    mem[p.block := mem[p.block][p.index := mem[p.block][p.index].(children := children)]]
  }

  /** Each pointer of the stack points at the node it stands for, where that node is now. */
  lemma {:induction false} PointersAreLive(mem: Memory, s: Slice, f: Forest)
    requires Holds(mem, s, f)
    ensures InMemory(mem, s)
    ensures |Pointers(mem, s, f)| == |Spine(f)|
    ensures forall d | 0 <= d < |Spine(f)| ::
              var p := Pointers(mem, s, f)[d];
              && p.block < |mem| && p.index < |mem[p.block]|
              && mem[p.block][p.index].step == Spine(f)[d]
              && InMemory(mem, mem[p.block][p.index].children)
    decreases f
  {
    if f.Snoc? {
      PartsOf(mem, s, f.before, f.last, f.below);
      PointersAreLive(mem, mem[s.block][s.len - 1].children, f.below);
    }
  }

  /** A slice holds one tree only. */
  lemma {:induction false} HoldsOneTree(mem: Memory, s: Slice, f: Forest, g: Forest)
    requires Holds(mem, s, f) && Holds(mem, s, g)
    ensures f == g
    decreases f, 1
  {
    if f.Snoc? {
      ListHoldsOne(mem, s.block, s.len, f, g);
    }
  }

  lemma {:induction false} ListHoldsOne(mem: Memory, b: nat, len: nat, f: Forest, g: Forest)
    requires HoldsList(mem, b, len, f) && HoldsList(mem, b, len, g)
    ensures f == g
    decreases f, 0
  {
    if f.Snoc? {
      ListHoldsOne(mem, b, len - 1, f.before, g.before);
      HoldsOneTree(mem, mem[b][len - 1].children, f.below, g.below);
    }
  }

  // ----- the program ---------------------------------------------------------------------------------

  class Heap {
    var blocks: Memory

    constructor ()
      ensures blocks == []
    {
      blocks := [];
    }

    method Append(s: Slice, c: Cell) returns (r: Slice)
      requires InMemory(blocks, s)
      modifies this
      ensures Appended(old(blocks), s, c, blocks, r)
    {
      if s.Slice? && s.len < |blocks[s.block]| {
        blocks := blocks[s.block := blocks[s.block][s.len := c]];
        return Slice(s.block, s.len + 1);
      }
      var spare: seq<Cell> :| true;
      blocks := blocks + [Content(blocks, s) + [c] + spare];
      return Slice(|blocks| - 1, Len(s) + 1);
    }

    method Link(p: Pointer, children: Slice)
      requires p.block < |blocks| && p.index < |blocks[p.block]|
      modifies this
      ensures blocks == SetChildren(old(blocks), p, children)
    {
      blocks := blocks[p.block := blocks[p.block][p.index := blocks[p.block][p.index].(children := children)]];
    }
  }

  method BuildTree(execs: seq<Step>) returns (mem: Memory, roots: Slice)
    ensures Holds(mem, roots, TreeOf(execs))
  {
    var heap := new Heap();
    roots := Nil;
    var path: seq<Pointer> := [];
    for i := 0 to |execs|
      invariant Holds(heap.blocks, roots, TreeOf(execs[..i]))
      invariant path == Pointers(heap.blocks, roots, TreeOf(execs[..i]))
    {
      var e := execs[i];
      ghost var t := TreeOf(execs[..i]);
      PointersAreLive(heap.blocks, roots, t);
      TreeStep(execs, i);
      hide Holds, Foot, Grow, TreeOf, Appended;
      var level := if e.level >= |path| then |path| else e.level;
      var node := Cell(e, Nil);
      if level == 0 {
        ghost var mem0, roots0 := heap.blocks, roots;
        roots := heap.Append(roots, node);
        AppendHere(mem0, roots0, t, e, heap.blocks, roots);
        path := [Pointer(roots.block, roots.len - 1)];
      } else {
        var parent := path[level - 1];
        ghost var mem0 := heap.blocks;
        var children := heap.Append(heap.blocks[parent.block][parent.index].children, node);
        AppendBelow(mem0, roots, t, level - 1, e, heap.blocks, children);
        heap.Link(parent, children);
        path := path[..level] + [Pointer(children.block, children.len - 1)];
      }
    }
    assert execs[..|execs|] == execs;
    mem := heap.blocks;
  }

  lemma TreeStep(execs: seq<Step>, i: nat)
    requires i < |execs|
    ensures
      var t := TreeOf(execs[..i]);
      TreeOf(execs[..i + 1]) == Grow(t, Least(execs[i].level, |Spine(t)|), execs[i])
  {
    assert execs[..i + 1][..i] == execs[..i];
    TreeSpine(execs[..i]);
  }
}
