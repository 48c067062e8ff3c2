/** The counted tree as linked nodes updated in place, and its drawing
    (plugins/etcd/kv.go: treeNode, treeRender, keyTree). */
module KeyTreeNodes {
  import opened Common
  import opened KeyPaging
  import opened KeyTree
  import opened KeyTreeRender
  import opened KeyTreeKeys

  lemma InsertStep(t: Trie, parts: seq<Key>)
    ensures
      var counted := t.(keys := t.keys + 1);
      KeyTree.Insert(t, parts) ==
      if parts == [] then counted
      else
        var c := Child(t, parts[0]);
        counted.(children :=
          t.children[parts[0] := KeyTree.Insert(if |parts| == 1 then c.(leaf := true) else c, parts[1..])])
  {
  }

  class TreeNode {
    var children: map<Key, TreeNode>
    var keys: nat
    var leaf: bool
    ghost var Repr: set<TreeNode>
    ghost var model: Trie

    /** The nodes below each child are its own. */
    ghost predicate Linked()
      reads this, Repr
      decreases Repr, 0
    {
      && this in Repr
      && (forall k | k in children ::
            && children[k] in Repr && children[k] in children[k].Repr
            && children[k].Repr <= Repr && this !in children[k].Repr
            && children[k].Valid())
      && (forall j, k | j in children && k in children && j != k :: children[j].Repr !! children[k].Repr)
    }

    ghost predicate Valid()
      reads this, Repr
      decreases Repr, 1
    {
      && Linked()
      && model == Trie(keys, leaf, map k | k in children :: children[k].model)
    }

    lemma Shape()
      requires Valid()
      ensures model.keys == keys && model.leaf == leaf && model.children.Keys == children.Keys
      ensures forall k | k in children :: children[k].Valid() && children[k].model == model.children[k]
      ensures forall k | k in children :: children[k].Repr < Repr
    {
    }

    lemma ShapeOf(name: Key)
      requires Valid() && name in children
      ensures
        var c := children[name];
        && c.Valid() && c.Repr < Repr && name in model.children && c.model == model.children[name]
        && c.model.keys == c.keys && (IsLeafLine(c.model) <==> c.leaf && c.children == map[])
    {
      Shape();
      var c := children[name];
      c.Shape();
      assert c.children == map[] <==> c.children.Keys == {};
      assert c.model.children == map[] <==> c.model.children.Keys == {};
    }

    constructor ()
      ensures Valid() && fresh(Repr) && model == EMPTY && Repr == {this}
    {
      children, keys, leaf := map[], 0, false;
      Repr, model := {this}, EMPTY;
    }

    method ChildFor(name: Key) returns (c: TreeNode)
      requires Valid()
      modifies this
      ensures Linked() && this in Repr && fresh(Repr - old(Repr))
      ensures keys == old(keys) && leaf == old(leaf) && model == old(model)
      ensures model.keys == keys && model.leaf == leaf
      ensures children == old(children)[name := c]
      ensures c.model == Child(model, name)
      ensures forall k | k in children && k != name :: k in model.children && children[k].model == model.children[k]
      ensures forall k | k in model.children :: k in children
    {
      if name in children {
        c := children[name];
      } else {
        c := new TreeNode();
        children := children[name := c];
        Repr := Repr + c.Repr;
      }
    }

    /** One key passes through this node and every node on its way. */
    method Insert(parts: seq<Key>)
      requires Valid()
      modifies Repr
      ensures Valid() && fresh(Repr - old(Repr))
      ensures model == KeyTree.Insert(old(model), parts)
      decreases |parts|, 0
    {
      assert this in Repr;
      InsertStep(model, parts);
      hide Linked, Valid, KeyTree.Insert;
      Count();
      if parts != [] {
        Pass(parts[0], parts[1..], |parts| == 1);
      }
    }

    method Pass(name: Key, rest: seq<Key>, last: bool)
      requires Valid()
      modifies Repr
      ensures Valid() && fresh(Repr - old(Repr))
      ensures
        var c := Child(old(model), name);
        var below := KeyTree.Insert(if last then c.(leaf := true) else c, rest);
        model == old(model).(children := old(model).children[name := below])
      decreases |rest|, 3
    {
      assert this in Repr;
      hide Linked, Valid, KeyTree.Insert, Child;
      var c := ChildFor(name);
      ghost var below := KeyTree.Insert(if last then c.model.(leaf := true) else c.model, rest);
      InsertBelow(c, name, rest, last);
      Remember(model.(children := model.children[name := below]));
    }

    method Count()
      requires Valid()
      modifies this`keys, this`model
      ensures Valid() && keys == old(keys) + 1
      ensures model == old(model).(keys := keys)
    {
      keys := keys + 1;
      model := model.(keys := keys);
      assert forall k | k in children :: children[k].Valid();
    }

    method Mark()
      requires Valid()
      modifies this`leaf, this`model
      ensures Valid() && leaf && model == old(model).(leaf := true)
    {
      leaf := true;
      model := model.(leaf := true);
      assert forall k | k in children :: children[k].Valid();
    }

    /** The rest of a key, which ends here or goes on. */
    method Receive(rest: seq<Key>, last: bool)
      requires Valid()
      modifies Repr
      ensures Valid() && fresh(Repr - old(Repr))
      ensures model == KeyTree.Insert(if last then old(model).(leaf := true) else old(model), rest)
      decreases |rest|, 1
    {
      assert this in Repr;
      hide Linked, Valid, KeyTree.Insert;
      if last {
        Mark();
      }
      Insert(rest);
    }

    method InsertBelow(c: TreeNode, name: Key, rest: seq<Key>, last: bool)
      requires Linked() && name in children && children[name] == c
      modifies Repr
      ensures Linked() && this in Repr && fresh(Repr - old(Repr))
      ensures keys == old(keys) && leaf == old(leaf) && model == old(model) && children == old(children)
      ensures c.model == KeyTree.Insert(if last then old(c.model).(leaf := true) else old(c.model), rest)
      ensures forall k | k in children && k != name :: children[k].model == old(children[k].model)
      decreases |rest|, 2
    {
      hide KeyTree.Insert;
      c.Receive(rest, last);
      assert forall k | k in children && k != name :: children[k].Valid();
      Repr := Repr + c.Repr;
    }

    ghost method Remember(m: Trie)
      requires Linked() && m.keys == keys && m.leaf == leaf
      requires forall k :: k in m.children <==> k in children
      requires forall k | k in children :: m.children[k] == children[k].model
      modifies this`model
      ensures Valid() && model == m
    {
      model := m;
      assert forall k | k in children :: children[k].Valid();
    }
  }

  // ----- drawing ---------------------------------------------------------------------------

  /** Sorting the names of a node's children, levels before leaves. */
  method SortNames(leaves: map<Key, bool>, ghost t: Trie) returns (names: seq<Key>)
    requires forall k :: k in leaves <==> k in t.children
    requires forall k | k in leaves :: leaves[k] == t.children[k].leaf
    ensures names == Names(t)
  {
    var left := leaves.Keys;
    names := [];
    while left != {}
      invariant left <= leaves.Keys
      invariant InOrder(t, names)
      invariant forall s :: s in leaves <==> s in names || s in left
      invariant forall a, b | a in names && b in left :: Before(t, a, b)
      decreases |left|
    {
      var s := Least(leaves, left, t);
      InOrderAppend(t, names, s);
      names := names + [s];
      left := left - {s};
    }
    OneOrder(t, names, Names(t));
  }

  method Least(leaves: map<Key, bool>, left: set<Key>, ghost t: Trie) returns (s: Key)
    requires left <= leaves.Keys && left != {}
    requires forall k | k in leaves :: k in t.children && leaves[k] == t.children[k].leaf
    ensures s in left && forall x | x in left && x != s :: Before(t, s, x)
  {
    FirstExists(t, left);
    ghost var m :| m in left && forall x | x in left && x != m :: Before(t, m, x);
    assert forall x | x in left && x != m :: NodeBefore(leaves[m], m, leaves[x], x);
    s :| s in left && forall x | x in left && x != s :: NodeBefore(leaves[s], s, leaves[x], x);
    forall x | x in left && x != s ensures Before(t, s, x) {
      assert NodeBefore(leaves[s], s, leaves[x], x);
    }
  }

  lemma InOrderAppend(t: Trie, names: seq<Key>, s: Key)
    requires InOrder(t, names) && forall a | a in names :: Before(t, a, s)
    ensures InOrder(t, names + [s])
  {
  }

  predicate NodeBefore(leafA: bool, a: Key, leafB: bool, b: Key) {
    if leafA != leafB then leafB else Less(a, b)
  }

  function Then(views: seq<View>, d: Drawn): Drawn {
    d.(views := views + d.views)
  }

  lemma NextName(t: Trie, names: seq<Key>, i: nat, depth: nat, maxDepth: nat, nodes: nat, stopped: bool)
    requires i < |names| && forall s | s in names :: s in t.children
    ensures
      var d := ExpandNames(t, names[i..], depth, maxDepth, nodes, stopped);
      if nodes >= MAX_TREE_NODES then d == Drawn([More], nodes, true)
      else
        var first := Line(names[i], t.children[names[i]], depth, maxDepth, nodes, stopped);
        |first.views| == 1 && d == Then(first.views, ExpandNames(t, names[i + 1..], depth, maxDepth, first.nodes, first.stopped))
  {
    assert names[i..][0] == names[i] && names[i..][1..] == names[i + 1..];
  }

  lemma NoNames(t: Trie, names: seq<Key>, depth: nat, maxDepth: nat, nodes: nat, stopped: bool)
    requires names == []
    ensures ExpandNames(t, names, depth, maxDepth, nodes, stopped) == Drawn([], nodes, stopped)
  {
  }

  lemma ThenThen(a: seq<View>, b: seq<View>, d: Drawn)
    ensures Then(a, Then(b, d)) == Then(a + b, d)
  {
    Associative(a, b, d.views);
  }

  class TreeRender {
    const maxDepth: nat
    var nodes: nat
    var stopped: bool

    constructor (maxDepth: nat)
      ensures this.maxDepth == maxDepth && nodes == 0 && !stopped
    {
      this.maxDepth := maxDepth;
      nodes, stopped := 0, false;
    }

    method Expand(n: TreeNode, depth: nat) returns (out: seq<View>)
      requires n.Valid()
      modifies this
      ensures Drawn(out, nodes, stopped) == KeyTreeRender.Expand(n.model, depth, maxDepth, old(nodes), old(stopped))
      decreases n.Repr, 2
    {
      n.Shape();
      forall k | k in n.children ensures n.children[k].leaf == n.model.children[k].leaf {
        n.children[k].Shape();
      }
      var names := SortNames(map k | k in n.children :: n.children[k].leaf, n.model);
      out := ExpandSorted(n, names, depth);
    }

    method ExpandSorted(n: TreeNode, names: seq<Key>, depth: nat) returns (out: seq<View>)
      requires n.Valid() && forall s | s in names :: s in n.children && s in n.model.children
      modifies this
      ensures Drawn(out, nodes, stopped)
           == ExpandNames(n.model, names, depth, maxDepth, old(nodes), old(stopped))
      decreases n.Repr, 1
    {
      hide TreeNode.Linked, TreeNode.Valid, ExpandNames, Line;
      ghost var t := n.model;
      ghost var whole := ExpandNames(t, names, depth, maxDepth, nodes, stopped);
      out := [];
      assert names[0..] == names;
      for i := 0 to |names|
        invariant n.Valid() && n.model == t
        invariant whole == Then(out, ExpandNames(t, names[i..], depth, maxDepth, nodes, stopped))
      {
        var name := names[i];
        NextName(t, names, i, depth, maxDepth, nodes, stopped);
        if nodes >= MAX_TREE_NODES {
          stopped := true;
          out := out + [More];
          return;
        }
        var line := ExpandLine(n, name, depth);
        ThenThen(out, [line], ExpandNames(t, names[i + 1..], depth, maxDepth, nodes, stopped));
        out := out + [line];
      }
      NoNames(t, names[|names|..], depth, maxDepth, nodes, stopped);
    }

    method ExpandLine(n: TreeNode, name: Key, depth: nat) returns (line: View)
      requires n.Valid() && name in n.children
      modifies this
      ensures Drawn([line], nodes, stopped)
           == Line(name, n.model.children[name], depth, maxDepth, old(nodes), old(stopped))
      decreases n.Repr, 0
    {
      var c := n.children[name];
      n.ShapeOf(name);
      hide TreeNode.Linked, TreeNode.Valid;
      nodes := nodes + 1;
      if c.leaf && c.children == map[] {
        return Leaf(name);
      }
      if depth >= maxDepth {
        return Level(name, c.keys, true, []);
      }
      var below := Expand(c, depth + 1);
      return Level(name, c.keys, false, below);
    }
  }

  // ----- the view ------------------------------------------------------------------------------

  datatype Ending = Whole | StoppedAtKeys(limit: nat) | StoppedAtNodes

  /** The loop over the keys. */
  method TreeOfKeys(kvs: seq<Key>, prefix: Key, limit: nat) returns (root: TreeNode, truncated: bool)
    ensures root.Valid() && fresh(root.Repr)
    ensures root.model == Build(PathsOf(kvs, prefix, limit)) && root.keys == if |kvs| <= limit then |kvs| else limit
    ensures truncated <==> |kvs| > limit
  {
    hide Segments, TrimPrefix;
    root := new TreeNode();
    truncated := false;
    ghost var paths := PathsOf(kvs, prefix, limit);
    for i := 0 to |kvs|
      invariant i <= limit && !truncated
      invariant root.Valid() && fresh(root.Repr)
      invariant root.model == Build(paths[..i]) && root.keys == i
    {
      if i == limit {
        truncated := true;
        break;
      }
      var parts, n := SplitKey(TrimPrefix(kvs[i], prefix));
      assert paths[..i + 1][..i] == paths[..i];
      root.Insert(parts[..n]);
      assert root.model.keys == root.keys;
    }
    assert paths[..|paths|] == paths;
  }

  /** The whole view: of the keys that were read, each line tells what it must, and what
      is not cut short leaves out no front of a key's segments down to the depth. */
  method KeyTreeView(kvs: seq<Key>, prefix: Key, limit: nat, depth: nat)
    returns (keys: nat, ending: Ending, children: seq<View>)
    ensures keys == if |kvs| <= limit then |kvs| else limit
    ensures ending == StoppedAtKeys(limit) <==> |kvs| > limit
    ensures
      var d := KeyTreeRender.Expand(Build(PathsOf(kvs, prefix, limit)), 1, depth, 0, false);
      children == d.views && (ending.Whole? <==> |kvs| <= limit && !d.stopped)
    ensures keys <= |kvs| && forall item | item in Shown(children) :: Tells(kvs[..keys], prefix, LevelsLeft(1, depth), item)
    ensures
      var shown := Shown(children);
      && |shown| <= MAX_TREE_NODES
      && (forall i, j | 0 <= i < j < |shown| :: shown[i].path != shown[j].path)
      && SiblingsInOrder(kvs[..keys], prefix, shown)
      && (ending.Whole? || |shown| < MAX_TREE_NODES ==>
            && Ellipses(children) == 0
            && forall q | 1 <= |q| <= LevelsLeft(1, depth) && CountIf(kvs[..keys], Through(prefix, q)) > 0 ::
                 exists i :: 0 <= i < |shown| && shown[i].path == q)
      && (ending.StoppedAtNodes? ==> |shown| == MAX_TREE_NODES && Ellipses(children) > 0)
  {
    var root, truncated := TreeOfKeys(kvs, prefix, limit);
    hide Tells, SiblingsInOrder, CountIf, Shown, Ellipses, KeyTreeRender.Expand, Build, Segments, TrimPrefix;
    var w := new TreeRender(depth);
    children := w.Expand(root, 1);
    keys := root.keys;
    assert PathsOf(kvs[..keys], prefix, |kvs[..keys]|) == PathsOf(kvs, prefix, limit);
    DrawingTellsOfKeys(kvs[..keys], prefix, depth);
    ending := if truncated then StoppedAtKeys(limit) else if w.stopped then StoppedAtNodes else Whole;
  }
}
