/** Drawing the counted tree under one node budget and a depth limit
    (plugins/etcd/kv.go: treeRender.expand), as a function, and what the drawing shows. */
module KeyTreeRender {
  import opened Common
  import opened KeyPaging
  import opened KeyTree

  const MAX_TREE_NODES := 500

  /** A line of the drawing: a key without further levels, a level with its count, or the
      ellipsis that says the drawing stopped. */
  datatype View =
    | Leaf(name: Key)
    | Level(name: Key, keys: nat, collapsed: bool, children: seq<View>)
    | More

  // ----- the order of one level -----------------------------------------------------------

  /** Levels before leaves, each in byte order. */
  predicate Before(t: Trie, a: Key, b: Key) {
    var x, y := Child(t, a).leaf, Child(t, b).leaf;
    if x != y then y else Less(a, b)
  }

  lemma BeforeIsTotalOrder(t: Trie, a: Key, b: Key, c: Key)
    ensures !Before(t, a, a)
    ensures Before(t, a, b) && Before(t, b, c) ==> Before(t, a, c)
    ensures Before(t, a, b) || a == b || Before(t, b, a)
  {
    LessIrreflexive(a);
    LessTotal(a, b);
    if Less(a, b) && Less(b, c) {
      LessTransitive(a, b, c);
    }
  }

  ghost predicate InOrder(t: Trie, names: seq<Key>) {
    forall i, j | 0 <= i < j < |names| :: Before(t, names[i], names[j])
  }

  /** `names` is the children of `t`, in the order they are drawn. */
  ghost predicate Lists(names: seq<Key>, t: Trie) {
    InOrder(t, names) && forall s :: s in names <==> s in t.children
  }

  ghost function Sorted(t: Trie, left: set<Key>): (names: seq<Key>)
    ensures InOrder(t, names)
    ensures forall s :: s in names <==> s in left
  {
    if left == {} then []
    else
      FirstExists(t, left);
      var s :| s in left && forall x | x in left && x != s :: Before(t, s, x);
      [s] + Sorted(t, left - {s})
  }

  lemma {:induction false} FirstExists(t: Trie, left: set<Key>)
    requires left != {}
    ensures exists s :: s in left && forall x | x in left && x != s :: Before(t, s, x)
  {
    var s :| s in left;
    if left == {s} {
    } else {
      FirstExists(t, left - {s});
      var m :| m in left - {s} && forall x | x in left - {s} && x != m :: Before(t, m, x);
      BeforeIsTotalOrder(t, m, s, m);
      if Before(t, s, m) {
        forall x | x in left && x != s ensures Before(t, s, x) {
          BeforeIsTotalOrder(t, s, m, x);
        }
        assert s in left && forall x | x in left && x != s :: Before(t, s, x);
      } else {
        assert m in left && forall x | x in left && x != m :: Before(t, m, x);
      }
    }
  }

  ghost function Names(t: Trie): (names: seq<Key>)
    ensures Lists(names, t)
  {
    Sorted(t, t.children.Keys)
  }

  /** There is one such order, so the drawing does not depend on how a map is walked. */
  lemma {:induction false} OneOrder(t: Trie, a: seq<Key>, b: seq<Key>)
    requires InOrder(t, a) && InOrder(t, b)
    requires forall s :: s in a <==> s in b
    ensures a == b
    decreases |a|
  {
    SameEmptiness(a, b);
    if a != [] {
      assert a[0] in a && a[0] in b;
      assert b[0] in b && b[0] in a;
      var i :| 0 <= i < |a| && a[i] == b[0];
      var j :| 0 <= j < |b| && b[j] == a[0];
      if a[0] != b[0] {
        BeforeIsTotalOrder(t, a[0], b[0], a[0]);
        assert false;
      }
      forall s ensures s in a[1..] <==> s in b[1..] {
        TailNames(t, a, s);
        TailNames(t, b, s);
      }
      OneOrder(t, a[1..], b[1..]);
      assert a == [a[0]] + a[1..] && b == [b[0]] + b[1..];
    }
  }

  lemma SameEmptiness(a: seq<Key>, b: seq<Key>)
    requires forall s :: s in a <==> s in b
    ensures a == [] <==> b == []
  {
    if a != [] {
      assert a[0] in a;
    }
    if b != [] {
      assert b[0] in b;
    }
  }

  lemma TailNames(t: Trie, names: seq<Key>, s: Key)
    requires InOrder(t, names) && names != []
    ensures s in names[1..] <==> s in names && s != names[0]
  {
    BeforeIsTotalOrder(t, s, s, s);
    assert names == [names[0]] + names[1..];
    if s in names[1..] {
      var k :| 0 <= k < |names[1..]| && names[1..][k] == s;
      assert names[k + 1] == s && Before(t, names[0], names[k + 1]);
    }
  }

  // ----- the drawing ------------------------------------------------------------------------

  /** What drawing leaves behind: the lines, the nodes counted so far, whether it stopped. */
  datatype Drawn = Drawn(views: seq<View>, nodes: nat, stopped: bool)

  /** What is drawn for one name before its children are. */
  predicate IsLeafLine(c: Trie) {
    c.leaf && c.children == map[]
  }

  ghost function Line(name: Key, c: Trie, depth: nat, maxDepth: nat, nodes: nat, stopped: bool): (d: Drawn)
    decreases c, 2, 0
  {
    if IsLeafLine(c) then Drawn([Leaf(name)], nodes + 1, stopped)
    else if depth >= maxDepth then Drawn([Level(name, c.keys, true, [])], nodes + 1, stopped)
    else
      var below := Expand(c, depth + 1, maxDepth, nodes + 1, stopped);
      Drawn([Level(name, c.keys, false, below.views)], below.nodes, below.stopped)
  }

  /** The names still to draw at one level of `t`. */
  ghost function ExpandNames(t: Trie, names: seq<Key>, depth: nat, maxDepth: nat, nodes: nat, stopped: bool): (d: Drawn)
    requires forall s | s in names :: s in t.children
    decreases t, 0, |names|
  {
    if names == [] then Drawn([], nodes, stopped)
    else if nodes >= MAX_TREE_NODES then Drawn([More], nodes, true)
    else
      var first := Line(names[0], t.children[names[0]], depth, maxDepth, nodes, stopped);
      var rest := ExpandNames(t, names[1..], depth, maxDepth, first.nodes, first.stopped);
      rest.(views := first.views + rest.views)
  }

  ghost function Expand(t: Trie, depth: nat, maxDepth: nat, nodes: nat, stopped: bool): (d: Drawn)
    decreases t, 1, 0
  {
    ExpandNames(t, Names(t), depth, maxDepth, nodes, stopped)
  }

  // ----- the reference: every node down to the depth limit, no budget ---------------------------

  /** A drawn node: its path from where the drawing began, the count printed beside it,
      if one is, and whether its children were left out for depth. */
  datatype Item = Item(path: seq<Key>, keys: Option<nat>, collapsed: bool)

  function Under(name: Key, items: seq<Item>): (out: seq<Item>)
    ensures |out| == |items|
    ensures forall i | 0 <= i < |items| :: out[i] == items[i].(path := [name] + items[i].path)
  {
    seq(|items|, i requires 0 <= i < |items| => items[i].(path := [name] + items[i].path))
  }

  function ItemOf(name: Key, c: Trie, collapsed: bool): Item {
    if IsLeafLine(c) then Item([name], None, false) else Item([name], Some(c.keys), collapsed)
  }

  ghost function ItemsOfName(name: Key, c: Trie, levels: nat): seq<Item>
    decreases c, 2, 0
  {
    [ItemOf(name, c, levels == 1)] + if levels <= 1 then [] else Under(name, Items(c, levels - 1))
  }

  ghost function ItemsOfNames(t: Trie, names: seq<Key>, levels: nat): seq<Item>
    requires forall s | s in names :: s in t.children
    decreases t, 0, |names|
  {
    if names == [] then []
    else ItemsOfName(names[0], t.children[names[0]], levels) + ItemsOfNames(t, names[1..], levels)
  }

  /** The nodes of the first `levels` levels below `t`, in drawing order. */
  ghost function Items(t: Trie, levels: nat): seq<Item>
    decreases t, 1, 0
  {
    ItemsOfNames(t, Names(t), levels)
  }

  /** The nodes a drawing shows, parents before children. */
  function Shown(views: seq<View>): seq<Item> {
    if views == [] then [] else ShownBy(views[0]) + Shown(views[1..])
  }

  function ShownBy(v: View): seq<Item> {
    match v
    case Leaf(name) => [Item([name], None, false)]
    case Level(name, keys, collapsed, children) =>
      [Item([name], Some(keys), collapsed)] + Under(name, Shown(children))
    case More => []
  }

  /** How many ellipses a drawing holds. */
  function Ellipses(views: seq<View>): nat {
    if views == [] then 0 else EllipsesIn(views[0]) + Ellipses(views[1..])
  }

  function EllipsesIn(v: View): nat {
    match v
    case Leaf(_) => 0
    case Level(_, _, _, children) => Ellipses(children)
    case More => 1
  }

  function First<T>(items: seq<T>, n: nat): seq<T> {
    if |items| <= n then items else items[..n]
  }

  function LevelsLeft(depth: nat, maxDepth: nat): nat {
    if depth >= maxDepth then 1 else maxDepth - depth + 1
  }

  // ----- the budget --------------------------------------------------------------------------

  /** What a drawing that had `room` nodes left makes of the nodes in `full`. */
  ghost predicate Draws(d: Drawn, full: seq<Item>, nodes: nat, stopped: bool, levels: nat)
    requires nodes <= MAX_TREE_NODES
  {
    var room := MAX_TREE_NODES - nodes;
    && Shown(d.views) == First(full, room)
    && d.nodes == nodes + |First(full, room)|
    && (d.stopped <==> stopped || |full| > room)
    && (|full| <= room ==> Ellipses(d.views) == 0)
    && (|full| > room ==> 1 <= Ellipses(d.views) <= levels)
  }

  lemma ShownFront(v: View, rest: seq<View>)
    ensures Shown([v] + rest) == ShownBy(v) + Shown(rest)
    ensures Ellipses([v] + rest) == EllipsesIn(v) + Ellipses(rest)
  {
    assert ([v] + rest)[1..] == rest;
  }

  lemma UnderFirst(name: Key, item: Item, items: seq<Item>, n: nat)
    ensures [item] + Under(name, First(items, n)) == First([item] + Under(name, items), n + 1)
  {
  }

  lemma FirstOfJoin<T>(a: seq<T>, b: seq<T>, n: nat)
    ensures First(a + b, n) == First(a, n) + First(b, n - |First(a, n)|)
  {
  }

  lemma NoItems(c: Trie, levels: nat)
    requires IsLeafLine(c)
    ensures Items(c, levels) == []
  {
    assert Names(c) == [];
  }

  lemma {:induction false} LineDraws(name: Key, c: Trie, depth: nat, maxDepth: nat, nodes: nat, stopped: bool)
    requires nodes < MAX_TREE_NODES
    ensures
      var levels := LevelsLeft(depth, maxDepth);
      var d := Line(name, c, depth, maxDepth, nodes, stopped);
      && Draws(d, ItemsOfName(name, c, levels), nodes, stopped, levels - 1)
      && |d.views| == 1
    decreases c, 2, 0
  {
    var levels := LevelsLeft(depth, maxDepth);
    var d := Line(name, c, depth, maxDepth, nodes, stopped);
    OneView(d.views);
    if IsLeafLine(c) {
      NoItems(c, levels - 1);
    } else if depth < maxDepth {
      ExpandDraws(c, depth + 1, maxDepth, nodes + 1, stopped);
      var below := Expand(c, depth + 1, maxDepth, nodes + 1, stopped);
      hide Expand, Items, Names, Shown, Ellipses, Draws;
      LevelDraws(name, c.keys, below, Items(c, levels - 1), nodes, stopped, levels - 1);
    }
  }

  /** A line and what is drawn below it. */
  lemma LevelDraws(name: Key, keys: nat, below: Drawn, full: seq<Item>, nodes: nat, stopped: bool, levels: nat)
    requires nodes < MAX_TREE_NODES && Draws(below, full, nodes + 1, stopped, levels)
    ensures Draws(Drawn([Level(name, keys, false, below.views)], below.nodes, below.stopped),
                  [Item([name], Some(keys), false)] + Under(name, full), nodes, stopped, levels)
  {
    var line := Level(name, keys, false, below.views);
    OneView([line]);
    UnderFirst(name, Item([name], Some(keys), false), full, MAX_TREE_NODES - nodes - 1);
  }

  lemma {:induction false} NamesDraw(t: Trie, names: seq<Key>, depth: nat, maxDepth: nat, nodes: nat, stopped: bool)
    requires nodes <= MAX_TREE_NODES
    requires forall s | s in names :: s in t.children
    ensures
      var levels := LevelsLeft(depth, maxDepth);
      Draws(ExpandNames(t, names, depth, maxDepth, nodes, stopped), ItemsOfNames(t, names, levels), nodes, stopped, levels)
    decreases t, 0, |names|
  {
    var levels := LevelsLeft(depth, maxDepth);
    if names == [] {
    } else if nodes >= MAX_TREE_NODES {
      ShownFront(More, []);
      assert [More] + [] == [More];
    } else {
      var c := t.children[names[0]];
      LineDraws(names[0], c, depth, maxDepth, nodes, stopped);
      var first := Line(names[0], c, depth, maxDepth, nodes, stopped);
      NamesDraw(t, names[1..], depth, maxDepth, first.nodes, first.stopped);
      var rest := ExpandNames(t, names[1..], depth, maxDepth, first.nodes, first.stopped);
      var a, b := ItemsOfName(names[0], c, levels), ItemsOfNames(t, names[1..], levels);
      if |a| > MAX_TREE_NODES - nodes {
        OnlyEllipsis(t, names[1..], depth, maxDepth, first.nodes, first.stopped);
      }
      JoinDraws(first, rest, a, b, nodes, stopped, levels);
    }
  }

  /** A line and what is drawn after it. */
  lemma JoinDraws(first: Drawn, rest: Drawn, a: seq<Item>, b: seq<Item>, nodes: nat, stopped: bool, levels: nat)
    requires nodes <= MAX_TREE_NODES && levels > 0 && |first.views| == 1
    requires Draws(first, a, nodes, stopped, levels - 1)
    requires Draws(rest, b, first.nodes, first.stopped, levels)
    requires |a| > MAX_TREE_NODES - nodes ==> Ellipses(rest.views) <= 1
    ensures Draws(rest.(views := first.views + rest.views), a + b, nodes, stopped, levels)
  {
    ShownFront(first.views[0], rest.views);
    assert first.views + rest.views == [first.views[0]] + rest.views;
    OneView(first.views);
    FirstOfJoin(a, b, MAX_TREE_NODES - nodes);
  }

  lemma OneView(views: seq<View>)
    requires |views| == 1
    ensures Shown(views) == ShownBy(views[0]) && Ellipses(views) == EllipsesIn(views[0])
  {
    ShownFront(views[0], []);
    assert views == [views[0]] + [];
  }

  lemma OnlyEllipsis(t: Trie, names: seq<Key>, depth: nat, maxDepth: nat, nodes: nat, stopped: bool)
    requires nodes >= MAX_TREE_NODES
    requires forall s | s in names :: s in t.children
    ensures
      var d := ExpandNames(t, names, depth, maxDepth, nodes, stopped);
      Ellipses(d.views) <= 1
  {
    OneView([More]);
  }

  /** The drawing is the first nodes of the whole picture, as many as the budget has left;
      it says that it stopped exactly when something was cut, and then with at most one
      ellipsis for each level. */
  lemma {:induction false} ExpandDraws(t: Trie, depth: nat, maxDepth: nat, nodes: nat, stopped: bool)
    requires nodes <= MAX_TREE_NODES
    ensures
      var levels := LevelsLeft(depth, maxDepth);
      Draws(Expand(t, depth, maxDepth, nodes, stopped), Items(t, levels), nodes, stopped, levels)
    decreases t, 1, 0
  {
    NamesDraw(t, Names(t), depth, maxDepth, nodes, stopped);
  }

  // ----- what the whole picture holds ------------------------------------------------------------

  function ItemAt(c: Trie, path: seq<Key>, levels: nat): Item {
    if IsLeafLine(c) then Item(path, None, false) else Item(path, Some(c.keys), |path| == levels)
  }

  /** The item stands for a node of the tree within the levels drawn, and is what that
      node's line must say: the count, and that its children are left out at the limit. */
  ghost predicate StandsFor(t: Trie, levels: nat, item: Item) {
    && 1 <= |item.path| <= levels
    && At(t, item.path).Some?
    && item == ItemAt(At(t, item.path).value, item.path, levels)
  }

  /** The order of drawing: a node before what is below it, names before later names. */
  predicate PathBefore(t: Trie, p: seq<Key>, q: seq<Key>)
    decreases |p|
  {
    && q != []
    && (p == []
        || (if p[0] == q[0] then PathBefore(Child(t, p[0]), p[1..], q[1..]) else Before(t, p[0], q[0])))
  }

  lemma {:induction false} NoPathBeforeItself(t: Trie, p: seq<Key>)
    ensures !PathBefore(t, p, p)
    decreases |p|
  {
    if p != [] {
      NoPathBeforeItself(Child(t, p[0]), p[1..]);
    }
  }

  lemma InUnder(name: Key, items: seq<Item>, item: Item)
    ensures item in Under(name, items) <==>
              item.path != [] && item.path[0] == name && item.(path := item.path[1..]) in items
  {
    var inner := item.(path := if item.path == [] then [] else item.path[1..]);
    if item in Under(name, items) {
      var i :| 0 <= i < |items| && Under(name, items)[i] == item;
      assert item.path[1..] == items[i].path;
      assert inner == items[i];
    }
    if item.path != [] && item.path[0] == name && inner in items {
      var i :| 0 <= i < |items| && items[i] == inner;
      assert Under(name, items)[i].path == [name] + item.path[1..] == item.path;
      assert Under(name, items)[i] == item;
    }
  }

  lemma {:induction false} NameItems(name: Key, c: Trie, levels: nat, item: Item)
    requires levels > 0
    ensures item in ItemsOfName(name, c, levels) <==>
              && item.path != [] && item.path[0] == name
              && (if |item.path| == 1 then item == ItemOf(name, c, levels == 1)
                  else StandsFor(c, levels - 1, item.(path := item.path[1..])))
    decreases c, 2, 0
  {
    if levels > 1 {
      InUnder(name, Items(c, levels - 1), item);
      if item.path != [] {
        ItemsStandForNodes(c, levels - 1, item.(path := item.path[1..]));
      }
    }
    if |item.path| == 1 {
      assert item.path == [item.path[0]];
    }
  }

  lemma {:induction false} NamesItems(t: Trie, names: seq<Key>, levels: nat, item: Item)
    requires forall s | s in names :: s in t.children
    requires levels > 0
    ensures item in ItemsOfNames(t, names, levels) <==>
              && item.path != [] && item.path[0] in names
              && item in ItemsOfName(item.path[0], t.children[item.path[0]], levels)
    decreases t, 0, |names|
  {
    if names != [] {
      NamesItems(t, names[1..], levels, item);
      NameItems(names[0], t.children[names[0]], levels, item);
      assert names == [names[0]] + names[1..];
    }
  }

  /** The whole picture holds the tree's nodes down to the depth limit and nothing else. */
  lemma {:induction false} ItemsStandForNodes(t: Trie, levels: nat, item: Item)
    requires levels > 0
    ensures item in Items(t, levels) <==> StandsFor(t, levels, item)
    decreases t, 1, 0
  {
    NamesItems(t, Names(t), levels, item);
    if item.path != [] && item.path[0] in t.children {
      NameItems(item.path[0], t.children[item.path[0]], levels, item);
      var c := t.children[item.path[0]];
      assert At(t, item.path) == At(c, item.path[1..]);
      if |item.path| == 1 {
        assert item.path == [item.path[0]];
        assert At(c, item.path[1..]) == Some(c);
      } else if At(t, item.path).Some? {
        var n := At(t, item.path).value;
        assert item.(path := item.path[1..]) == ItemAt(n, item.path[1..], levels - 1) <==> item == ItemAt(n, item.path, levels);
      }
    }
  }

  ghost predicate ItemsInOrder(t: Trie, items: seq<Item>) {
    forall i, j | 0 <= i < j < |items| :: PathBefore(t, items[i].path, items[j].path)
  }

  lemma {:induction false} NameOrder(t: Trie, name: Key, levels: nat)
    requires name in t.children && levels > 0
    ensures ItemsInOrder(t, ItemsOfName(name, t.children[name], levels))
    decreases t.children[name], 2, 0
  {
    var c := t.children[name];
    var out := ItemsOfName(name, c, levels);
    if levels > 1 {
      ItemsAreInOrder(c, levels - 1);
      var items := Items(c, levels - 1);
      forall i, j | 0 <= i < j < |out| ensures PathBefore(t, out[i].path, out[j].path) {
        assert out[j] == Under(name, items)[j - 1];
        assert out[j].path == [name] + items[j - 1].path;
        ItemsStandForNodes(c, levels - 1, items[j - 1]);
        assert out[j].path[1..] == items[j - 1].path;
        if i > 0 {
          assert out[i] == Under(name, items)[i - 1];
          assert out[i].path[1..] == items[i - 1].path;
        } else {
          assert out[i].path == [name];
        }
      }
    }
  }

  lemma {:induction false} NamesOrder(t: Trie, names: seq<Key>, levels: nat)
    requires forall s | s in names :: s in t.children
    requires levels > 0 && InOrder(t, names)
    ensures ItemsInOrder(t, ItemsOfNames(t, names, levels))
    decreases t, 0, |names|
  {
    if names != [] {
      var c := t.children[names[0]];
      var a, b := ItemsOfName(names[0], c, levels), ItemsOfNames(t, names[1..], levels);
      NameOrder(t, names[0], levels);
      NamesOrder(t, names[1..], levels);
      forall i, j | 0 <= i < |a| && 0 <= j < |b| ensures PathBefore(t, a[i].path, b[j].path) {
        NameItems(names[0], c, levels, a[i]);
        NamesItems(t, names[1..], levels, b[j]);
        var k :| 0 <= k < |names[1..]| && names[1..][k] == b[j].path[0];
        assert Before(t, names[0], names[k + 1]);
        BeforeIsTotalOrder(t, names[0], names[0], names[0]);
      }
      JoinInOrder(t, a, b);
    }
  }

  lemma JoinInOrder(t: Trie, a: seq<Item>, b: seq<Item>)
    requires ItemsInOrder(t, a) && ItemsInOrder(t, b)
    requires forall i, j | 0 <= i < |a| && 0 <= j < |b| :: PathBefore(t, a[i].path, b[j].path)
    ensures ItemsInOrder(t, a + b)
  {
  }

  /** Each node of the whole picture comes once, in drawing order. */
  lemma {:induction false} ItemsAreInOrder(t: Trie, levels: nat)
    requires levels > 0
    ensures ItemsInOrder(t, Items(t, levels))
    decreases t, 1, 0
  {
    NamesOrder(t, Names(t), levels);
  }

  /** A drawing from the root that did not stop shows each node down to the limit exactly
      once, with the count of the keys under it; one that did stop shows 500 of them. */
  lemma DrawingIsComplete(paths: seq<seq<Key>>, maxDepth: nat)
    ensures
      var t := Build(paths);
      var d := Expand(t, 1, maxDepth, 0, false);
      var shown := Shown(d.views);
      var levels := LevelsLeft(1, maxDepth);
      && |shown| == d.nodes <= MAX_TREE_NODES
      && (d.stopped ==> |shown| == MAX_TREE_NODES && 1 <= Ellipses(d.views) <= levels)
      && (!d.stopped ==> Ellipses(d.views) == 0)
      && (forall item | item in shown :: StandsFor(t, levels, item))
      && (forall i, j | 0 <= i < j < |shown| :: shown[i].path != shown[j].path)
      && (!d.stopped ==> forall q | 1 <= |q| <= levels && CountIf(paths, Extends(q)) > 0 ::
            exists i :: 0 <= i < |shown| && shown[i].path == q)
      && (forall item | item in shown && item.keys.Some? ::
            item.keys.value == CountIf(paths, Extends(item.path)) > 0)
  {
    var t := Build(paths);
    var d := Expand(t, 1, maxDepth, 0, false);
    var shown := Shown(d.views);
    var levels := LevelsLeft(1, maxDepth);
    var all := Items(t, levels);
    ExpandDraws(t, 1, maxDepth, 0, false);
    ItemsAreInOrder(t, levels);
    forall item | item in shown ensures StandsFor(t, levels, item) {
      assert item in all;
      ItemsStandForNodes(t, levels, item);
    }
    forall i, j | 0 <= i < j < |shown| ensures shown[i].path != shown[j].path {
      assert shown[i] == all[i] && shown[j] == all[j];
      NoPathBeforeItself(t, shown[i].path);
    }
    forall q | 1 <= |q| <= levels && CountIf(paths, Extends(q)) > 0 && !d.stopped
      ensures exists i :: 0 <= i < |shown| && shown[i].path == q
    {
      NodeCounts(paths, q);
      var item := ItemAt(At(t, q).value, q, levels);
      ItemsStandForNodes(t, levels, item);
      assert shown == all;
    }
    forall item | item in shown && item.keys.Some?
      ensures item.keys.value == CountIf(paths, Extends(item.path)) > 0
    {
      NodeCounts(paths, item.path);
    }
  }
}
