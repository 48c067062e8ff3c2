/** What a drawn tree shows, said of the keys themselves (plugins/etcd/kv.go: keyTree): the
    nodes are the fronts of the keys' segments below the prefix, each counted. */
module KeyTreeKeys {
  import opened Common
  import opened KeyPaging
  import opened KeyTree
  import opened KeyTreeRender

  function TrimPrefix(key: Key, prefix: Key): Key {
    if prefix <= key then key[|prefix|..] else key
  }

  /** The paths of the first `limit` keys, below the prefix. */
  function PathsOf(kvs: seq<Key>, prefix: Key, limit: nat): seq<seq<Key>> {
    var n := if |kvs| <= limit then |kvs| else limit;
    seq(n, i requires 0 <= i < n => Segments(TrimPrefix(kvs[i], prefix)))
  }

  // ----- the keys under a node ------------------------------------------------------------

  /** What is left of a key below the prefix; a key without the prefix is left whole. */
  predicate IsRest(key: Key, prefix: Key, rest: Key) {
    if prefix <= key then key == prefix + rest else rest == key
  }

  ghost predicate GoesThrough(key: Key, prefix: Key, path: seq<Key>) {
    exists rest :: IsRest(key, prefix, rest) && path <= Segments(rest)
  }

  ghost predicate EndsIn(key: Key, prefix: Key, path: seq<Key>) {
    exists rest :: IsRest(key, prefix, rest) && path == Segments(rest)
  }

  ghost function Through(prefix: Key, path: seq<Key>): Key -> bool {
    (key: Key) => GoesThrough(key, prefix, path)
  }

  /** A node's line says what it must of the keys: it stands for some, counts those that go
      through it, and goes without a count when none goes further. */
  ghost predicate Tells(keys: seq<Key>, prefix: Key, levels: nat, item: Item) {
    var n := CountIf(keys, Through(prefix, item.path));
    var last := forall i | 0 <= i < |keys| && GoesThrough(keys[i], prefix, item.path) :: EndsIn(keys[i], prefix, item.path);
    && 1 <= |item.path| <= levels && n > 0
    && item.keys == (if last then None else Some(n))
    && (item.collapsed <==> !last && |item.path| == levels)
  }

  lemma RestIsTrimmed(key: Key, prefix: Key, rest: Key)
    ensures IsRest(key, prefix, rest) <==> rest == TrimPrefix(key, prefix)
  {
    if prefix <= key {
      assert key[..|prefix|] + key[|prefix|..] == key;
    }
  }

  lemma ThroughIsExtends(key: Key, prefix: Key, path: seq<Key>)
    ensures GoesThrough(key, prefix, path) <==> path <= Segments(TrimPrefix(key, prefix))
    ensures EndsIn(key, prefix, path) <==> path == Segments(TrimPrefix(key, prefix))
  {
    RestIsTrimmed(key, prefix, TrimPrefix(key, prefix));
    forall rest ensures IsRest(key, prefix, rest) <==> rest == TrimPrefix(key, prefix) {
      RestIsTrimmed(key, prefix, rest);
    }
    hide TrimPrefix, Segments;
  }

  lemma {:induction false} CountThrough(keys: seq<Key>, prefix: Key, paths: seq<seq<Key>>, path: seq<Key>)
    requires |paths| == |keys|
    requires forall i | 0 <= i < |keys| :: paths[i] == Segments(TrimPrefix(keys[i], prefix))
    ensures CountIf(keys, Through(prefix, path)) == CountIf(paths, Extends(path))
  {
    if keys != [] {
      var n := |keys| - 1;
      CountThrough(keys[..n], prefix, paths[..n], path);
      ThroughIsExtends(keys[n], prefix, path);
    }
  }

  // ----- a node without children ----------------------------------------------------------

  lemma {:induction false} AtNext(t: Trie, path: seq<Key>, name: Key)
    ensures At(t, path + [name]).Some? <==> At(t, path).Some? && name in At(t, path).value.children
    decreases |path|
  {
    if path == [] {
      assert ([] + [name])[0] == name && ([] + [name])[1..] == [];
    } else {
      assert (path + [name])[0] == path[0] && (path + [name])[1..] == path[1..] + [name];
      if path[0] in t.children {
        AtNext(t.children[path[0]], path[1..], name);
      }
    }
  }

  /** A node is drawn as a leaf exactly when no path goes further than it. */
  lemma LeafLineMeans(paths: seq<seq<Key>>, q: seq<Key>)
    requires q != [] && At(Build(paths), q).Some?
    ensures IsLeafLine(At(Build(paths), q).value) <==> forall i | 0 <= i < |paths| && q <= paths[i] :: q == paths[i]
  {
    var t := Build(paths);
    var c := At(t, q).value;
    NodeCounts(paths, q);
    CountZero(paths, Extends(q));
    CountZero(paths, EndsAt(q));
    if IsLeafLine(c) {
      forall i | 0 <= i < |paths| && q <= paths[i] ensures q == paths[i] {
        if q != paths[i] {
          var longer := q + [paths[i][|q|]];
          assert longer <= paths[i];
          NodeCounts(paths, longer);
          CountZero(paths, Extends(longer));
          assert Extends(longer)(paths[i]);
          AtNext(t, q, paths[i][|q|]);
          assert false;
        }
      }
    }
    if forall i | 0 <= i < |paths| && q <= paths[i] :: q == paths[i] {
      var i :| 0 <= i < |paths| && Extends(q)(paths[i]);
      assert EndsAt(q)(paths[i]);
      if c.children != map[] {
        var name :| name in c.children;
        NoFurther(paths, q, name);
        assert false;
      }
    }
  }

  lemma NoFurther(paths: seq<seq<Key>>, q: seq<Key>, name: Key)
    requires At(Build(paths), q).Some? && name in At(Build(paths), q).value.children
    ensures exists i :: 0 <= i < |paths| && q <= paths[i] && q != paths[i]
  {
    AtNext(Build(paths), q, name);
    NodeCounts(paths, q + [name]);
    CountZero(paths, Extends(q + [name]));
    var i :| 0 <= i < |paths| && Extends(q + [name])(paths[i]);
    assert q <= paths[i] && q != paths[i];
  }

  // ----- the order of a level -----------------------------------------------------------------

  /** Some key ends in the node, and it may or may not go on below. */
  ghost predicate SomeEnds(keys: seq<Key>, prefix: Key, path: seq<Key>) {
    exists i :: 0 <= i < |keys| && EndsIn(keys[i], prefix, path)
  }

  /** Of two nodes of one level: those where no key ends come first, and otherwise the one
      whose name is less. */
  ghost predicate ComesFirst(keys: seq<Key>, prefix: Key, p: seq<Key>, q: seq<Key>)
    requires |p| == |q| > 0
  {
    var a, b := SomeEnds(keys, prefix, p), SomeEnds(keys, prefix, q);
    if a != b then b else Less(p[|p| - 1], q[|q| - 1])
  }

  lemma {:induction false} LevelOrder(t: Trie, p: seq<Key>, q: seq<Key>)
    requires |p| == |q| > 0 && p[..|p| - 1] == q[..|q| - 1] && PathBefore(t, p, q)
    requires At(t, p).Some? && At(t, q).Some?
    ensures
      var a, b := At(t, p).value, At(t, q).value;
      if a.leaf != b.leaf then b.leaf else Less(p[|p| - 1], q[|q| - 1])
    decreases |p|
  {
    if |p| == 1 {
      assert p[1..] == [] && q[1..] == [];
      BeforeIsTotalOrder(t, p[0], q[0], p[0]);
    } else {
      assert p[0] == p[..|p| - 1][0] == q[..|q| - 1][0] == q[0];
      assert p[1..][..|p| - 2] == p[..|p| - 1][1..] == q[..|q| - 1][1..] == q[1..][..|q| - 2];
      LevelOrder(t.children[p[0]], p[1..], q[1..]);
    }
  }

  lemma LevelsFirst(keys: seq<Key>, prefix: Key, paths: seq<seq<Key>>, p: seq<Key>, q: seq<Key>)
    requires |paths| == |keys|
    requires forall i | 0 <= i < |keys| :: paths[i] == Segments(TrimPrefix(keys[i], prefix))
    requires |p| == |q| > 0 && p[..|p| - 1] == q[..|q| - 1] && PathBefore(Build(paths), p, q)
    requires At(Build(paths), p).Some? && At(Build(paths), q).Some?
    ensures ComesFirst(keys, prefix, p, q)
  {
    LevelOrder(Build(paths), p, q);
    EndsIsLeaf(keys, prefix, paths, p);
    EndsIsLeaf(keys, prefix, paths, q);
  }

  lemma EndsIsLeaf(keys: seq<Key>, prefix: Key, paths: seq<seq<Key>>, p: seq<Key>)
    requires |paths| == |keys| && p != []
    requires forall i | 0 <= i < |keys| :: paths[i] == Segments(TrimPrefix(keys[i], prefix))
    ensures SomeEnds(keys, prefix, p) <==> LeafAt(Build(paths), p)
  {
    NodeCounts(paths, p);
    CountZero(paths, EndsAt(p));
    forall i | 0 <= i < |keys| ensures EndsIn(keys[i], prefix, p) <==> EndsAt(p)(paths[i]) {
      ThroughIsExtends(keys[i], prefix, p);
    }
  }

  // ----- the drawing, by the keys -----------------------------------------------------------

  lemma StandsTells(keys: seq<Key>, prefix: Key, paths: seq<seq<Key>>, levels: nat, item: Item)
    requires |paths| == |keys|
    requires forall i | 0 <= i < |keys| :: paths[i] == Segments(TrimPrefix(keys[i], prefix))
    requires StandsFor(Build(paths), levels, item)
    ensures Tells(keys, prefix, levels, item)
  {
    var q := item.path;
    NodeCounts(paths, q);
    CountThrough(keys, prefix, paths, q);
    LeafLineMeans(paths, q);
    forall i | 0 <= i < |keys|
      ensures GoesThrough(keys[i], prefix, q) <==> q <= paths[i]
      ensures EndsIn(keys[i], prefix, q) <==> q == paths[i]
    {
      ThroughIsExtends(keys[i], prefix, q);
    }
  }

  ghost predicate SiblingsInOrder(keys: seq<Key>, prefix: Key, shown: seq<Item>) {
    forall i, j | 0 <= i < j < |shown| && AreSiblings(shown[i].path, shown[j].path) ::
      ComesFirst(keys, prefix, shown[i].path, shown[j].path)
  }

  predicate AreSiblings(p: seq<Key>, q: seq<Key>) {
    |p| == |q| > 0 && p[..|p| - 1] == q[..|q| - 1]
  }

  lemma DrawnInOrder(keys: seq<Key>, prefix: Key, depth: nat)
    ensures SiblingsInOrder(keys, prefix, Shown(Expand(Build(PathsOf(keys, prefix, |keys|)), 1, depth, 0, false).views))
  {
    var paths := PathsOf(keys, prefix, |keys|);
    var t, levels := Build(paths), LevelsLeft(1, depth);
    var shown, all := Shown(Expand(t, 1, depth, 0, false).views), Items(t, levels);
    ExpandDraws(t, 1, depth, 0, false);
    ItemsAreInOrder(t, levels);
    hide Expand, Shown, Build, Items, PathBefore, ComesFirst, TrimPrefix, Segments, At;
    forall i, j | 0 <= i < j < |shown| && AreSiblings(shown[i].path, shown[j].path)
      ensures ComesFirst(keys, prefix, shown[i].path, shown[j].path)
    {
      assert shown[i] == all[i] && shown[j] == all[j];
      assert all[i] in all && all[j] in all;
      ItemsStandForNodes(t, levels, all[i]);
      ItemsStandForNodes(t, levels, all[j]);
      LevelsFirst(keys, prefix, paths, shown[i].path, shown[j].path);
    }
  }

  /** The drawing of the keys' tree, with no mention of the tree: every line tells of the
      keys what it must, no node comes twice, each level is
      in its order, and unless the budget was used up every
      front of a key's segments down to the depth is there. */
  lemma DrawingTellsOfKeys(keys: seq<Key>, prefix: Key, depth: nat)
    ensures
      var d := Expand(Build(PathsOf(keys, prefix, |keys|)), 1, depth, 0, false);
      var shown := Shown(d.views);
      var levels := LevelsLeft(1, depth);
      && (forall item | item in shown :: Tells(keys, prefix, levels, item))
      && (forall i, j | 0 <= i < j < |shown| :: shown[i].path != shown[j].path)
      && SiblingsInOrder(keys, prefix, shown)
      && |shown| <= MAX_TREE_NODES && (d.stopped ==> |shown| == MAX_TREE_NODES)
      && (d.stopped <==> Ellipses(d.views) > 0)
      && (!d.stopped ==> forall q | 1 <= |q| <= levels && CountIf(keys, Through(prefix, q)) > 0 ::
            exists i :: 0 <= i < |shown| && shown[i].path == q)
  {
    var paths := PathsOf(keys, prefix, |keys|);
    var d := Expand(Build(paths), 1, depth, 0, false);
    var shown := Shown(d.views);
    var levels := LevelsLeft(1, depth);
    DrawingIsComplete(paths, depth);
    DrawnInOrder(keys, prefix, depth);
    hide SiblingsInOrder, Expand, Shown, Ellipses, Build, StandsFor, Tells, TrimPrefix, Segments, CountIf;
    forall item | item in shown ensures Tells(keys, prefix, levels, item) {
      StandsTells(keys, prefix, paths, levels, item);
    }
    forall q | 1 <= |q| <= levels && CountIf(keys, Through(prefix, q)) > 0 && !d.stopped
      ensures exists i :: 0 <= i < |shown| && shown[i].path == q
    {
      CountThrough(keys, prefix, paths, q);
    }
  }
}
