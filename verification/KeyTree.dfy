/** The counted tree that a flat list of keys is read as (plugins/etcd/kv.go: splitKey
    and treeNode.insert), as values: what each node counts, whatever the order the keys
    were inserted in. */
module KeyTree {
  import opened Common
  import opened KeyPaging

  // ----- segments ---------------------------------------------------------------------

  const SLASH: Byte := 47

  /** The parts of a key between slashes, the empty ones included. */
  function Split(key: Key): (parts: seq<Key>)
    ensures parts != []
  {
    if key == [] then [[]]
    else
      var rest := Split(key[1..]);
      if key[0] == SLASH then [[]] + rest else [[key[0]] + rest[0]] + rest[1..]
  }

  function NonEmpty(parts: seq<Key>): seq<Key> {
    if parts == [] then []
    else
      var n := |parts| - 1;
      if parts[n] == [] then NonEmpty(parts[..n]) else NonEmpty(parts[..n]) + [parts[n]]
  }

  function Segments(key: Key): seq<Key> {
    NonEmpty(Split(key))
  }

  /** splitKey drops the empty parts in place: `out` is the front of `parts` itself. */
  method SplitKey(key: Key) returns (parts: array<Key>, out: nat)
    ensures out <= parts.Length && parts[..out] == Segments(key)
  {
    var all := Split(key);
    parts := new Key[|all|](i requires 0 <= i < |all| => all[i]);
    out := 0;
    assert parts[..] == all;
    for i := 0 to parts.Length
      invariant out <= i
      invariant parts[i..] == all[i..]
      invariant parts[..out] == NonEmpty(all[..i])
    {
      assert all[..i + 1][..i] == all[..i];
      var p := parts[i];
      assert p == parts[i..][0] == all[i];
      assert parts[i + 1..] == parts[i..][1..] == all[i + 1..];
      if p != [] {
        parts[out] := p;
        out := out + 1;
      }
    }
    assert all[..parts.Length] == all;
  }

  function Joined(segments: seq<Key>): Key {
    if segments == [] then []
    else if |segments| == 1 then segments[0]
    else segments[0] + [SLASH] + Joined(segments[1..])
  }

  ghost predicate IsSegment(s: Key) {
    s != [] && SLASH !in s
  }

  lemma {:induction false} SplitJoin(head: Key, rest: Key)
    requires SLASH !in head
    ensures Split(head + [SLASH] + rest) == [head] + Split(rest)
    ensures Split(head) == [head]
  {
    if head == [] {
      assert [] + [SLASH] + rest == [SLASH] + rest;
    } else {
      SplitJoin(head[1..], rest);
      assert (head + [SLASH] + rest)[1..] == head[1..] + [SLASH] + rest;
      assert [head[0]] + head[1..] == head;
    }
  }

  lemma {:induction false} NonEmptyCons(p: Key, parts: seq<Key>)
    ensures NonEmpty([p] + parts) == if p == [] then NonEmpty(parts) else [p] + NonEmpty(parts)
  {
    var all := [p] + parts;
    if parts == [] {
      assert all[..0] == [];
    } else {
      var n := |parts| - 1;
      assert all[..n + 1] == [p] + parts[..n];
      NonEmptyCons(p, parts[..n]);
    }
  }

  /** The names of a path are the segments of the key they join into. */
  lemma {:induction false} SegmentsRoundTrip(segments: seq<Key>)
    requires forall i | 0 <= i < |segments| :: IsSegment(segments[i])
    ensures Segments(Joined(segments)) == segments
  {
    if segments == [] {
    } else if |segments| == 1 {
      SplitJoin(segments[0], []);
      assert NonEmpty([segments[0]]) == [segments[0]] by {
        assert [segments[0]] == [segments[0]] + [];
        NonEmptyCons(segments[0], []);
      }
    } else {
      SplitJoin(segments[0], Joined(segments[1..]));
      NonEmptyCons(segments[0], Split(Joined(segments[1..])));
      SegmentsRoundTrip(segments[1..]);
    }
  }

  lemma {:induction false} SplitAtSlash(a: Key, b: Key)
    ensures Split(a + [SLASH] + b) == Split(a) + Split(b)
  {
    if a == [] {
      assert [] + [SLASH] + b == [SLASH] + b;
    } else {
      SplitAtSlash(a[1..], b);
      var whole := a + [SLASH] + b;
      assert whole[1..] == a[1..] + [SLASH] + b && whole[0] == a[0];
      SplitFirst(whole);
      SplitFirst(a);
      hide Split;
      Regrouped(a[0], Split(a[1..]), Split(b));
    }
  }

  lemma SplitFirst(key: Key)
    requires key != []
    ensures
      var rest := Split(key[1..]);
      Split(key) == if key[0] == SLASH then [[]] + rest else [[key[0]] + rest[0]] + rest[1..]
  {
  }

  lemma Regrouped(c: Byte, a: seq<Key>, b: seq<Key>)
    requires a != []
    ensures [[]] + (a + b) == [[]] + a + b
    ensures [[c] + (a + b)[0]] + (a + b)[1..] == [[c] + a[0]] + a[1..] + b
  {
  }

  lemma {:induction false} NonEmptyJoin(a: seq<Key>, b: seq<Key>)
    ensures NonEmpty(a + b) == NonEmpty(a) + NonEmpty(b)
  {
    if b == [] {
      assert a + b == a;
    } else {
      var n := |b| - 1;
      assert (a + b)[..|a| + n] == a + b[..n];
      NonEmptyJoin(a, b[..n]);
    }
  }

  /** What stands on either side of any slash gives its own segments, a name its one and
      nothing none: with a doubled or a leading or a trailing slash nothing else is lost. */
  lemma SegmentsAtSlash(a: Key, b: Key)
    ensures Segments(a + [SLASH] + b) == Segments(a) + Segments(b)
    ensures Segments(a) == [] <== a == []
    ensures IsSegment(a) ==> Segments(a) == [a]
  {
    SplitAtSlash(a, b);
    NonEmptyJoin(Split(a), Split(b));
    if IsSegment(a) {
      assert Joined([a]) == a;
      SegmentsRoundTrip([a]);
    }
  }

  /** No segment is empty or holds a slash, and a leading slash names no level. */
  lemma {:induction false} SegmentsAreNames(key: Key)
    ensures forall s | s in Segments(key) :: IsSegment(s)
    ensures Segments([SLASH] + key) == Segments(key)
  {
    PartsWithoutSlash(key);
    NonEmptyParts(Split(key));
    assert ([SLASH] + key)[1..] == key;
    NonEmptyCons([], Split(key));
  }

  lemma {:induction false} PartsWithoutSlash(key: Key)
    ensures forall p | p in Split(key) :: SLASH !in p
  {
    if key != [] {
      PartsWithoutSlash(key[1..]);
      assert Split(key[1..])[0] in Split(key[1..]);
    }
  }

  lemma {:induction false} NonEmptyParts(parts: seq<Key>)
    ensures forall p | p in NonEmpty(parts) :: p in parts && p != []
  {
    if parts != [] {
      NonEmptyParts(parts[..|parts| - 1]);
    }
  }

  // ----- the tree ------------------------------------------------------------------------

  /** One level: how many keys went through it, and whether one ended here. */
  datatype Trie = Trie(keys: nat, leaf: bool, children: map<Key, Trie>)

  const EMPTY := Trie(0, false, map[])

  function Child(t: Trie, name: Key): Trie {
    if name in t.children then t.children[name] else EMPTY
  }

  function Insert(t: Trie, parts: seq<Key>): Trie
    decreases |parts|
  {
    if parts == [] then t.(keys := t.keys + 1)
    else
      var c := Child(t, parts[0]);
      var marked := if |parts| == 1 then c.(leaf := true) else c;
      Trie(t.keys + 1, t.leaf, t.children[parts[0] := Insert(marked, parts[1..])])
  }

  function Build(paths: seq<seq<Key>>): Trie {
    if paths == [] then EMPTY else Insert(Build(paths[..|paths| - 1]), paths[|paths| - 1])
  }

  /** The node a path leads to. */
  function At(t: Trie, path: seq<Key>): Option<Trie>
    decreases |path|
  {
    if path == [] then Some(t)
    else if path[0] in t.children then At(t.children[path[0]], path[1..])
    else None
  }

  function KeysAt(t: Trie, path: seq<Key>): nat {
    if At(t, path).Some? then At(t, path).value.keys else 0
  }

  predicate LeafAt(t: Trie, path: seq<Key>) {
    At(t, path).Some? && At(t, path).value.leaf
  }

  function Extends(path: seq<Key>): seq<Key> -> bool {
    (p: seq<Key>) => path <= p
  }

  function EndsAt(path: seq<Key>): seq<Key> -> bool {
    (p: seq<Key>) => p == path
  }

  lemma PathTail(q: seq<Key>, p: seq<Key>)
    requires q != []
    ensures q <= p <==> p != [] && q[0] == p[0] && q[1..] <= p[1..]
    ensures q == p <==> p != [] && q[0] == p[0] && q[1..] == p[1..]
  {
    if p != [] && q[0] == p[0] && q[1..] <= p[1..] {
      assert q == [q[0]] + q[1..] && p == [p[0]] + p[1..];
    }
    if q <= p {
      assert p[1..][..|q| - 1] == p[..|q|][1..];
    }
  }

  /** One key adds one to every node on its way, makes what was missing of that way, and
      marks the node it ends at. */
  lemma {:induction false} InsertCounts(t: Trie, p: seq<Key>, q: seq<Key>)
    ensures KeysAt(Insert(t, p), q) == KeysAt(t, q) + ToNat(q <= p)
    ensures At(Insert(t, p), q).Some? <==> At(t, q).Some? || q <= p
    ensures q != [] ==> (LeafAt(Insert(t, p), q) <==> LeafAt(t, q) || q == p)
    decreases |p|
  {
    if q != [] {
      PathTail(q, p);
      if p != [] && q[0] == p[0] {
        var c := Child(t, p[0]);
        var marked := if |p| == 1 then c.(leaf := true) else c;
        InsertCounts(marked, p[1..], q[1..]);
        Below(t, p, q);
      }
    }
  }

  /** What lies below a first name, whether or not that name was there before. */
  lemma Below(t: Trie, p: seq<Key>, q: seq<Key>)
    requires p != [] && q != [] && p[0] == q[0]
    ensures
      var c := Child(t, p[0]);
      var marked := if |p| == 1 then c.(leaf := true) else c;
      && At(marked, q[1..]) == (if q[1..] == [] then Some(marked) else At(c, q[1..]))
      && At(Insert(t, p), q) == At(Insert(marked, p[1..]), q[1..])
      && (p[0] in t.children ==> At(t, q) == At(c, q[1..]))
      && (p[0] !in t.children ==> At(t, q) == None && (q[1..] != [] ==> At(c, q[1..]) == None))
      && (p[0] !in t.children ==> c == EMPTY)
  {
  }

  lemma EmptyHasNothing(q: seq<Key>)
    ensures q != [] ==> At(EMPTY, q).None?
  {
  }

  /** Each node counts the keys whose segments extend its path, is there exactly when
      there is one, and is a leaf exactly when a key ends there. */
  lemma {:induction false} NodeCounts(paths: seq<seq<Key>>, q: seq<Key>)
    ensures KeysAt(Build(paths), q) == CountIf(paths, Extends(q))
    ensures q != [] ==> (At(Build(paths), q).Some? <==> CountIf(paths, Extends(q)) > 0)
    ensures q != [] ==> (LeafAt(Build(paths), q) <==> CountIf(paths, EndsAt(q)) > 0)
  {
    if paths == [] {
      EmptyHasNothing(q);
    } else {
      var n := |paths| - 1;
      NodeCounts(paths[..n], q);
      InsertCounts(Build(paths[..n]), paths[n], q);
    }
  }

  // ----- a node counts its own key and its children's ---------------------------------------

  ghost function SumKeys(children: map<Key, Trie>): nat
    decreases |children|
  {
    if children == map[] then 0
    else
      var k :| k in children;
      children[k].keys + SumKeys(children - {k})
  }

  lemma {:induction false} SumWithout(children: map<Key, Trie>, k: Key)
    requires k in children
    ensures SumKeys(children) == children[k].keys + SumKeys(children - {k})
    decreases |children|
  {
    var x :| x in children && SumKeys(children) == children[x].keys + SumKeys(children - {x});
    if x != k {
      SumWithout(children - {x}, k);
      SumWithout(children - {k}, x);
      assert children - {x} - {k} == children - {k} - {x};
    }
  }

  lemma SumUpdated(children: map<Key, Trie>, k: Key, c: Trie)
    ensures SumKeys(children[k := c]) + (if k in children then children[k].keys else 0) == SumKeys(children) + c.keys
  {
    SumWithout(children[k := c], k);
    assert children[k := c] - {k} == children - {k};
    if k in children {
      SumWithout(children, k);
    } else {
      assert children - {k} == children;
    }
  }

  /** How many of a node's keys go no further. */
  ghost function Own(t: Trie, q: seq<Key>): int {
    match At(t, q)
    case None => 0
    case Some(n) => n.keys - SumKeys(n.children)
  }

  lemma {:induction false} InsertOwn(t: Trie, p: seq<Key>, q: seq<Key>)
    ensures Own(Insert(t, p), q) == Own(t, q) + ToNat(q == p)
    decreases |p|
  {
    if q == [] {
      if p != [] {
        var c := Child(t, p[0]);
        var marked := if |p| == 1 then c.(leaf := true) else c;
        InsertCounts(marked, p[1..], []);
        SumUpdated(t.children, p[0], Insert(marked, p[1..]));
      }
    } else {
      PathTail(q, p);
      if p != [] && q[0] == p[0] {
        var c := Child(t, p[0]);
        var marked := if |p| == 1 then c.(leaf := true) else c;
        InsertOwn(marked, p[1..], q[1..]);
        Below(t, p, q);
        assert Own(t, q) == Own(c, q[1..]) == Own(marked, q[1..]);
      }
    }
  }

  /** A node's count is the keys that end there and what its children count. */
  lemma {:induction false} NodeIsItsChildren(paths: seq<seq<Key>>, q: seq<Key>)
    requires At(Build(paths), q).Some?
    ensures
      var n := At(Build(paths), q).value;
      n.keys == CountIf(paths, EndsAt(q)) + SumKeys(n.children)
  {
    OwnCount(paths, q);
  }

  lemma {:induction false} OwnCount(paths: seq<seq<Key>>, q: seq<Key>)
    ensures Own(Build(paths), q) == CountIf(paths, EndsAt(q))
  {
    if paths != [] {
      var n := |paths| - 1;
      OwnCount(paths[..n], q);
      InsertOwn(Build(paths[..n]), paths[n], q);
    }
  }

  // ----- the order of insertion does not matter ---------------------------------------------

  /** Two trees with the same nodes are the same tree. */
  lemma {:induction false} SameNodes(t: Trie, u: Trie)
    requires forall q :: At(t, q).Some? <==> At(u, q).Some?
    requires forall q :: KeysAt(t, q) == KeysAt(u, q) && (LeafAt(t, q) <==> LeafAt(u, q))
    ensures t == u
    decreases t
  {
    assert KeysAt(t, []) == KeysAt(u, []) && (LeafAt(t, []) <==> LeafAt(u, []));
    forall s ensures s in t.children <==> s in u.children {
      assert At(t, [s]).Some? <==> At(u, [s]).Some?;
      var path := [s];
      assert path[0] == s && path[1..] == [];
    }
    forall s | s in t.children ensures t.children[s] == u.children[s] {
      forall q
        ensures At(t.children[s], q).Some? <==> At(u.children[s], q).Some?
        ensures KeysAt(t.children[s], q) == KeysAt(u.children[s], q)
        ensures LeafAt(t.children[s], q) <==> LeafAt(u.children[s], q)
      {
        assert ([s] + q)[1..] == q;
        assert At(t, [s] + q) == At(t.children[s], q) && At(u, [s] + q) == At(u.children[s], q);
        assert KeysAt(t, [s] + q) == KeysAt(u, [s] + q);
        assert LeafAt(t, [s] + q) <==> LeafAt(u, [s] + q);
      }
      SameNodes(t.children[s], u.children[s]);
    }
    assert t.children == u.children;
  }

  lemma {:induction false} CountConcat<T>(a: seq<T>, b: seq<T>, p: T -> bool)
    ensures CountIf(a + b, p) == CountIf(a, p) + CountIf(b, p)
  {
    if b == [] {
      assert a + b == a;
    } else {
      assert (a + b)[..|a + b| - 1] == a + b[..|b| - 1];
      CountConcat(a, b[..|b| - 1], p);
    }
  }

  lemma {:induction false} CountOfMultiset<T>(a: seq<T>, b: seq<T>, p: T -> bool)
    requires multiset(a) == multiset(b)
    ensures CountIf(a, p) == CountIf(b, p)
    decreases |a|
  {
    if a == [] {
      assert |multiset(b)| == 0;
    } else {
      var n := |a| - 1;
      assert CountIf(a, p) == CountIf(a[..n], p) + ToNat(p(a[n]));
      assert a[n] in multiset(b);
      var j: nat :| j < |b| && b[j] == a[n];
      LastOut(a);
      OneOut(b, j, p);
      hide CountIf;
      CountOfMultiset(a[..n], b[..j] + b[j + 1..], p);
    }
  }

  lemma LastOut<T>(a: seq<T>)
    requires a != []
    ensures multiset(a[..|a| - 1]) == multiset(a) - multiset{a[|a| - 1]}
  {
    assert a == a[..|a| - 1] + [a[|a| - 1]];
  }

  lemma Around<T>(b: seq<T>, j: nat)
    requires j < |b|
    ensures b == b[..j] + [b[j]] + b[j + 1..]
  {
  }

  lemma MultisetWithout<T>(front: seq<T>, x: T, back: seq<T>)
    ensures multiset(front + back) == multiset(front + [x] + back) - multiset{x}
  {
  }

  lemma CountWithout<T>(front: seq<T>, x: T, back: seq<T>, p: T -> bool)
    ensures CountIf(front + back, p) + ToNat(p(x)) == CountIf(front + [x] + back, p)
  {
    CountConcat(front, back, p);
    CountConcat(front + [x], back, p);
    assert (front + [x])[..|front + [x]| - 1] == front;
    assert CountIf(front + [x], p) == CountIf(front, p) + ToNat(p(x));
  }

  /** A sequence without one of its elements. */
  lemma OneOut<T>(b: seq<T>, j: nat, p: T -> bool)
    requires j < |b|
    ensures multiset(b[..j] + b[j + 1..]) == multiset(b) - multiset{b[j]}
    ensures CountIf(b[..j] + b[j + 1..], p) + ToNat(p(b[j])) == CountIf(b, p)
  {
    Around(b, j);
    MultisetWithout(b[..j], b[j], b[j + 1..]);
    hide CountIf;
    CountWithout(b[..j], b[j], b[j + 1..], p);
  }

  /** The tree of a keyspace does not depend on the order its keys were read in. */
  lemma OrderDoesNotMatter(paths: seq<seq<Key>>, others: seq<seq<Key>>)
    requires multiset(paths) == multiset(others)
    ensures Build(paths) == Build(others)
  {
    var t, u := Build(paths), Build(others);
    forall q
      ensures At(t, q).Some? <==> At(u, q).Some?
      ensures KeysAt(t, q) == KeysAt(u, q) && (LeafAt(t, q) <==> LeafAt(u, q))
    {
      NodeCounts(paths, q);
      NodeCounts(others, q);
      CountOfMultiset(paths, others, Extends(q));
      CountOfMultiset(paths, others, EndsAt(q));
      RootIsNoLeaf(paths);
      RootIsNoLeaf(others);
    }
    SameNodes(t, u);
  }

  lemma {:induction false} RootIsNoLeaf(paths: seq<seq<Key>>)
    ensures !Build(paths).leaf
  {
    if paths != [] {
      RootIsNoLeaf(paths[..|paths| - 1]);
    }
  }
}
