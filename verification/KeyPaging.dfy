/** Key names in etcd's byte order, and the listing that pages through a prefix of them
    (plugins/etcd/kv.go). */
module KeyPaging {
  import opened Common

  type Key = seq<Byte>

  /** etcd's order of keys, which is Go's order of strings. */
  predicate Less(a: Key, b: Key) {
    b != [] && (a == [] || a[0] < b[0] || (a[0] == b[0] && Less(a[1..], b[1..])))
  }

  predicate AtMost(a: Key, b: Key) {
    !Less(b, a)
  }

  predicate HasPrefix(k: Key, prefix: Key) {
    prefix <= k
  }

  // ----- the range a request asks for ------------------------------------------------

  /** A range request: from `start`, up to and without `end`, where the single zero byte
      means the end of the keyspace; at most `limit` keys, in ascending order. */
  datatype Request = Request(start: Key, end: Key, limit: nat)

  const TO_THE_END: Key := [0]

  predicate InRange(k: Key, r: Request) {
    AtMost(r.start, k) && (r.end == TO_THE_END || Less(k, r.end))
  }

  /** etcd's end of a prefix: its last byte below 0xff one higher and the rest dropped,
      or the end of the keyspace. */
  function RangeEnd(prefix: Key): Key {
    if prefix == [] then TO_THE_END
    else
      var last := |prefix| - 1;
      if prefix[last] < 0xff then prefix[..last] + [prefix[last] + 1]
      else RangeEnd(prefix[..last])
  }

  function KeyFetchOptions(prefix: Key, after: Key, limit: nat): Request {
    var start := if after != [] && AtMost(prefix, after) then after + [0] else prefix;
    if prefix == [] then Request(if start == [] then [0] else start, TO_THE_END, limit + 1)
    else if start == prefix then Request(prefix, RangeEnd(prefix), limit + 1)
    else Request(start, RangeEnd(prefix), limit + 1)
  }

  // ----- facts about the order ----------------------------------------------------------

  lemma {:induction false} LessIrreflexive(a: Key)
    ensures !Less(a, a)
  {
    if a != [] {
      LessIrreflexive(a[1..]);
    }
  }

  lemma {:induction false} LessTransitive(a: Key, b: Key, c: Key)
    requires Less(a, b) && Less(b, c)
    ensures Less(a, c)
  {
    if a != [] && a[0] == b[0] && b[0] == c[0] {
      LessTransitive(a[1..], b[1..], c[1..]);
    }
  }

  lemma {:induction false} LessTotal(a: Key, b: Key)
    ensures Less(a, b) || a == b || Less(b, a)
  {
    if a != [] && b != [] && a[0] == b[0] {
      LessTotal(a[1..], b[1..]);
      if a[1..] == b[1..] {
        assert a == [a[0]] + a[1..] && b == [b[0]] + b[1..];
      }
    }
  }

  /** The key with a zero byte behind it is the least key greater than it. */
  lemma {:induction false} LeastGreater(after: Key, k: Key)
    ensures AtMost(after + [0], k) <==> Less(after, k)
  {
    if after == [] {
      assert after + [0] == [0] && [0][1..] == [];
      if k != [] {
        assert Less(k, [0]) ==> Less(k[1..], [0][1..]);
      }
    } else if k != [] && k[0] == after[0] {
      assert (after + [0])[1..] == after[1..] + [0];
      LeastGreater(after[1..], k[1..]);
    }
  }

  lemma PrefixTail(prefix: Key, k: Key)
    requires prefix != [] && k != []
    ensures HasPrefix(k, prefix) <==> k[0] == prefix[0] && HasPrefix(k[1..], prefix[1..])
  {
    assert k == [k[0]] + k[1..] && prefix == [prefix[0]] + prefix[1..];
    if HasPrefix(k, prefix) {
      assert k[1..][..|prefix| - 1] == k[..|prefix|][1..];
    }
  }

  /** From a prefix on, the keys below its range end are exactly those that extend it. */
  lemma {:induction false} RangeIsPrefix(prefix: Key, k: Key)
    requires prefix != []
    ensures
      var end := RangeEnd(prefix);
      AtMost(prefix, k) && (end == TO_THE_END || Less(k, end)) <==> HasPrefix(k, prefix)
  {
    RangeEndShape(prefix);
    var end, rest := RangeEnd(prefix), RangeEnd(prefix[1..]);
    if rest != TO_THE_END {
      RangeEndShape(prefix[1..]);
      assert |end| > 1;
    }
    if k != [] {
      PrefixTail(prefix, k);
      if k[0] == prefix[0] && |prefix| > 1 {
        RangeIsPrefix(prefix[1..], k[1..]);
        if rest != TO_THE_END {
          assert ([prefix[0]] + rest)[1..] == rest;
        }
      } else {
        assert |prefix| == 1 ==> prefix[1..] == [] && rest == TO_THE_END;
        assert rest == TO_THE_END && prefix[0] < 0xff ==> end == [prefix[0] + 1] && end[1..] == [];
        if k[0] == prefix[0] {
          assert AtMost(prefix, k) && (end == TO_THE_END || Less(k, end));
        } else if k[0] > prefix[0] {
          assert end != TO_THE_END && !Less(k, end);
        }
      }
    }
  }

  /** The end of a prefix, seen from its first byte. */
  lemma {:induction false} RangeEndShape(prefix: Key)
    requires prefix != []
    ensures
      var end, rest := RangeEnd(prefix), RangeEnd(prefix[1..]);
      if rest != TO_THE_END then end == [prefix[0]] + rest
      else if prefix[0] < 0xff then end == [prefix[0] + 1]
      else end == TO_THE_END
    ensures RangeEnd(prefix) != TO_THE_END ==> Proper(RangeEnd(prefix))
  {
    var last := |prefix| - 1;
    if last == 0 {
      assert prefix[..0] == [] && prefix[1..] == [];
      assert RangeEnd(prefix[1..]) == TO_THE_END;
    } else {
      var tail := prefix[1..];
      assert tail[..last - 1] == prefix[..last][1..];
      assert tail[last - 1] == prefix[last];
      if prefix[last] < 0xff {
        assert prefix[..last] == [prefix[0]] + tail[..last - 1];
        assert RangeEnd(prefix) == [prefix[0]] + RangeEnd(tail);
        assert Proper(RangeEnd(tail));
      } else {
        RangeEndShape(prefix[..last]);
      }
    }
  }

  /** A range end that is not the end of the keyspace ends above a zero byte. */
  predicate Proper(end: Key) {
    end != [] && end[|end| - 1] > 0
  }

  // ----- pages --------------------------------------------------------------------------

  /** A keyspace, in ascending order; etcd holds no empty key. */
  ghost predicate Keyspace(keys: seq<Key>) {
    && (forall i, j | 0 <= i < j < |keys| :: Less(keys[i], keys[j]))
    && (forall i | 0 <= i < |keys| :: keys[i] != [])
  }

  /** The keys of a range, in order. */
  function Served(keys: seq<Key>, r: Request): seq<Key> {
    if keys == [] then []
    else if InRange(keys[0], r) then [keys[0]] + Served(keys[1..], r)
    else Served(keys[1..], r)
  }

  function FirstOf(keys: seq<Key>, limit: nat): seq<Key> {
    if |keys| <= limit then keys else keys[..limit]
  }

  /** etcd's answer. */
  function Get(keys: seq<Key>, r: Request): seq<Key> {
    FirstOf(Served(keys, r), r.limit)
  }

  datatype Table = Table(rows: seq<Key>, next: Option<Key>)

  /** kvListTable: the rows of a page, and where the next begins when there is one. */
  method KvListTable(kvs: seq<Key>, limit: nat) returns (t: Table)
    requires limit >= 1
    ensures t == TableOf(kvs, limit)
  {
    t := Table([], None);
    var last := [];
    for i := 0 to |kvs|
      invariant i <= limit
      invariant t == Table(kvs[..i], None)
      invariant i > 0 ==> last == kvs[i - 1]
    {
      if i == limit {
        t := t.(next := Some(last));
        break;
      }
      last := kvs[i];
      t := t.(rows := t.rows + [last]);
    }
  }

  function TableOf(kvs: seq<Key>, limit: nat): Table
    requires limit >= 1
  {
    Table(FirstOf(kvs, limit), if |kvs| > limit then Some(kvs[limit - 1]) else None)
  }

  /** One call of the listing. */
  function ListPage(keys: seq<Key>, prefix: Key, after: Key, limit: nat): Table
    requires limit >= 1
  {
    TableOf(Get(keys, KeyFetchOptions(prefix, after, limit)), limit)
  }

  /** The keys a listing of `prefix` has left to show after `after`, in order. */
  function Wanted(keys: seq<Key>, prefix: Key, after: Key): seq<Key> {
    if keys == [] then []
    else if HasPrefix(keys[0], prefix) && Less(after, keys[0]) then [keys[0]] + Wanted(keys[1..], prefix, after)
    else Wanted(keys[1..], prefix, after)
  }

  /** The range asked for holds exactly the keys of the prefix past `after`, wherever
      `after` sorts: before the prefix's range, inside it or past it. */
  lemma RequestIsExact(prefix: Key, after: Key, limit: nat, k: Key)
    requires k != []
    ensures InRange(k, KeyFetchOptions(prefix, after, limit)) <==> HasPrefix(k, prefix) && Less(after, k)
  {
    if after != [] && AtMost(prefix, after) {
      LeastGreater(after, k);
      StartIsPastPrefix(prefix, after, k);
      if prefix != [] {
        RangeIsPrefix(prefix, k);
      }
    } else if prefix == [] {
      LeastGreater([], k);
      assert [] + [0] == TO_THE_END;
    } else {
      RangeIsPrefix(prefix, k);
      if after != [] && AtMost(prefix, k) {
        BelowAtMost(after, prefix, k);
      }
    }
  }

  lemma BelowAtMost(a: Key, b: Key, c: Key)
    requires Less(a, b) && AtMost(b, c)
    ensures Less(a, c)
  {
    LessTotal(b, c);
    if b != c {
      LessTransitive(a, b, c);
    }
  }

  /** A start past `after` is past the prefix, and is not the prefix itself. */
  lemma StartIsPastPrefix(prefix: Key, after: Key, k: Key)
    requires AtMost(prefix, after)
    ensures after + [0] != prefix
    ensures Less(after, k) ==> AtMost(prefix, k)
  {
    LeastGreater(after, prefix);
    LessIrreflexive(prefix);
    if Less(after, k) && Less(k, prefix) {
      LessTransitive(after, k, prefix);
    }
  }

  lemma {:induction false} ServedIsWanted(keys: seq<Key>, prefix: Key, after: Key, limit: nat)
    requires forall i | 0 <= i < |keys| :: keys[i] != []
    ensures Served(keys, KeyFetchOptions(prefix, after, limit)) == Wanted(keys, prefix, after)
  {
    if keys != [] {
      RequestIsExact(prefix, after, limit, keys[0]);
      ServedIsWanted(keys[1..], prefix, after, limit);
    }
  }

  /** One page is exactly the first `limit` keys with the prefix past `after`, and names
      its last row as the cursor exactly when there are more. */
  lemma PageIsExact(keys: seq<Key>, prefix: Key, after: Key, limit: nat)
    requires Keyspace(keys) && limit >= 1
    ensures
      var t, wanted := ListPage(keys, prefix, after, limit), Wanted(keys, prefix, after);
      && t.rows == FirstOf(wanted, limit)
      && (t.next.Some? <==> |wanted| > limit)
      && (t.next.Some? ==> t.next.value == t.rows[|t.rows| - 1])
  {
    ServedIsWanted(keys, prefix, after, limit);
  }

  lemma {:induction false} WantedIsSorted(keys: seq<Key>, prefix: Key, after: Key)
    requires Keyspace(keys)
    ensures Keyspace(Wanted(keys, prefix, after))
    ensures forall k | k in Wanted(keys, prefix, after) :: k in keys && Less(after, k)
  {
    if keys != [] {
      assert Keyspace(keys[1..]);
      WantedIsSorted(keys[1..], prefix, after);
      var rest := Wanted(keys[1..], prefix, after);
      forall k | k in rest ensures Less(keys[0], k) {
        var i: nat :| i < |keys[1..]| && keys[1..][i] == k;
        assert keys[i + 1] == k;
      }
    }
  }

  /** Going on after the m-th key that was left leaves the keys after it. */
  lemma {:induction false} WantedAfter(keys: seq<Key>, prefix: Key, after: Key, m: nat)
    requires Keyspace(keys) && 0 < m <= |Wanted(keys, prefix, after)|
    ensures
      var wanted := Wanted(keys, prefix, after);
      Wanted(keys, prefix, wanted[m - 1]) == wanted[m..]
    decreases |keys|
  {
    var wanted := Wanted(keys, prefix, after);
    var x := wanted[m - 1];
    var rest := keys[1..];
    assert Keyspace(rest);
    WantedIsSorted(keys, prefix, after);
    if HasPrefix(keys[0], prefix) && Less(after, keys[0]) {
      assert wanted[1..] == Wanted(rest, prefix, after);
      if m == 1 {
        LessIrreflexive(x);
        WantedAll(rest, prefix, after, x);
      } else {
        WantedIsSorted(rest, prefix, after);
        assert x in Wanted(rest, prefix, after);
        assert x in rest;
        var i: nat :| i < |rest| && rest[i] == x;
        assert Less(keys[0], keys[i + 1]);
        NotBelow(keys[0], x);
        WantedAfter(rest, prefix, after, m - 1);
        assert wanted[1..][m - 1..] == wanted[m..];
      }
    } else {
      WantedAfter(rest, prefix, after, m);
      WantedIsSorted(rest, prefix, after);
      if HasPrefix(keys[0], prefix) && Less(x, keys[0]) {
        LessTransitive(after, x, keys[0]);
      }
    }
  }

  lemma NotBelow(a: Key, b: Key)
    requires Less(a, b)
    ensures !Less(b, a)
  {
    if Less(b, a) {
      LessTransitive(a, b, a);
      LessIrreflexive(a);
    }
  }

  /** All keys are past `x`, so starting at x or at `after` below it is the same. */
  lemma {:induction false} WantedAll(keys: seq<Key>, prefix: Key, after: Key, x: Key)
    requires forall i | 0 <= i < |keys| :: Less(x, keys[i])
    requires Less(after, x)
    ensures Wanted(keys, prefix, x) == Wanted(keys, prefix, after)
  {
    if keys != [] {
      LessTransitive(after, x, keys[0]);
      WantedAll(keys[1..], prefix, after, x);
    }
  }

  /** The pages a caller that follows the cursor is shown, one after the other. */
  ghost function AllPages(keys: seq<Key>, prefix: Key, after: Key, limit: nat): seq<Table>
    requires Keyspace(keys) && limit >= 1
    decreases |Wanted(keys, prefix, after)|
  {
    var t := ListPage(keys, prefix, after, limit);
    PageIsExact(keys, prefix, after, limit);
    if t.next.None? then [t]
    else
      WantedAfter(keys, prefix, after, limit);
      [t] + AllPages(keys, prefix, t.next.value, limit)
  }

  function RowsOf(pages: seq<Table>): seq<Key> {
    if pages == [] then [] else pages[0].rows + RowsOf(pages[1..])
  }

  lemma {:induction false} PagesFrom(keys: seq<Key>, prefix: Key, after: Key, limit: nat)
    requires Keyspace(keys) && limit >= 1
    ensures RowsOf(AllPages(keys, prefix, after, limit)) == Wanted(keys, prefix, after)
    decreases |Wanted(keys, prefix, after)|
  {
    var t, wanted := ListPage(keys, prefix, after, limit), Wanted(keys, prefix, after);
    PageIsExact(keys, prefix, after, limit);
    if t.next.Some? {
      WantedAfter(keys, prefix, after, limit);
      PagesFrom(keys, prefix, t.next.value, limit);
      TakeDrop(wanted, limit);
      assert AllPages(keys, prefix, after, limit)[1..] == AllPages(keys, prefix, t.next.value, limit);
    }
  }

  /** The keys with a prefix, in order. */
  function Under(keys: seq<Key>, prefix: Key): seq<Key> {
    if keys == [] then []
    else if HasPrefix(keys[0], prefix) then [keys[0]] + Under(keys[1..], prefix)
    else Under(keys[1..], prefix)
  }

  /** Paging is exact: following the cursor from the start ends, and what it shows is
      every key with the prefix, in ascending order, each once, for any prefix (the
      empty one and one of 0xff bytes included) and any page size. */
  lemma {:induction false} PagingIsExact(keys: seq<Key>, prefix: Key, limit: nat)
    requires Keyspace(keys) && limit >= 1
    ensures RowsOf(AllPages(keys, prefix, [], limit)) == Under(keys, prefix)
    ensures Picks(RowsOf(AllPages(keys, prefix, [], limit)), keys, (k: Key) => prefix <= k, (k: Key) => k)
    ensures forall i, j | 0 <= i < j < |Under(keys, prefix)| :: Less(Under(keys, prefix)[i], Under(keys, prefix)[j])
  {
    PagesFrom(keys, prefix, [], limit);
    WantedFromStart(keys, prefix);
    WantedIsSorted(keys, prefix, []);
    UnderArePicked(keys, prefix);
  }

  lemma {:induction false} UnderArePicked(keys: seq<Key>, prefix: Key)
    ensures Picks(Under(keys, prefix), keys, (k: Key) => prefix <= k, (k: Key) => k)
  {
    if keys != [] {
      UnderArePicked(keys[1..], prefix);
      PicksFirst(Under(keys[1..], prefix), keys, (k: Key) => prefix <= k, (k: Key) => k);
    }
  }

  lemma {:induction false} WantedFromStart(keys: seq<Key>, prefix: Key)
    requires forall i | 0 <= i < |keys| :: keys[i] != []
    ensures Wanted(keys, prefix, []) == Under(keys, prefix)
  {
    if keys != [] {
      WantedFromStart(keys[1..], prefix);
    }
  }
}
