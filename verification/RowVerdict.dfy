/** The verdict made of the rows' clauses, the worst first (plugins/kube/overviewrows.go). */
module RowVerdict {
  import opened Common
  import opened RowLayout

  datatype Rank = RankFail | RankUnread | RankWarn

  /** A fact the verdict may name. */
  datatype Clause = Clause(rank: Rank, text: string)

  function Concat(rows: seq<seq<Clause>>): seq<Clause> {
    if rows == [] then [] else Concat(rows[..|rows| - 1]) + rows[|rows| - 1]
  }

  function OfRank(all: seq<Clause>, r: Rank): seq<Clause> {
    if all == [] then []
    else
      var c := all[|all| - 1];
      if c.rank == r then OfRank(all[..|all| - 1], r) + [c] else OfRank(all[..|all| - 1], r)
  }

  /** The clauses by rank, those of one rank in the order they came in. */
  function ByRank(all: seq<Clause>): seq<Clause> {
    OfRank(all, RankFail) + OfRank(all, RankUnread) + OfRank(all, RankWarn)
  }

  function Order(r: Rank): nat {
    match r
    case RankFail => 0
    case RankUnread => 1
    case RankWarn => 2
  }

  lemma {:induction false} OfRankHas(all: seq<Clause>, r: Rank)
    ensures forall c :: c in OfRank(all, r) <==> c in all && c.rank == r
    ensures forall i | 0 <= i < |OfRank(all, r)| :: OfRank(all, r)[i].rank == r
  {
    if all != [] {
      OfRankHas(all[..|all| - 1], r);
      assert all == all[..|all| - 1] + [all[|all| - 1]];
    }
  }

  lemma {:induction false} OfRankJoin(a: seq<Clause>, b: seq<Clause>, r: Rank)
    ensures OfRank(a + b, r) == OfRank(a, r) + OfRank(b, r)
  {
    if b == [] {
      assert a + b == a;
    } else {
      assert (a + b)[..|a + b| - 1] == a + b[..|b| - 1];
      OfRankJoin(a, b[..|b| - 1], r);
    }
  }

  lemma {:induction false} OfOneRank(all: seq<Clause>, own: Rank, r: Rank)
    requires forall i | 0 <= i < |all| :: all[i].rank == own
    ensures OfRank(all, r) == if r == own then all else []
  {
    if all != [] {
      OfOneRank(all[..|all| - 1], own, r);
      assert all == all[..|all| - 1] + [all[|all| - 1]];
    }
  }

  /** The order is by rank, and stable: each rank's clauses are the ones there were, in
      the order they were in. */
  lemma ByRankIsStable(all: seq<Clause>, r: Rank)
    ensures OfRank(ByRank(all), r) == OfRank(all, r)
    ensures InRankOrder(ByRank(all))
    ensures forall c :: c in ByRank(all) <==> c in all
  {
    var f, u, w := OfRank(all, RankFail), OfRank(all, RankUnread), OfRank(all, RankWarn);
    OfRankHas(all, RankFail);
    OfRankHas(all, RankUnread);
    OfRankHas(all, RankWarn);
    RankOfThree(f, u, w, r);
    hide OfRank, InRankOrder;
    ThreeInOrder(f, u, w);
  }

  ghost predicate InRankOrder(all: seq<Clause>) {
    forall i, j | 0 <= i < j < |all| :: Order(all[i].rank) <= Order(all[j].rank)
  }

  lemma RankOfThree(f: seq<Clause>, u: seq<Clause>, w: seq<Clause>, r: Rank)
    requires forall i | 0 <= i < |f| :: f[i].rank == RankFail
    requires forall i | 0 <= i < |u| :: u[i].rank == RankUnread
    requires forall i | 0 <= i < |w| :: w[i].rank == RankWarn
    ensures OfRank(f + u + w, r) == match r case RankFail => f case RankUnread => u case RankWarn => w
  {
    hide OfRank;
    OfRankJoin(f, u, r);
    OfRankJoin(f + u, w, r);
    OfOneRank(f, RankFail, r);
    OfOneRank(u, RankUnread, r);
    OfOneRank(w, RankWarn, r);
    Nothing(f, u, w);
  }

  lemma Nothing<T>(f: seq<T>, u: seq<T>, w: seq<T>)
    ensures f + [] + [] == f && [] + u + [] == u && [] + [] + w == w
  {
  }

  lemma ThreeInOrder(f: seq<Clause>, u: seq<Clause>, w: seq<Clause>)
    requires forall i | 0 <= i < |f| :: f[i].rank == RankFail
    requires forall i | 0 <= i < |u| :: u[i].rank == RankUnread
    requires forall i | 0 <= i < |w| :: w[i].rank == RankWarn
    ensures
      var all := f + u + w;
      && InRankOrder(all)
      && (forall c :: c in all <==> c in f || c in u || c in w)
  {
  }

  function Texts(all: seq<Clause>): (texts: seq<string>)
    ensures |texts| == |all|
  {
    seq(|all|, i requires 0 <= i < |all| => all[i].text)
  }

  const DASH := WHY_LEAD

  function VerdictOf(all: seq<Clause>, blind: bool): string {
    if all == [] then "ok" else Said(Word(ByRank(all), blind), ByRank(all))
  }

  function Word(sorted: seq<Clause>, blind: bool): string {
    if (sorted != [] && sorted[0].rank == RankFail) || blind then "fail" else "warn"
  }

  function Said(word: string, sorted: seq<Clause>): string {
    word + DASH + Fitted(Texts(sorted), ROW_ROOM - |word + DASH|, PlusCount, true)
  }

  predicate Has(row: seq<Clause>, rank: Rank) {
    exists i :: 0 <= i < |row| && row[i].rank == rank
  }

  predicate HasRank(rows: seq<seq<Clause>>, rank: Rank) {
    exists r :: 0 <= r < |rows| && Has(rows[r], rank)
  }

  /** Clause i of row r is of the worst rank there is, and the first of that rank, by row
      and then by place. */
  ghost predicate IsFirstWorst(rows: seq<seq<Clause>>, r: nat, i: nat) {
    && IsFirst(rows, r, i)
    && rows[r][i].rank == (if HasRank(rows, RankFail) then RankFail else if HasRank(rows, RankUnread) then RankUnread else RankWarn)
  }

  /** No clause before it, by row and then by place, is of its rank. */
  ghost predicate IsFirst(rows: seq<seq<Clause>>, r: nat, i: nat) {
    && r < |rows| && i < |rows[r]|
    && !Has(rows[r][..i], rows[r][i].rank)
    && (forall q | 0 <= q < r :: !Has(rows[q], rows[r][i].rank))
  }

  /** Behind the word and the dash stand the first k texts and the count of the others, no
      wider together than a row; only the first, if not even that fits; and never fewer
      than fit. */
  ghost predicate ListsAsFits(out: string, texts: seq<string>, k: nat) {
    && |out| >= 7 && ListsFirst(out[7..], texts, k, PlusCount)
    && (|out| <= ROW_ROOM || k == 1)
    && forall j | k < j <= |texts| :: 7 + |Fit(texts, j, PlusCount)| > ROW_ROOM
  }

  lemma VerdictFits(all: seq<Clause>, blind: bool) returns (k: nat)
    requires all != []
    ensures ListsAsFits(VerdictOf(all, blind), Texts(ByRank(all)), k)
  {
    WorstFirst(all);
    var sorted := ByRank(all);
    var lead := Word(sorted, blind) + DASH;
    assert |lead| == 7;
    k := FittedLists(Texts(sorted), ROW_ROOM - |lead|, PlusCount, true);
    var list := Fitted(Texts(sorted), ROW_ROOM - |lead|, PlusCount, true);
    assert VerdictOf(all, blind) == lead + list && (lead + list)[7..] == list;
    if k == 0 {
      k := 1;
    }
  }

  /** The verdict of the rows: ok exactly when none of them has a clause; a failure exactly
      when a clause of some row is one or nothing at all could be read; and the first of
      the worst clauses is always named, whole, before the others. */
  method Verdict(rows: seq<seq<Clause>>, blind: bool) returns (out: string)
    ensures out == VerdictOf(Concat(rows), blind)
    ensures out == "ok" <==> forall r | 0 <= r < |rows| :: rows[r] == []
    ensures (out != "" && out[0] == 'f') <==> out != "ok" && (blind || HasRank(rows, RankFail))
    ensures out != "ok" ==> exists r: nat, i: nat ::
              && IsFirstWorst(rows, r, i)
              && (if blind || HasRank(rows, RankFail) then "fail" else "warn") + DASH + rows[r][i].text <= out
    ensures out != "ok" ==> exists k :: ListsAsFits(out, Texts(ByRank(Concat(rows))), k)
  {
    var all := Collect(rows);
    if all != [] {
      ghost var k := VerdictFits(all, blind);
    }
    NamesFirstWorst(rows, blind);
    if |all| == 0 {
      return "ok";
    }
    var sorted := ByRank(all);
    WorstFirst(all);
    hide ByRank, Concat, Said;
    var word := "warn";
    if sorted[0].rank == RankFail || blind {
      word := "fail";
    }
    out := Say(word, sorted);
  }

  method Say(word: string, sorted: seq<Clause>) returns (out: string)
    ensures out == Said(word, sorted)
  {
    var list := FitList(Texts(sorted), ROW_ROOM - |word + DASH|, PlusCount, true);
    out := word + DASH + list;
  }

  method Collect(rows: seq<seq<Clause>>) returns (all: seq<Clause>)
    ensures all == Concat(rows)
  {
    all := [];
    for i := 0 to |rows|
      invariant all == Concat(rows[..i])
    {
      assert rows[..i + 1][..i] == rows[..i];
      all := all + rows[i];
    }
    assert rows[..|rows|] == rows;
  }

  /** ok exactly when no row has a clause; fail exactly when one is a failure or nothing at
      all could be read; and the first of the worst clauses is always named, whole. */
  lemma VerdictNamesTheWorst(all: seq<Clause>, blind: bool)
    ensures VerdictOf(all, blind) == "ok" <==> all == []
    ensures
      var failed := blind || exists c :: c in all && c.rank == RankFail;
      all != [] ==>
        && ByRank(all) != []
        && (if failed then "fail" else "warn") + DASH + ByRank(all)[0].text <= VerdictOf(all, blind)
        && forall c | c in all :: Order(ByRank(all)[0].rank) <= Order(c.rank)
  {
    if all != [] {
      WorstFirst(all);
      var sorted := ByRank(all);
      var lead := Word(sorted, blind) + DASH;
      FittedKeeps(Texts(sorted), ROW_ROOM - |lead|, PlusCount, true);
      hide Fitted, ByRank, Order;
      assert VerdictOf(all, blind)[0] == lead[0];
    }
  }

  lemma {:induction false} FirstInRow(all: seq<Clause>, rank: Rank) returns (k: nat)
    ensures OfRank(all, rank) == [] <==> !Has(all, rank)
    ensures OfRank(all, rank) != [] ==>
              k < |all| && all[k] == OfRank(all, rank)[0] && all[k].rank == rank && !Has(all[..k], rank)
  {
    k := 0;
    if all != [] {
      var last := |all| - 1;
      k := FirstInRow(all[..last], rank);
      assert forall i | 0 <= i < last :: all[..last][i] == all[i];
      if OfRank(all[..last], rank) == [] {
        k := last;
      } else {
        assert all[..last][..k] == all[..k];
      }
    }
  }

  lemma HasMore(rows: seq<seq<Clause>>, rank: Rank)
    requires rows != []
    ensures HasRank(rows, rank) <==> HasRank(rows[..|rows| - 1], rank) || Has(rows[|rows| - 1], rank)
    ensures !HasRank(rows[..|rows| - 1], rank) ==> forall q | 0 <= q < |rows| - 1 :: !Has(rows[q], rank)
  {
    hide Has;
    var front := rows[..|rows| - 1];
    assert forall q | 0 <= q < |front| :: front[q] == rows[q];
  }

  /** The first clause of a rank among those collected is the first by row and place. */
  lemma {:induction false} FirstInRows(rows: seq<seq<Clause>>, rank: Rank) returns (r: nat, i: nat)
    ensures OfRank(Concat(rows), rank) == [] <==> !HasRank(rows, rank)
    ensures OfRank(Concat(rows), rank) != [] ==>
              IsFirst(rows, r, i) && rows[r][i] == OfRank(Concat(rows), rank)[0] && rows[r][i].rank == rank
  {
    r, i := 0, 0;
    if rows != [] {
      var last := |rows| - 1;
      var front := rows[..last];
      r, i := FirstInRows(front, rank);
      OfRankJoin(Concat(front), rows[last], rank);
      var k := FirstInRow(rows[last], rank);
      HasMore(rows, rank);
      hide OfRank, Has, HasRank;
      if OfRank(Concat(front), rank) == [] {
        r, i := last, k;
      } else {
        assert rows[r] == front[r] && forall q | 0 <= q < r :: rows[q] == front[q];
      }
    }
  }

  lemma {:induction false} NothingCollected(rows: seq<seq<Clause>>)
    ensures Concat(rows) == [] <==> forall r | 0 <= r < |rows| :: rows[r] == []
  {
    if rows != [] {
      var last := |rows| - 1;
      NothingCollected(rows[..last]);
      assert forall q | 0 <= q < last :: rows[..last][q] == rows[q];
    }
  }

  lemma ByRankStarts(all: seq<Clause>)
    requires all != []
    ensures
      var f, u := OfRank(all, RankFail), OfRank(all, RankUnread);
      && (f == [] && u == [] ==> OfRank(all, RankWarn) != [])
      && ByRank(all) != []
      && ByRank(all)[0] == (if f != [] then f[0] else if u != [] then u[0] else OfRank(all, RankWarn)[0])
  {
    OfRankHas(all, all[0].rank);
    assert all[0] in all;
  }

  lemma FirstWorst(rows: seq<seq<Clause>>) returns (r: nat, i: nat)
    requires Concat(rows) != []
    ensures IsFirstWorst(rows, r, i) && ByRank(Concat(rows)) != [] && rows[r][i] == ByRank(Concat(rows))[0]
    ensures HasRank(rows, RankFail) <==> ByRank(Concat(rows))[0].rank == RankFail
  {
    ByRankStarts(Concat(rows));
    r, i := FirstInRows(rows, RankFail);
    var ru, iu := FirstInRows(rows, RankUnread);
    var rw, iw := FirstInRows(rows, RankWarn);
    hide OfRank, ByRank, Concat, HasRank, IsFirst;
    if !HasRank(rows, RankFail) {
      if HasRank(rows, RankUnread) { r, i := ru, iu; } else { r, i := rw, iw; }
    }
  }

  lemma NamesFirstWorst(rows: seq<seq<Clause>>, blind: bool)
    ensures
      var out := VerdictOf(Concat(rows), blind);
      && (out == "ok" <==> forall r | 0 <= r < |rows| :: rows[r] == [])
      && out != "" && (out[0] == 'f' <==> out != "ok" && (blind || HasRank(rows, RankFail)))
      && (out != "ok" ==> exists r: nat, i: nat ::
            && IsFirstWorst(rows, r, i)
            && (if blind || HasRank(rows, RankFail) then "fail" else "warn") + DASH + rows[r][i].text <= out)
  {
    var all := Concat(rows);
    NothingCollected(rows);
    VerdictNamesTheWorst(all, blind);
    if all != [] {
      var r, i := FirstWorst(rows);
      WorstFirst(all);
      hide ByRank, VerdictOf, Concat, HasRank, IsFirstWorst;
    }
  }

  lemma WorstFirst(all: seq<Clause>)
    requires all != []
    ensures ByRank(all) != []
    ensures forall c | c in all :: Order(ByRank(all)[0].rank) <= Order(c.rank)
    ensures ByRank(all)[0].rank == RankFail <==> exists c :: c in all && c.rank == RankFail
  {
    ByRankIsStable(all, RankFail);
    var sorted := ByRank(all);
    assert all[0] in all;
    assert sorted != [] by {
      assert all[0] in sorted;
    }
    assert sorted[0] in sorted;
    forall c | c in all ensures Order(sorted[0].rank) <= Order(c.rank) {
      assert c in sorted;
      var j :| 0 <= j < |sorted| && sorted[j] == c;
    }
  }
}
