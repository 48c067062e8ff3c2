/** Merging what several namespaces answered (plugins/kube/overviewlist.go: readEach) and
    what several certificate reads were (plugins/kube/cert.go: mergeCertReads). */
module KubeListing {
  import opened Common

  type Namespace = string

  datatype Answer<T> = Read(items: seq<T>) | Failed(error: string)

  datatype Unread = Unread(namespace: Namespace, error: string)

  function ItemsOf<T>(results: seq<Answer<T>>): seq<T> {
    if results == [] then []
    else
      var n := |results| - 1;
      if results[n].Read? then ItemsOf(results[..n]) + results[n].items else ItemsOf(results[..n])
  }

  function UnreadOf<T>(scopes: seq<Namespace>, results: seq<Answer<T>>): seq<Unread>
    requires |scopes| == |results|
  {
    if results == [] then []
    else
      var n := |results| - 1;
      if results[n].Read? then UnreadOf(scopes[..n], results[..n])
      else UnreadOf(scopes[..n], results[..n]) + [Unread(scopes[n], results[n].error)]
  }

  function DidFail<T>(): Answer<T> -> bool {
    (a: Answer<T>) => a.Failed?
  }

  function CountOf<T>(): Answer<T> -> nat {
    (a: Answer<T>) => match a case Read(items) => |items| case Failed(_) => 0
  }

  ghost predicate StandAt<T>(items: seq<T>, from: nat, own: seq<T>) {
    from + |own| <= |items| && items[from..from + |own|] == own
  }

  /** The items of scope i stand together and in their order, behind those of the scopes
      before it that answered. */
  ghost predicate ItemsStand<T>(results: seq<Answer<T>>, items: seq<T>, i: nat)
    requires i < |results|
  {
    results[i].Read? ==> StandAt(items, SumOf(results[..i], CountOf()), results[i].items)
  }

  /** Scope i, if it did not answer, is named with its own error, behind those before it. */
  ghost predicate IsNamed<T>(scopes: seq<Namespace>, results: seq<Answer<T>>, failed: seq<Unread>, i: nat)
    requires i < |results| == |scopes|
  {
    results[i].Failed? ==> PickedAt(failed, CountIf(results[..i], DidFail()), Unread(scopes[i], results[i].error))
  }

  lemma StandAtMore<T>(items: seq<T>, from: nat, own: seq<T>, more: seq<T>)
    requires StandAt(items, from, own)
    ensures StandAt(items + more, from, own)
  {
    assert (items + more)[from..from + |own|] == items[from..from + |own|];
  }

  lemma StandsLast<T>(items: seq<T>, more: seq<T>)
    ensures StandAt(items + more, |items|, more)
  {
  }

  lemma {:induction false} ItemsInOrder<T>(results: seq<Answer<T>>)
    ensures |ItemsOf(results)| == SumOf(results, CountOf())
    ensures forall i | 0 <= i < |results| :: ItemsStand(results, ItemsOf(results), i)
  {
    if results != [] {
      var n := |results| - 1;
      var items := ItemsOf(results[..n]);
      ItemsInOrder(results[..n]);
      var more := if results[n].Read? then results[n].items else [];
      assert ItemsOf(results) == items + more;
      StandsLast(items, more);
      hide ItemsOf, SumOf, StandAt;
      forall i | 0 <= i < n ensures ItemsStand(results, ItemsOf(results), i) {
        assert ItemsStand(results[..n], items, i);
        assert results[..n][..i] == results[..i] && results[..n][i] == results[i];
        if results[i].Read? {
          StandAtMore(items, SumOf(results[..i], CountOf()), results[i].items, more);
        }
      }
    }
  }

  lemma {:induction false} FailedInOrder<T>(scopes: seq<Namespace>, results: seq<Answer<T>>)
    requires |scopes| == |results|
    ensures |UnreadOf(scopes, results)| == CountIf(results, DidFail())
    ensures forall i | 0 <= i < |results| :: IsNamed(scopes, results, UnreadOf(scopes, results), i)
  {
    if results != [] {
      var n := |results| - 1;
      var failed := UnreadOf(scopes[..n], results[..n]);
      FailedInOrder(scopes[..n], results[..n]);
      assert UnreadOf(scopes, results) == failed + if results[n].Read? then [] else [Unread(scopes[n], results[n].error)];
      hide UnreadOf, CountIf;
      forall i | 0 <= i < n ensures IsNamed(scopes, results, UnreadOf(scopes, results), i) {
        assert IsNamed(scopes[..n], results[..n], failed, i);
        assert results[..n][..i] == results[..i] && results[..n][i] == results[i];
      }
    }
  }

  /** The items of the scopes that answered and the scopes that did not, both in order, and
      the first failure when nothing answered. */
  method ReadEach<T>(scopes: seq<Namespace>, results: seq<Answer<T>>)
    returns (items: seq<T>, failed: seq<Unread>, err: Option<string>)
    requires |scopes| == |results| > 0
    ensures items == ItemsOf(results) && failed == UnreadOf(scopes, results)
    ensures |items| == SumOf(results, CountOf()) && |failed| == CountIf(results, DidFail())
    ensures forall i | 0 <= i < |results| :: ItemsStand(results, items, i) && IsNamed(scopes, results, failed, i)
    ensures err.Some? <==> forall i | 0 <= i < |results| :: results[i].Failed?
    ensures err.Some? ==> items == [] && err == Some(results[0].error)
  {
    items, failed := [], [];
    for i := 0 to |results|
      invariant items == ItemsOf(results[..i]) && failed == UnreadOf(scopes[..i], results[..i])
    {
      assert results[..i + 1][..i] == results[..i] && scopes[..i + 1][..i] == scopes[..i];
      match results[i] {
        case Failed(e) => failed := failed + [Unread(scopes[i], e)];
        case Read(more) => items := items + more;
      }
    }
    assert results[..|results|] == results && scopes[..|results|] == scopes;
    err := None;
    FailedExactlyWhen(scopes, results);
    ItemsInOrder(results);
    FailedInOrder(scopes, results);
    if |failed| == |scopes| {
      err := Some(failed[0].error);
    }
  }

  lemma {:induction false} FailedExactlyWhen<T>(scopes: seq<Namespace>, results: seq<Answer<T>>)
    requires |scopes| == |results|
    ensures |UnreadOf(scopes, results)| == CountIf(results, DidFail()) <= |results|
    ensures |UnreadOf(scopes, results)| == |results| <==> forall i | 0 <= i < |results| :: results[i].Failed?
    ensures |UnreadOf(scopes, results)| == |results| ==> ItemsOf(results) == []
    ensures |UnreadOf(scopes, results)| == |results| > 0 ==> UnreadOf(scopes, results)[0] == Unread(scopes[0], results[0].error)
  {
    if results != [] {
      var n := |results| - 1;
      FailedExactlyWhen(scopes[..n], results[..n]);
      assert forall i | 0 <= i < n :: results[..n][i] == results[i];
    }
  }

  // ----- certificate reads ---------------------------------------------------------------------

  datatype CertRead<T> = CertRead(certs: seq<T>, reused: bool, at: int)

  function CertsOf<T>(list: seq<CertRead<T>>): seq<T> {
    if list == [] then [] else CertsOf(list[..|list| - 1]) + list[|list| - 1].certs
  }

  /** Reused when any read was, and then as old as the oldest of the ones that were. */
  ghost predicate OldestReused<T>(list: seq<CertRead<T>>, reused: bool, at: int) {
    && (reused <==> exists i :: 0 <= i < |list| && list[i].reused)
    && (reused ==>
          && (exists i :: 0 <= i < |list| && list[i].reused && list[i].at == at)
          && forall i | 0 <= i < |list| && list[i].reused :: at <= list[i].at)
  }

  function LengthOf<T>(): CertRead<T> -> nat {
    (r: CertRead<T>) => |r.certs|
  }

  /** Each read's certificates stand together, behind those of the reads before it. */
  lemma {:induction false} CertsInOrder<T>(list: seq<CertRead<T>>)
    ensures |CertsOf(list)| == SumOf(list, LengthOf())
    ensures forall i | 0 <= i < |list| :: StandAt(CertsOf(list), SumOf(list[..i], LengthOf()), list[i].certs)
  {
    if list != [] {
      var n := |list| - 1;
      var certs := CertsOf(list[..n]);
      CertsInOrder(list[..n]);
      StandsLast(certs, list[n].certs);
      assert CertsOf(list) == certs + list[n].certs;
      hide CertsOf, SumOf, StandAt;
      forall i | 0 <= i < n ensures StandAt(CertsOf(list), SumOf(list[..i], LengthOf()), list[i].certs) {
        assert list[..n][..i] == list[..i] && list[..n][i] == list[i];
        StandAtMore(certs, SumOf(list[..i], LengthOf()), list[i].certs, list[n].certs);
      }
    }
  }

  method MergeCertReads<T>(list: seq<CertRead<T>>) returns (out: CertRead<T>)
    ensures out.certs == CertsOf(list) && OldestReused(list, out.reused, out.at)
    ensures |out.certs| == SumOf(list, LengthOf())
    ensures forall i | 0 <= i < |list| :: StandAt(out.certs, SumOf(list[..i], LengthOf()), list[i].certs)
  {
    CertsInOrder(list);
    hide StandAt;
    out := CertRead([], false, 0);
    for i := 0 to |list|
      invariant out.certs == CertsOf(list[..i]) && OldestReused(list[..i], out.reused, out.at)
    {
      assert list[..i + 1][..i] == list[..i];
      var r := list[i];
      ghost var was := out;
      out := out.(certs := out.certs + r.certs);
      if r.reused && (!out.reused || r.at < out.at) {
        out := out.(reused := true, at := r.at);
      }
      Older(list[..i], r, was.reused, was.at);
      assert list[..i + 1] == list[..i] + [r];
    }
    assert list[..|list|] == list;
  }

  lemma Older<T>(list: seq<CertRead<T>>, r: CertRead<T>, reused: bool, at: int)
    requires OldestReused(list, reused, at)
    ensures
      if r.reused && (!reused || r.at < at) then OldestReused(list + [r], true, r.at)
      else OldestReused(list + [r], reused, at)
  {
    var more := list + [r];
    assert more[|list|] == r;
    assert forall i | 0 <= i < |list| :: more[i] == list[i];
    if reused {
      var i :| 0 <= i < |list| && list[i].reused && list[i].at == at;
      assert more[i].reused && more[i].at == at;
    }
  }
}
