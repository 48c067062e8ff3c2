/** How the outcomes of a cnpg listing become a page or the one error
    (plugins/cnpg/namespaces.go: scopes, without, settle). */
module NamespacePage {
  import opened Common
  import opened NamespaceReads

  /** The part of a selection a listing's scopes differ in. */
  datatype Selection = Selection(namespace: string, namespaces: seq<string>)

  /** The namespaces a selection reads, when it names any. */
  function Named(s: Selection): seq<string> {
    if s.namespaces != [] then s.namespaces
    else if s.namespace != "" then [s.namespace]
    else []
  }

  /** scopes: one selection for each namespace of a list, and the selection itself
      otherwise. */
  method Scopes(s: Selection) returns (out: seq<Selection>)
    ensures s.namespaces == [] ==> out == [s]
    ensures s.namespaces != [] ==> |out| == |s.namespaces|
    ensures s.namespaces != [] ==>
      forall i | 0 <= i < |out| :: out[i] == Selection(s.namespaces[i], [])
  {
    if |s.namespaces| == 0 {
      return [s];
    }
    out := [];
    for i := 0 to |s.namespaces|
      invariant |out| == i
      invariant forall k | 0 <= k < i :: out[k] == Selection(s.namespaces[k], [])
    {
      out := out + [Selection(s.namespaces[i], [])];
    }
  }

  /** The names outside `unread`, in order. */
  function Left(names: seq<string>, unread: seq<string>): seq<string> {
    if names == [] then []
    else if names[0] in unread then Left(names[1..], unread)
    else [names[0]] + Left(names[1..], unread)
  }

  function NotIn(names: seq<string>): string -> bool {
    (n: string) => n !in names
  }

  function Itself<T>(): T -> T {
    (t: T) => t
  }

  lemma {:induction false} LeftAreTheOthers(names: seq<string>, unread: seq<string>)
    ensures Picks(Left(names, unread), names, NotIn(unread), Itself())
  {
    if names != [] {
      LeftAreTheOthers(names[1..], unread);
      PicksFirst(Left(names[1..], unread), names, NotIn(unread), Itself());
    }
  }

  /** A selection narrowed to `left`: a list of one is the single name. */
  function Narrowed(s: Selection, left: seq<string>): Selection {
    if |left| == 1 then Selection(left[0], []) else Selection(s.namespace, left)
  }

  method Without(s: Selection, unread: seq<string>) returns (r: Selection)
    ensures r == if s.namespaces == [] then s else Narrowed(s, Left(s.namespaces, unread))
    ensures s.namespaces != [] ==> exists left ::
              && Picks(left, s.namespaces, NotIn(unread), Itself())
              && (|left| == 1 ==> r == Selection(left[0], []))
              && (|left| != 1 ==> r == Selection(s.namespace, left))
  {
    LeftAreTheOthers(s.namespaces, unread);
    if |s.namespaces| == 0 {
      return s;
    }
    var left := [];
    for i := 0 to |s.namespaces|
      invariant left + Left(s.namespaces[i..], unread) == Left(s.namespaces, unread)
    {
      assert s.namespaces[i..][1..] == s.namespaces[i + 1..];
      if s.namespaces[i] !in unread {
        left := left + [s.namespaces[i]];
      }
    }
    if |left| == 1 {
      return Selection(left[0], []);
    }
    return Selection(s.namespace, left);
  }

  /** The outcomes that did not answer, in order. */
  function Unread<T>(outs: seq<Outcome<T>>): seq<Outcome<T>> {
    if outs == [] then []
    else if outs[0].err.Some? then [outs[0]] + Unread(outs[1..])
    else Unread(outs[1..])
  }

  function ScopesOf<T>(outs: seq<Outcome<T>>): seq<string> {
    if outs == [] then [] else [outs[0].scope] + ScopesOf(outs[1..])
  }

  /** The scopes that answered, in order. */
  function Answered<T>(outs: seq<Outcome<T>>): seq<string> {
    if outs == [] then []
    else if outs[0].err.None? then [outs[0].scope] + Answered(outs[1..])
    else Answered(outs[1..])
  }

  function DidFail<T>(): Outcome<T> -> bool {
    (o: Outcome<T>) => o.err.Some?
  }

  function DidAnswer<T>(): Outcome<T> -> bool {
    (o: Outcome<T>) => o.err.None?
  }

  function ScopeOf<T>(): Outcome<T> -> string {
    (o: Outcome<T>) => o.scope
  }

  lemma {:induction false} UnreadAreTheFailed<T>(outs: seq<Outcome<T>>)
    ensures Picks(Unread(outs), outs, DidFail(), Itself())
    ensures Picks(Answered(outs), outs, DidAnswer(), ScopeOf())
  {
    if outs != [] {
      UnreadAreTheFailed(outs[1..]);
      PicksFirst(Unread(outs[1..]), outs, DidFail(), Itself());
      PicksFirst(Answered(outs[1..]), outs, DidAnswer(), ScopeOf());
    }
  }

  predicate Refused(e: Error) {
    e.code == "cnpg.auth.failed"
  }

  predicate Met<T>(o: Outcome<T>, p: Error -> bool) {
    o.err.Some? && p(o.err.value)
  }

  /** The first error of which `p` holds. */
  function First<T>(outs: seq<Outcome<T>>, p: Error -> bool): Option<Error> {
    if outs == [] then None
    else if Met(outs[0], p) then outs[0].err
    else First(outs[1..], p)
  }

  /** The error of a page of several scopes. */
  function PageError<T>(outs: seq<Outcome<T>>): Option<Error> {
    if First(outs, Refused).Some? then First(outs, Refused)
    else if |Unread(outs)| == |outs| then First(outs, ClusterWide)
    else None
  }

  /** A read that met a credential the API server did not accept. */
  predicate Met401<T>(o: Outcome<T>) {
    o.err.Some? && o.err.value.code == "cnpg.auth.failed"
  }

  predicate MetConnection<T>(o: Outcome<T>) {
    o.err.Some? && ClusterWide(o.err.value)
  }

  /** Outcome k is the first of which `p` holds. */
  ghost predicate IsFirst<T>(outs: seq<Outcome<T>>, p: Outcome<T> -> bool, k: nat) {
    k < |outs| && p(outs[k]) && forall i | 0 <= i < k :: !p(outs[i])
  }

  /** Which error a page of several scopes is: that of the first scope that met a 401,
      whichever others answered; else, if nothing answered, that of the first whose
      failure is the connection's; else none. */
  ghost predicate IsPageError<T>(outs: seq<Outcome<T>>, err: Option<Error>) {
    if exists i :: 0 <= i < |outs| && Met401(outs[i]) then
      exists k: nat :: IsFirst(outs, (o: Outcome<T>) => Met401(o), k) && err == outs[k].err
    else if (exists i :: 0 <= i < |outs| && MetConnection(outs[i])) && forall i | 0 <= i < |outs| :: outs[i].err.Some? then
      exists k: nat :: IsFirst(outs, (o: Outcome<T>) => MetConnection(o), k) && err == outs[k].err
    else err.None?
  }

  datatype Page<T> = Page(unread: seq<Outcome<T>>, read: Selection)

  /** The loops of settle. */
  method CollectUnread<T>(outs: seq<Outcome<T>>) returns (unread: seq<Outcome<T>>)
    ensures unread == Unread(outs)
  {
    unread := [];
    for i := 0 to |outs|
      invariant unread + Unread(outs[i..]) == Unread(outs)
    {
      assert outs[i..][1..] == outs[i + 1..];
      if outs[i].err.Some? {
        unread := unread + [outs[i]];
      }
    }
  }

  method FirstWith<T>(unread: seq<Outcome<T>>, p: Error -> bool) returns (err: Option<Error>)
    requires forall i | 0 <= i < |unread| :: unread[i].err.Some?
    ensures err == First(unread, p)
  {
    for i := 0 to |unread|
      invariant First(unread[i..], p) == First(unread, p)
    {
      if p(unread[i].err.value) {
        return unread[i].err;
      }
      assert unread[i..][1..] == unread[i + 1..];
    }
    return None;
  }

  method NamesOf<T>(unread: seq<Outcome<T>>) returns (names: seq<string>)
    ensures names == ScopesOf(unread)
  {
    names := [];
    for i := 0 to |unread|
      invariant names + ScopesOf(unread[i..]) == ScopesOf(unread)
    {
      assert unread[i..][1..] == unread[i + 1..];
      names := names + [unread[i].scope];
    }
  }

  /** settle: a page with the namespaces that could not be read, or the one error. A
      credential that was refused is the error whatever answered; a failure of the
      connection is the error when nothing answered. */
  method Settle<T>(s: Selection, outs: seq<Outcome<T>>) returns (page: Page<T>, err: Option<Error>)
    ensures page.unread == Unread(outs) && Picks(page.unread, outs, DidFail(), Itself())
    ensures err == if |outs| == 1 then outs[0].err else PageError(outs)
    ensures |outs| > 1 ==> IsPageError(outs, err)
    ensures err.None? ==>
      page.read == if Unread(outs) == [] || s.namespaces == [] then s
                   else Narrowed(s, Left(s.namespaces, ScopesOf(Unread(outs))))
  {
    var unread := CollectUnread(outs);
    page, err := Page(unread, s), None;
    PageErrorMeans(outs);
    UnreadAreTheFailed(outs);
    hide Picks;
    FirstOfUnread(outs, Refused);
    FirstOfUnread(outs, ClusterWide);
    UnreadFailed(outs);
    if |unread| == 0 {
      return;
    }
    if |outs| == 1 {
      err := outs[0].err;
      return;
    }
    err := FirstWith(unread, Refused);
    if err.Some? {
      return;
    }
    if |unread| == |outs| {
      err := FirstWith(unread, ClusterWide);
      if err.Some? {
        return;
      }
    }
    var names := NamesOf(unread);
    var read := Without(s, names);
    page := page.(read := read);
  }

  lemma {:induction false} UnreadFailed<T>(outs: seq<Outcome<T>>)
    ensures forall k | 0 <= k < |Unread(outs)| :: Unread(outs)[k].err.Some?
  {
    if outs != [] {
      UnreadFailed(outs[1..]);
    }
  }

  lemma {:induction false} FirstOfUnread<T>(outs: seq<Outcome<T>>, p: Error -> bool)
    ensures First(Unread(outs), p) == First(outs, p)
    ensures outs != [] ==> (|Unread(outs)| == 0 ==> First(outs, p).None? && |Unread(outs)| < |outs|)
  {
    if outs != [] {
      FirstOfUnread(outs[1..], p);
      if outs[0].err.Some? {
        assert ([outs[0]] + Unread(outs[1..]))[1..] == Unread(outs[1..]);
      }
    }
  }

  // ----- what a page of several namespaces says -----------------------------------------

  /** `First` is the error of the least index with one of which `p` holds, and None
      exactly when there is none. */
  lemma {:induction false} FirstMeans<T>(outs: seq<Outcome<T>>, p: Error -> bool) returns (k: nat)
    ensures First(outs, p).None? <==> forall i | 0 <= i < |outs| :: !Met(outs[i], p)
    ensures First(outs, p).Some? ==>
      && k < |outs| && Met(outs[k], p) && First(outs, p) == outs[k].err
      && forall i | 0 <= i < k :: !Met(outs[i], p)
  {
    k := 0;
    if outs != [] && !Met(outs[0], p) {
      var m := FirstMeans(outs[1..], p);
      assert forall i | 1 <= i < |outs| :: outs[i] == outs[1..][i - 1];
      k := m + 1;
    }
  }

  lemma {:induction false} AllUnread<T>(outs: seq<Outcome<T>>)
    ensures |Unread(outs)| <= |outs|
    ensures |Unread(outs)| == |outs| <==> forall i | 0 <= i < |outs| :: outs[i].err.Some?
  {
    if outs != [] {
      AllUnread(outs[1..]);
      assert forall i | 1 <= i < |outs| :: outs[i] == outs[1..][i - 1];
    }
  }

  /** A page of several scopes is an error exactly when some scope met a 401, or nothing
      answered and some failure is the connection's. */
  lemma ErrorExactlyWhen<T>(outs: seq<Outcome<T>>)
    ensures PageError(outs).Some? <==>
      || (exists i :: 0 <= i < |outs| && Met(outs[i], Refused))
      || ((forall i | 0 <= i < |outs| :: outs[i].err.Some?) &&
          (exists i :: 0 <= i < |outs| && Met(outs[i], ClusterWide)))
  {
    var a := FirstMeans(outs, Refused);
    var b := FirstMeans(outs, ClusterWide);
    AllUnread(outs);
  }

  lemma PageErrorMeans<T>(outs: seq<Outcome<T>>)
    ensures IsPageError(outs, PageError(outs))
  {
    var a := FirstMeans(outs, Refused);
    var b := FirstMeans(outs, ClusterWide);
    AllUnread(outs);
    assert forall i | 0 <= i < |outs| :: Met401(outs[i]) <==> Met(outs[i], Refused);
    assert forall i | 0 <= i < |outs| :: MetConnection(outs[i]) <==> Met(outs[i], ClusterWide);
    if First(outs, Refused).Some? {
      assert IsFirst(outs, (o: Outcome<T>) => Met401(o), a);
    } else if First(outs, ClusterWide).Some? {
      assert IsFirst(outs, (o: Outcome<T>) => MetConnection(o), b);
    }
  }

  ghost predicate Distinct(names: seq<string>) {
    forall i, k | 0 <= i < k < |names| :: names[i] != names[k]
  }

  lemma {:induction false} ScopesAt<T>(outs: seq<Outcome<T>>)
    ensures |ScopesOf(outs)| == |outs|
    ensures forall i | 0 <= i < |outs| :: ScopesOf(outs)[i] == outs[i].scope
  {
    if outs != [] {
      ScopesAt(outs[1..]);
    }
  }

  /** What is left of distinct namespaces without those that failed is those that
      answered, in order; `more` are names of scopes met earlier. */
  lemma {:induction false} LeftAnswered<T>(outs: seq<Outcome<T>>, more: seq<string>)
    requires Distinct(ScopesOf(outs))
    requires forall i | 0 <= i < |outs| :: outs[i].scope !in more
    ensures Left(ScopesOf(outs), more + ScopesOf(Unread(outs))) == Answered(outs)
  {
    if outs != [] {
      var rest := outs[1..];
      ScopesAt(outs);
      ScopesAt(rest);
      assert forall i | 0 <= i < |rest| :: rest[i] == outs[i + 1] && rest[i].scope == ScopesOf(outs)[i + 1];
      if outs[0].err.Some? {
        assert Unread(outs)[1..] == Unread(rest);
        assert ScopesOf(Unread(outs)) == [outs[0].scope] + ScopesOf(Unread(rest));
        hide Unread;
        assert more + ScopesOf(Unread(outs)) == more + [outs[0].scope] + ScopesOf(Unread(rest));
        LeftAnswered(rest, more + [outs[0].scope]);
      } else {
        UnreadIsPart(rest);
        LeftAnswered(rest, more);
      }
    }
  }

  lemma {:induction false} UnreadIsPart<T>(outs: seq<Outcome<T>>)
    ensures forall x | x in ScopesOf(Unread(outs)) :: x in ScopesOf(outs)
  {
    if outs != [] {
      UnreadIsPart(outs[1..]);
      if outs[0].err.Some? {
        assert Unread(outs)[1..] == Unread(outs[1..]);
      }
    }
  }

  /** Of distinct named namespaces the page's selection reads those that answered. */
  lemma ReadsTheAnswered<T>(names: seq<string>, outs: seq<Outcome<T>>)
    requires |names| > 1 && Distinct(names) && "" !in names && ScopesOf(outs) == names
    ensures
      var s := Selection("", names);
      Named(if Unread(outs) == [] then s else Narrowed(s, Left(names, ScopesOf(Unread(outs)))))
      == Answered(outs)
  {
    ScopesAt(outs);
    AnsweredNames(outs);
    LeftAnswered(outs, []);
    assert [] + ScopesOf(Unread(outs)) == ScopesOf(Unread(outs));
  }

  lemma {:induction false} AnsweredNames<T>(outs: seq<Outcome<T>>)
    ensures Unread(outs) == [] ==> Answered(outs) == ScopesOf(outs)
    ensures forall x | x in Answered(outs) :: x in ScopesOf(outs)
  {
    if outs != [] {
      AnsweredNames(outs[1..]);
    }
  }

  /** One listing of several distinct namespaces, whatever the schedule of its reads: an
      error is one that some read of this call met, and a page's read namespaces are
      exactly those that answered and its unread ones exactly those that did not, each
      in the order they were named. */
  method ListSeveral<T>(names: seq<string>, ghost j: Job<T>, outs: seq<Outcome<T>>)
    returns (page: Page<T>, err: Option<Error>)
    requires |names| > 1 && Distinct(names) && "" !in names
    requires j.scopes == names && Returns(j, outs)
    ensures IsPageError(outs, err)
    ensures err.Some? ==> exists k: nat :: k < |names| && j.read(k).err == err
    ensures err.None? ==>
              && Picks(page.unread, outs, DidFail(), Itself())
              && Picks(Named(page.read), outs, DidAnswer(), ScopeOf())
  {
    UnreadAreTheFailed(outs);
    hide Picks;
    ghost var stop := EveryScopeIsAnswered(j, outs);
    ScopesAt(outs);
    ReadsTheAnswered(names, outs);
    if PageError(outs).Some? {
      PageErrorWasMet(j, outs, stop);
    }
    page, err := Settle(Selection("", names), outs);
  }

  lemma PageErrorWasMet<T>(j: Job<T>, outs: seq<Outcome<T>>, stop: Option<Error>)
    requires InOrder(j, outs, stop) && PageError(outs).Some?
    requires stop.Some? ==> exists k: nat :: k < |j.scopes| && j.read(k).err == stop
    ensures exists k: nat :: k < |j.scopes| && j.read(k).err == PageError(outs)
  {
    var a := FirstMeans(outs, Refused);
    var b := FirstMeans(outs, ClusterWide);
    var k := if First(outs, Refused).Some? then a else b;
    assert outs[k].err == PageError(outs);
    if outs[k] == ReadOutcome(j, k) {
      assert j.read(k).err == PageError(outs);
    }
  }
}
