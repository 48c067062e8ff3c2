/** The certificate cache as the objects it is, one call at a time (plugins/kube/cert.go):
    what a call that meets no other answers and leaves behind. Calls that meet are the
    subject of CertCache. */
module CertCacheCalls {
  import opened Common
  import C = CertCache

  /** What an entry holds: the time of its last successful read, if there was one. */
  datatype Memo = Memo(at: Option<nat>, certs: seq<string>)

  predicate Young(m: Memo, now: nat) {
    m.at.Some? && now - m.at.value < C.CERT_LIFE
  }

  predicate Old(m: Memo, now: nat) {
    m.at.Some? && now - m.at.value >= C.CERT_LIFE
  }

  datatype Answer = Certs(certs: seq<string>, at: nat, reused: bool) | Failed(err: C.Error)

  /** What is left of the kept reads when the old ones are dropped, the one in use apart. */
  function Swept(kept: map<C.Scope, Memo>, mine: C.Scope, now: nat): map<C.Scope, Memo> {
    map s | s in kept && (s == mine || !Old(kept[s], now)) :: kept[s]
  }

  /** The answer of a read that is made. */
  function Made(reply: C.Reply, at: nat): Answer {
    match reply
    case Good(certs) => Certs(certs, at, false)
    case Bad(err) => Failed(err)
  }

  /** What one call answers and leaves behind, scope by scope: an answer under a quarter of
      an hour old is given again and nothing changes; else the answer is the read's, a good
      one is kept for its scope and what is a quarter of an hour old is gone of the others,
      and a bad one changes nothing that was kept. */
  ghost predicate Leaves(was: map<C.Scope, Memo>, now: map<C.Scope, Memo>, scope: C.Scope, reply: C.Reply,
                         checked: nat, answered: nat, swept: nat, r: Answer) {
    if scope in was && was[scope].at.Some? && checked < was[scope].at.value + 900 then
      now == was && r == Certs(was[scope].certs, was[scope].at.value, true)
    else
      match reply
      case Good(certs) =>
        && r == Certs(certs, answered, false)
        && scope in now && now[scope] == Memo(Some(answered), certs)
        && forall s | s != scope ::
             && (s in now <==> s in was && (was[s].at.Some? ==> swept < was[s].at.value + 900))
             && (s in now ==> now[s] == was[s])
      case Bad(err) =>
        && r == Failed(err)
        && (scope in now <==> scope in was && was[scope].at.Some?)
        && (scope in now ==> now[scope] == was[scope])
        && forall s | s != scope :: (s in now <==> s in was) && (s in now ==> now[s] == was[s])
  }

  class CertEntry {
    var at: Option<nat>
    var certs: seq<string>

    constructor ()
      ensures at == None && certs == []
    {
      at, certs := None, [];
    }

    function Value(): Memo
      reads this
    {
      Memo(at, certs)
    }
  }

  class CertReads {
    var byScope: map<C.Scope, CertEntry>

    /** No two scopes share an entry. */
    ghost predicate Valid()
      reads this
    {
      forall a, b | a in byScope && b in byScope && a != b :: byScope[a] != byScope[b]
    }

    ghost function Kept(): map<C.Scope, Memo>
      reads this, byScope.Values
    {
      map s | s in byScope :: byScope[s].Value()
    }

    constructor ()
      ensures Valid() && Kept() == map[]
    {
      byScope := map[];
    }

    method CertEntryFor(scope: C.Scope) returns (e: CertEntry)
      requires Valid()
      modifies this
      ensures Valid() && scope in byScope && byScope[scope] == e
      ensures byScope == old(byScope)[scope := e]
      ensures if scope in old(byScope) then e == old(byScope)[scope] else fresh(e)
      ensures Kept() == if scope in old(byScope) then old(Kept()) else old(Kept())[scope := Memo(None, [])]
    {
      if scope in byScope {
        e := byScope[scope];
      } else {
        e := new CertEntry();
        byScope := byScope[scope := e];
      }
    }

    /** Every kept read but the caller's own, whose lock is not to be had. */
    method ForgetOld(mine: C.Scope, now: nat)
      requires Valid()
      modifies this
      ensures Valid() && Kept() == Swept(old(Kept()), mine, now)
    {
      ghost var all := byScope;
      var todo := byScope.Keys;
      while todo != {}
        invariant todo <= byScope.Keys <= all.Keys && Valid()
        invariant forall s | s in byScope :: byScope[s] == all[s]
        invariant forall s | s in all :: s in byScope <==> s in todo || s == mine || !Old(all[s].Value(), now)
        decreases |todo|
      {
        var s :| s in todo;
        todo := todo - {s};
        if s != mine && Old(byScope[s].Value(), now) {
          byScope := byScope - {s};
        }
      }
    }

    method ForgetUnread(scope: C.Scope, e: CertEntry)
      requires Valid()
      modifies this
      ensures Valid()
      ensures Kept() == if scope in old(byScope) && old(byScope)[scope] == e && e.at.None?
                        then old(Kept()) - {scope} else old(Kept())
    {
      if scope in byScope && byScope[scope] == e && e.at.None? {
        byScope := byScope - {scope};
      }
    }

    method Store(scope: C.Scope, e: CertEntry, certs: seq<string>, now: nat)
      requires Valid() && scope in byScope && byScope[scope] == e
      modifies e
      ensures Valid() && byScope == old(byScope)
      ensures Kept() == old(Kept())[scope := Memo(Some(now), certs)]
    {
      e.at, e.certs := Some(now), certs;
    }

    /** A read whose scope cannot be named is made and not kept. Otherwise a read kept for
        less than a life is given again, or the read is made, and what it answers is kept if
        it succeeded and leaves nothing behind if nothing was kept before. `checked`,
        `answered` and `swept` are the clock where it is read. */
    method TlsCerts(named: Option<C.Scope>, reply: C.Reply, checked: nat, answered: nat, swept: nat) returns (r: Answer)
      requires Valid()
      modifies this, byScope.Values
      ensures Valid()
      ensures named.None? ==> Kept() == old(Kept()) && r == Made(reply, answered)
      ensures
        var was := old(Kept());
        named.Some? ==>
          var scope := named.value;
          if scope in was && Young(was[scope], checked) then
            r == Certs(was[scope].certs, was[scope].at.value, true) && Kept() == was
          else
            && r == Made(reply, answered)
            && match reply
               case Bad(_) => Kept() == if scope in was && was[scope].at.Some? then was else was - {scope}
               case Good(certs) => Kept() == Swept(was[scope := Memo(Some(answered), certs)], scope, swept)
      ensures named.Some? ==> Leaves(old(Kept()), Kept(), named.value, reply, checked, answered, swept, r)
    {
      if named.None? {
        return match reply case Good(certs) => Certs(certs, answered, false) case Bad(err) => Failed(err);
      }
      var scope := named.value;
      ghost var was := Kept();
      var e := CertEntryFor(scope);
      assert e.Value() == Kept()[scope];
      if e.at.Some? && checked - e.at.value < C.CERT_LIFE {
        return Certs(e.certs, e.at.value, true);
      }
      SameAfter(was, scope, reply, answered);
      r := ReadAndKeep(scope, e, reply, answered, swept);
    }

    /** The read is made. */
    method ReadAndKeep(scope: C.Scope, e: CertEntry, reply: C.Reply, answered: nat, swept: nat) returns (r: Answer)
      requires Valid() && scope in byScope && byScope[scope] == e
      modifies this, e
      ensures Valid()
      ensures
        match reply
        case Bad(err) =>
          r == Failed(err) && Kept() == if old(e.at).None? then old(Kept()) - {scope} else old(Kept())
        case Good(certs) =>
          r == Certs(certs, answered, false)
          && Kept() == Swept(old(Kept())[scope := Memo(Some(answered), certs)], scope, swept)
    {
      match reply
      case Bad(err) =>
        ForgetUnread(scope, e);
        return Failed(err);
      case Good(certs) =>
        Store(scope, e, certs, answered);
        ForgetOld(scope, swept);
        return Certs(certs, answered, false);
    }
  }

  /** An entry made for a read leaves no trace of itself in what is kept after it. */
  lemma SameAfter(was: map<C.Scope, Memo>, scope: C.Scope, reply: C.Reply, now: nat)
    ensures
      var made := was[scope := Memo(None, [])];
      && made - {scope} == was - {scope}
      && (reply.Good? ==> made[scope := Memo(Some(now), reply.certs)] == was[scope := Memo(Some(now), reply.certs)])
  {
  }

  // ----- what a read covers --------------------------------------------------------------------------

  /** A selection leaves its context or its namespace empty for kubectl to fill in. */
  datatype Selection = Selection(context: string, namespace: string, allNS: bool)

  datatype Kubeconfig = Kubeconfig(current: string, namespaces: map<string, string>)

  function NamespaceOf(cfg: Kubeconfig, context: string): string {
    var name := if context == "" then cfg.current else context;
    if name in cfg.namespaces && cfg.namespaces[name] != "" then cfg.namespaces[name] else "default"
  }

  /** What kubectl reads for a selection under a kubeconfig. */
  function Covers(s: Selection, cfg: Kubeconfig): C.Scope {
    var context := if s.context == "" then cfg.current else s.context;
    C.Scope(context, if s.allNS then "*" else if s.namespace == "" then NamespaceOf(cfg, context) else s.namespace)
  }

  /** The scope of a read and the selection pinned to it; none without a kubeconfig where
      one is needed, and none without a context. */
  method CertScopeOf(s: Selection, config: Option<Kubeconfig>) returns (scope: Option<C.Scope>, pinned: Selection)
    ensures scope.None? ==> pinned == s
    ensures scope.None? <==>
              || (config.None? && (s.context == "" || (!s.allNS && s.namespace == "")))
              || (config.Some? && s.context == "" && config.value.current == "")
    ensures scope.Some? && config.Some? ==> scope.value == Covers(s, config.value)
    ensures scope.Some? ==> forall later: Kubeconfig :: Covers(pinned, later) == scope.value
    ensures scope.Some? ==> scope.value.context != ""
    ensures scope.Some? && s.context != "" ==> scope.value.context == s.context
    ensures scope.Some? && s.context == "" ==> scope.value.context == config.value.current
    ensures scope.Some? && s.allNS ==> scope.value.namespace == "*"
    ensures scope.Some? && !s.allNS && s.namespace != "" ==> scope.value.namespace == s.namespace
    ensures scope.Some? && !s.allNS && s.namespace == "" ==>
              var own, at := config.value.namespaces, scope.value.context;
              scope.value.namespace == if at in own && own[at] != "" then own[at] else "default"
  {
    var context, namespace := s.context, if s.allNS then "*" else s.namespace;
    if context == "" || namespace == "" {
      if config.None? {
        return None, s;
      }
      var cfg := config.value;
      if context == "" {
        context := cfg.current;
      }
      if namespace == "" {
        namespace := NamespaceOf(cfg, context);
      }
    }
    if context == "" {
      return None, s;
    }
    pinned := Selection(context, if s.allNS then s.namespace else namespace, s.allNS);
    scope := Some(C.Scope(context, namespace));
  }
}
