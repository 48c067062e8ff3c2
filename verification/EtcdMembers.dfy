/** One member's judgement and the count of the quorum (plugins/etcd/members.go). The words
    a judgement is given in are left out. */
module EtcdMembers {
  import opened Common

  const CATCH_UP_ENTRIES := 5000

  /** What a member says of itself. Leader 0 is none; applied 0 is a server that does not say. */
  datatype Status = Status(leader: nat, term: nat, index: nat, applied: nat, errors: seq<string>)

  /** A member as the list names it: whether it has a client URL, and whether one that
      credentials may be sent to. */
  datatype Listed = Listed(id: nat, name: string, learner: bool, started: bool, safe: bool)

  datatype Row = Row(member: Listed, st: Option<Status>, notAsked: bool)

  datatype LeaderView = LeaderView(id: nat, st: Option<Status>)

  // ----- asking ------------------------------------------------------------------------------

  /** What the row of one member is. */
  ghost predicate RowOf(m: Listed, self: nat, own: Status, skip: bool, reply: Option<Status>, r: Row) {
    && r.member == m
    && (m.id == self ==> r.st == Some(own) && !r.notAsked)
    && (m.id != self && !m.started ==> r.st == None && !r.notAsked)
    && (m.id != self && m.started ==> (r.notAsked <==> skip || !m.safe))
    && (r.notAsked ==> r.st == None)
    && (m.id != self && m.started && !r.notAsked ==> r.st == reply)
  }

  /** Every row from its member's own answer, the endpoint's from the one in hand; `dialled`
      is who was called. */
  method AskMembers(list: seq<Listed>, self: nat, own: Status, skip: bool, replies: seq<Option<Status>>)
    returns (rows: seq<Row>, dialled: set<nat>)
    requires |replies| == |list|
    ensures |rows| == |list|
    ensures forall i | 0 <= i < |list| :: RowOf(list[i], self, own, skip, replies[i], rows[i])
    ensures forall i :: i in dialled <==> 0 <= i < |list| && list[i].id != self && list[i].started && !skip && list[i].safe
  {
    rows := seq(|list|, i requires 0 <= i < |list| => Row(list[i], None, false));
    dialled := {};
    for i := 0 to |list|
      invariant |rows| == |list|
      invariant forall j | i <= j < |list| :: rows[j] == Row(list[j], None, false)
      invariant forall j | 0 <= j < i :: RowOf(list[j], self, own, skip, replies[j], rows[j])
      invariant forall j :: j in dialled <==> 0 <= j < i && list[j].id != self && list[j].started && !skip && list[j].safe
    {
      if list[i].id == self {
        rows := rows[i := rows[i].(st := Some(own))];
      } else if !list[i].started {
      } else if skip || !list[i].safe {
        rows := rows[i := rows[i].(notAsked := true)];
      } else {
        dialled := dialled + {i};
        rows := rows[i := rows[i].(st := replies[i])];
      }
    }
  }

  /** The leader as the endpoint names it, with the status of the row that is it. */
  method LeaderOf(own: Status, rows: seq<Row>) returns (lead: LeaderView)
    ensures lead.id == own.leader
    ensures lead.st.Some? ==> exists i :: 0 <= i < |rows| && rows[i].member.id == lead.id && rows[i].st == lead.st
    ensures (forall i, j | 0 <= i < j < |rows| :: rows[i].member.id != rows[j].member.id) ==>
              forall i | 0 <= i < |rows| && rows[i].member.id == lead.id :: lead.st == rows[i].st
  {
    lead := LeaderView(own.leader, None);
    for i := 0 to |rows|
      invariant lead.id == own.leader
      invariant lead.st.Some? ==> exists j :: 0 <= j < i && rows[j].member.id == lead.id && rows[j].st == lead.st
      invariant (forall k, j | 0 <= k < j < |rows| :: rows[k].member.id != rows[j].member.id) ==>
                  forall j | 0 <= j < i && rows[j].member.id == lead.id :: lead.st == rows[j].st
    {
      if rows[i].member.id == own.leader {
        lead := lead.(st := rows[i].st);
      }
    }
  }

  // ----- judging one member ---------------------------------------------------------------------

  /** How many entries a member trails the leader's log by, when both can be said. */
  function Behind(r: Row, lead: LeaderView): Option<nat> {
    if r.st == None || lead.st == None || r.member.id == lead.id then None
    else if r.st.value.index >= lead.st.value.index then Some(0)
    else Some(lead.st.value.index - r.st.value.index)
  }

  function Unapplied(st: Status): nat {
    if st.applied == 0 || st.applied >= st.index then 0 else st.index - st.applied
  }

  datatype Judgement =
    | Well
    | NotAsked
    | NotStarted
    | Unreachable
    | NoLeader
    | ReportsErrors
    | OtherLeader
    | OtherTerm
    | CatchingUp(entries: nat)
    | FarBehind(entries: nat)
    | NotApplied(entries: nat)

  /** The word a judgement is graded by. */
  datatype Word = IsOk | IsInfo | IsPending | IsUnreachable | IsWarn | IsFail

  function WordOf(j: Judgement): Word {
    match j
    case Well => IsOk
    case NotAsked => IsInfo
    case NotStarted => IsPending
    case CatchingUp(_) => IsPending
    case Unreachable => IsUnreachable
    case NoLeader => IsFail
    case ReportsErrors => IsFail
    case OtherLeader => IsWarn
    case OtherTerm => IsWarn
    case FarBehind(_) => IsWarn
    case NotApplied(_) => IsWarn
  }

  function MemberVerdict(r: Row, lead: LeaderView): Judgement {
    if r.st == None then
      if r.notAsked then NotAsked else if !r.member.started then NotStarted else Unreachable
    else
      var st := r.st.value;
      if st.leader == 0 then NoLeader
      else if |st.errors| > 0 then ReportsErrors
      else if lead.id != 0 && st.leader != lead.id then OtherLeader
      else if lead.st.Some? && r.member.id != lead.id && st.term != lead.st.value.term then OtherTerm
      else
        var n := Behind(r, lead);
        if n.Some? && n.value >= CATCH_UP_ENTRIES then
          if r.member.learner then CatchingUp(n.value) else FarBehind(n.value)
        else if Unapplied(st) >= CATCH_UP_ENTRIES then NotApplied(Unapplied(st))
        else Well
  }

  /** What it takes for a member to be well, read off its status and the leader's. */
  ghost predicate IsSound(r: Row, lead: LeaderView) {
    && r.st.Some?
    && r.st.value.leader != 0 && (lead.id == 0 || r.st.value.leader == lead.id)
    && r.st.value.errors == []
    && (lead.st.Some? && r.member.id != lead.id ==>
          && r.st.value.term == lead.st.value.term
          && lead.st.value.index < r.st.value.index + CATCH_UP_ENTRIES)
    && (r.st.value.applied == 0 || r.st.value.index < r.st.value.applied + CATCH_UP_ENTRIES)
  }

  lemma WellExactlyWhen(r: Row, lead: LeaderView)
    ensures MemberVerdict(r, lead).Well? <==> IsSound(r, lead)
    ensures MemberVerdict(r, lead).NotAsked? <==> r.st == None && r.notAsked
    ensures WordOf(MemberVerdict(r, lead)) == IsFail <==>
              r.st.Some? && (r.st.value.leader == 0 || r.st.value.errors != [])
  {
  }

  /** A member that answered, names the endpoint's leader and reports nothing. */
  predicate Follows(r: Row, lead: LeaderView) {
    && r.st.Some? && r.st.value.leader != 0 && r.st.value.errors == []
    && (lead.id == 0 || r.st.value.leader == lead.id)
  }

  /** One that is to be measured by the leader's own answer. */
  predicate IsMeasured(r: Row, lead: LeaderView) {
    Follows(r, lead) && lead.st.Some? && r.member.id != lead.id
  }

  predicate SameTerm(r: Row, lead: LeaderView) {
    Follows(r, lead) && (IsMeasured(r, lead) ==> r.st.value.term == lead.st.value.term)
  }

  /** On the leader's term, and further behind its log than the log it keeps. */
  predicate Trails(r: Row, lead: LeaderView) {
    SameTerm(r, lead) && IsMeasured(r, lead) && lead.st.value.index >= r.st.value.index + CATCH_UP_ENTRIES
  }

  /** Each judgement is given exactly when the row, and the leader's, say this. */
  lemma JudgedExactlyWhen(r: Row, lead: LeaderView)
    ensures MemberVerdict(r, lead) == NotAsked <==> r.st == None && r.notAsked
    ensures MemberVerdict(r, lead) == NotStarted <==> r.st == None && !r.notAsked && !r.member.started
    ensures MemberVerdict(r, lead) == Unreachable <==> r.st == None && !r.notAsked && r.member.started
    ensures MemberVerdict(r, lead) == NoLeader <==> r.st.Some? && r.st.value.leader == 0
    ensures MemberVerdict(r, lead) == ReportsErrors <==> r.st.Some? && r.st.value.leader != 0 && r.st.value.errors != []
    ensures MemberVerdict(r, lead) == OtherLeader <==>
              && r.st.Some? && r.st.value.leader != 0 && r.st.value.errors == []
              && lead.id != 0 && r.st.value.leader != lead.id
    ensures MemberVerdict(r, lead) == OtherTerm <==> IsMeasured(r, lead) && r.st.value.term != lead.st.value.term
    ensures forall n: nat ::
              (MemberVerdict(r, lead) == CatchingUp(n) <==>
                 Trails(r, lead) && r.member.learner && lead.st.value.index == r.st.value.index + n)
              && (MemberVerdict(r, lead) == FarBehind(n) <==>
                    Trails(r, lead) && !r.member.learner && lead.st.value.index == r.st.value.index + n)
              && (MemberVerdict(r, lead) == NotApplied(n) <==>
                    SameTerm(r, lead) && !Trails(r, lead)
                    && r.st.value.applied != 0 && n >= CATCH_UP_ENTRIES && r.st.value.index == r.st.value.applied + n)
  {
  }

  // ----- the quorum -----------------------------------------------------------------------------------

  function Voters(): Row -> bool {
    (r: Row) => !r.member.learner
  }

  function Answering(): Row -> bool {
    (r: Row) => !r.member.learner && r.st.Some? && r.st.value.leader != 0
  }

  /** How many members vote and how many of those answered with a leader; not said when a
      voter was not asked, or there is none. */
  method QuorumCount(rows: seq<Row>) returns (voters: nat, answered: nat, ok: bool)
    ensures ok <==> CountIf(rows, Voters()) > 0 && forall i | 0 <= i < |rows| && !rows[i].member.learner :: !rows[i].notAsked
    ensures ok ==> voters == CountIf(rows, Voters()) && answered == CountIf(rows, Answering())
  {
    voters, answered := 0, 0;
    for i := 0 to |rows|
      invariant voters == CountIf(rows[..i], Voters()) && answered == CountIf(rows[..i], Answering())
      invariant forall j | 0 <= j < i && !rows[j].member.learner :: !rows[j].notAsked
    {
      assert rows[..i + 1][..i] == rows[..i];
      var r := rows[i];
      if r.member.learner {
        continue;
      }
      if r.notAsked {
        return 0, 0, false;
      }
      voters := voters + 1;
      if r.st.Some? && r.st.value.leader != 0 {
        answered := answered + 1;
      }
    }
    assert rows[..|rows|] == rows;
    ok := voters > 0;
  }

  function Needed(voters: nat): nat {
    voters / 2 + 1
  }

  /** As many answer as vote exactly when every voter answers with a leader. */
  lemma {:induction false} AnsweringVote(rows: seq<Row>)
    ensures CountIf(rows, Answering()) <= CountIf(rows, Voters())
    ensures CountIf(rows, Answering()) == CountIf(rows, Voters()) <==>
              forall i | 0 <= i < |rows| && !rows[i].member.learner :: rows[i].st.Some? && rows[i].st.value.leader != 0
  {
    if rows != [] {
      var n := |rows| - 1;
      AnsweringVote(rows[..n]);
      assert forall i | 0 <= i < n :: rows[..n][i] == rows[i];
    }
  }
}
