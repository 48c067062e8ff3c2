/** The etcd overview's findings and the status they fold into (plugins/etcd/cluster.go). */
module EtcdStatus {
  import opened Common
  import opened EtcdMembers
  import A = EtcdAlarms

  datatype Grade = GradeWarn | GradeFail

  function Rank(g: Grade): nat {
    match g
    case GradeWarn => 1
    case GradeFail => 2
  }

  /** One thing wrong. */
  datatype Fact =
    | Raised(alarm: A.Spelled)
    | LeaderMissing
    | Member(id: nat, judgement: Judgement)
    | QuorumUnread
    | AtQuota
    | NearQuota

  datatype Finding = Finding(grade: Grade, fact: Fact)

  const NO_LEADER_ERROR := "etcdserver: no leader"

  /** The status: ok, or the finding that stands. */
  datatype Verdict = Ok | Bad(finding: Finding)

  // ----- the worst finding -----------------------------------------------------------------------

  /** The first of the worst. */
  ghost predicate Stands(found: seq<Finding>, w: nat) {
    && w < |found|
    && (forall i | 0 <= i < |found| :: Rank(found[i].grade) <= Rank(found[w].grade))
    && (forall i | 0 <= i < w :: Rank(found[i].grade) < Rank(found[w].grade))
  }

  method Worst(found: seq<Finding>) returns (v: Verdict)
    ensures v.Ok? <==> found == []
    ensures v.Bad? ==> exists w: nat :: Stands(found, w) && v.finding == found[w]
  {
    var worst: Option<nat> := None;
    for i := 0 to |found|
      invariant worst.None? <==> i == 0
      invariant worst.Some? ==> worst.value < i && Stands(found[..i], worst.value)
    {
      if worst.None? || Rank(found[i].grade) > Rank(found[worst.value].grade) {
        worst := Some(i);
      }
    }
    if worst.None? {
      return Ok;
    }
    assert found[..|found|] == found;
    return Bad(found[worst.value]);
  }

  // ----- the rows ------------------------------------------------------------------------------------

  predicate Alarming(e: string) {
    e != NO_LEADER_ERROR
  }

  function AlarmsOf(errors: seq<string>): seq<Finding> {
    if errors == [] then []
    else
      var n := |errors| - 1;
      if Alarming(errors[n]) then AlarmsOf(errors[..n]) + [Finding(GradeFail, Raised(A.Read(errors[n])))]
      else AlarmsOf(errors[..n])
  }

  function IsAlarm(): string -> bool {
    (e: string) => e != NO_LEADER_ERROR
  }

  function AlarmOf(): string -> Finding {
    (e: string) => Finding(GradeFail, Raised(A.Read(e)))
  }

  lemma {:induction false} AlarmsArePicked(errors: seq<string>)
    ensures Picks(AlarmsOf(errors), errors, IsAlarm(), AlarmOf())
  {
    if errors != [] {
      var n := |errors| - 1;
      AlarmsArePicked(errors[..n]);
      PicksLast(AlarmsOf(errors[..n]), errors, IsAlarm(), AlarmOf());
    }
  }

  /** A failure for each error but the missing leader's, in their order. */
  method AlarmsRow(own: Status) returns (found: seq<Finding>)
    ensures found == AlarmsOf(own.errors) && Picks(found, own.errors, IsAlarm(), AlarmOf())
  {
    AlarmsArePicked(own.errors);
    hide Picks;
    found := [];
    for i := 0 to |own.errors|
      invariant found == AlarmsOf(own.errors[..i])
    {
      assert own.errors[..i + 1][..i] == own.errors[..i];
      var e := own.errors[i];
      if e == NO_LEADER_ERROR {
        continue;
      }
      found := found + [Finding(GradeFail, Raised(A.Read(e)))];
    }
    assert own.errors[..|own.errors|] == own.errors;
  }

  predicate IsQuiet(j: Judgement) {
    WordOf(j) == IsOk || WordOf(j) == IsInfo
  }

  function MembersOf(rows: seq<Row>, lead: LeaderView): seq<Finding> {
    if rows == [] then []
    else
      var n := |rows| - 1;
      var j := MemberVerdict(rows[n], lead);
      if IsQuiet(j) then MembersOf(rows[..n], lead)
      else MembersOf(rows[..n], lead) + [Finding(GradeWarn, Member(rows[n].member.id, j))]
  }

  /** A learner that is alone and has no name: it is not served the list. */
  predicate OnlyALearner(rows: seq<Row>) {
    |rows| == 1 && rows[0].member.learner && rows[0].member.name == ""
  }

  /** What the quorum row says: nothing counted, or how many voters answer, how many a
      write needs, and who does not answer at all. */
  datatype Quorum = NotCounted | Counted(answered: nat, voters: nat, needed: nat, unreachable: seq<nat>)

  /** The least number that is more than half. */
  predicate IsMajority(needed: nat, voters: nat) {
    2 * needed > voters && (needed > 0 ==> 2 * (needed - 1) <= voters)
  }

  function UnreachableIn(rows: seq<Row>, lead: LeaderView): seq<nat> {
    if rows == [] then []
    else
      var n := |rows| - 1;
      if MemberVerdict(rows[n], lead).Unreachable? then UnreachableIn(rows[..n], lead) + [rows[n].member.id]
      else UnreachableIn(rows[..n], lead)
  }

  /** A member that was to be asked and is not well; the warning that says so carries its
      own id and what is wrong with it. */
  ghost function IsUnwell(lead: LeaderView): Row -> bool {
    (r: Row) => !IsSound(r, lead) && !(r.st == None && r.notAsked)
  }

  function WarningOf(lead: LeaderView): Row -> Finding {
    (r: Row) => Finding(GradeWarn, Member(r.member.id, MemberVerdict(r, lead)))
  }

  function IsDown(): Row -> bool {
    (r: Row) => r.st == None && !r.notAsked && r.member.started
  }

  function IdOf(): Row -> nat {
    (r: Row) => r.member.id
  }

  lemma {:induction false} MembersArePicked(rows: seq<Row>, lead: LeaderView)
    ensures Picks(MembersOf(rows, lead), rows, IsUnwell(lead), WarningOf(lead))
    ensures Picks(UnreachableIn(rows, lead), rows, IsDown(), IdOf())
  {
    if rows != [] {
      var n := |rows| - 1;
      MembersArePicked(rows[..n], lead);
      WellExactlyWhen(rows[n], lead);
      JudgedExactlyWhen(rows[n], lead);
      hide MemberVerdict, IsSound;
      PicksLast(MembersOf(rows[..n], lead), rows, IsUnwell(lead), WarningOf(lead));
      PicksLast(UnreachableIn(rows[..n], lead), rows, IsDown(), IdOf());
    }
  }

  method QuorumRow(rows: seq<Row>, lead: LeaderView) returns (q: Quorum, found: seq<Finding>)
    ensures found == if OnlyALearner(rows) then [] else MembersOf(rows, lead)
    ensures !OnlyALearner(rows) ==> Picks(found, rows, IsUnwell(lead), WarningOf(lead))
    ensures q.Counted? ==> Picks(q.unreachable, rows, IsDown(), IdOf())
    ensures q.Counted? <==>
              && CountIf(rows, Voters()) > 0
              && forall i | 0 <= i < |rows| && !rows[i].member.learner :: !rows[i].notAsked
    ensures q.Counted? ==>
              && q.voters == CountIf(rows, Voters()) && q.answered == CountIf(rows, Answering())
              && q.needed == Needed(q.voters) && IsMajority(q.needed, q.voters) && q.unreachable == UnreachableIn(rows, lead)
  {
    MembersArePicked(rows, lead);
    hide Picks;
    if |rows| == 1 && rows[0].member.learner && rows[0].member.name == "" {
      assert rows[..0] == [];
      return NotCounted, [];
    }
    found := [];
    var unreachable: seq<nat> := [];
    for i := 0 to |rows|
      invariant found == MembersOf(rows[..i], lead) && unreachable == UnreachableIn(rows[..i], lead)
    {
      assert rows[..i + 1][..i] == rows[..i];
      var j := MemberVerdict(rows[i], lead);
      match WordOf(j)
      case IsOk =>
      case IsInfo =>
      case IsUnreachable =>
        unreachable := unreachable + [rows[i].member.id];
        found := found + [Finding(GradeWarn, Member(rows[i].member.id, j))];
      case _ =>
        found := found + [Finding(GradeWarn, Member(rows[i].member.id, j))];
    }
    assert rows[..|rows|] == rows;
    var voters, answered, ok := QuorumCount(rows);
    if !ok {
      return NotCounted, found;
    }
    q := Counted(answered, voters, Needed(voters), unreachable);
  }

  function LeaderFound(own: Status): seq<Finding> {
    if own.leader == 0 then [Finding(GradeFail, LeaderMissing)] else []
  }

  /** What the file's share of its quota is graded, if it was said and is. */
  function StorageFound(share: Option<Grade>): seq<Finding> {
    match share
    case None => []
    case Some(GradeWarn) => [Finding(GradeWarn, NearQuota)]
    case Some(GradeFail) => [Finding(GradeFail, AtQuota)]
  }

  // ----- the overview -----------------------------------------------------------------------------------

  function MembersFound(rows: seq<Row>, lead: LeaderView, unread: bool): seq<Finding> {
    if unread then [Finding(GradeWarn, QuorumUnread)]
    else if OnlyALearner(rows) then []
    else MembersOf(rows, lead)
  }

  /** The findings, in the order one wins over another equally bad. */
  function Findings(own: Status, rows: seq<Row>, lead: LeaderView, unread: bool, share: Option<Grade>): seq<Finding> {
    AlarmsOf(own.errors) + LeaderFound(own) + MembersFound(rows, lead, unread) + StorageFound(share)
  }

  ghost predicate Has<T>(xs: seq<T>, p: T -> bool) {
    exists i :: 0 <= i < |xs| && p(xs[i])
  }

  /** What `f` makes of the first element of which `p` holds. */
  ghost predicate IsOfFirst<T, U>(u: U, xs: seq<T>, p: T -> bool, f: T -> U) {
    exists k: nat :: k < |xs| && p(xs[k]) && u == f(xs[k]) && !Has(xs[..k], p)
  }

  /** Which finding the status is: the endpoint's first alarm, else its missing leader, else
      its full quota; else, all being warnings, the list that was not read or the first
      member that is not well, and the quota that is near only when nothing else is wrong. */
  ghost predicate IsSaid(own: Status, rows: seq<Row>, lead: LeaderView, unread: bool, share: Option<Grade>, f: Finding) {
    if Has(own.errors, IsAlarm()) then IsOfFirst(f, own.errors, IsAlarm(), AlarmOf())
    else if own.leader == 0 then f == Finding(GradeFail, LeaderMissing)
    else if share == Some(GradeFail) then f == Finding(GradeFail, AtQuota)
    else if unread then f == Finding(GradeWarn, QuorumUnread)
    else if !OnlyALearner(rows) && Has(rows, IsUnwell(lead)) then IsOfFirst(f, rows, IsUnwell(lead), WarningOf(lead))
    else f == Finding(GradeWarn, NearQuota)
  }

  lemma FirstPicked<T, U>(out: seq<U>, xs: seq<T>, p: T -> bool, f: T -> U)
    requires Picks(out, xs, p, f)
    ensures out != [] <==> Has(xs, p)
    ensures out != [] ==> IsOfFirst(out[0], xs, p, f)
  {
    CountZero(xs, p);
    if out != [] {
      var k := 0;
      while k < |xs| && !p(xs[k])
        invariant k <= |xs| && forall i | 0 <= i < k :: !p(xs[i])
      {
        k := k + 1;
      }
      CountZero(xs[..k], p);
      assert PickedAt(out, CountIf(xs[..k], p), f(xs[k]));
    }
  }

  lemma StandingIsSaid(own: Status, rows: seq<Row>, lead: LeaderView, unread: bool, share: Option<Grade>, w: nat)
    requires Stands(Findings(own, rows, lead, unread, share), w)
    ensures IsSaid(own, rows, lead, unread, share, Findings(own, rows, lead, unread, share)[w])
  {
    var f := Findings(own, rows, lead, unread, share)[w];
    StandingIsFirst(own, rows, lead, unread, share, w);
    AlarmsArePicked(own.errors);
    MembersArePicked(rows, lead);
    FirstPicked(AlarmsOf(own.errors), own.errors, IsAlarm(), AlarmOf());
    FirstPicked(MembersOf(rows, lead), rows, IsUnwell(lead), WarningOf(lead));
    hide Findings, Picks, AlarmsOf, MembersOf, IsUnwell, IsAlarm, AlarmOf, WarningOf, Has, IsOfFirst, Stands;
  }

  lemma StandingIsFirst(own: Status, rows: seq<Row>, lead: LeaderView, unread: bool, share: Option<Grade>, w: nat)
    requires Stands(Findings(own, rows, lead, unread, share), w)
    ensures
      var alarms, members, f := AlarmsOf(own.errors), MembersFound(rows, lead, unread), Findings(own, rows, lead, unread, share)[w];
      f == if alarms != [] then alarms[0]
           else if own.leader == 0 then Finding(GradeFail, LeaderMissing)
           else if share == Some(GradeFail) then Finding(GradeFail, AtQuota)
           else if members != [] then members[0]
           else Finding(GradeWarn, NearQuota)
  {
    AlarmsExactlyWhen(own.errors);
    MembersExactlyWhen(rows, lead);
    hide AlarmsOf, MembersOf, IsSound, Stands, OnlyALearner;
    assert Findings(own, rows, lead, unread, share)
        == AlarmsOf(own.errors) + LeaderFound(own) + MembersFound(rows, lead, unread) + StorageFound(share);
    hide Findings;
    StandsInJoin(AlarmsOf(own.errors), LeaderFound(own), MembersFound(rows, lead, unread), StorageFound(share), w);
  }

  lemma StandsInJoin(alarms: seq<Finding>, leader: seq<Finding>, members: seq<Finding>, storage: seq<Finding>, w: nat)
    requires Stands(alarms + leader + members + storage, w) && |storage| <= 1
    requires forall i | 0 <= i < |alarms| :: alarms[i].grade == GradeFail
    requires forall i | 0 <= i < |leader| :: leader[i].grade == GradeFail
    requires forall i | 0 <= i < |members| :: members[i].grade == GradeWarn
    ensures (alarms + leader + members + storage)[w] ==
            if alarms != [] then alarms[0]
            else if leader != [] then leader[0]
            else if storage != [] && storage[0].grade == GradeFail then storage[0]
            else if members != [] then members[0]
            else if storage != [] then storage[0]
            else Finding(GradeWarn, NearQuota)
  {
    var found := alarms + leader + members + storage;
    if alarms != [] || leader != [] {
      assert found[0].grade == GradeFail;
    } else {
      assert found == members + storage;
      if storage != [] && storage[0].grade == GradeFail {
        assert found[|members|] == storage[0];
        assert forall i | 0 <= i < |members| :: found[i].grade == GradeWarn;
      } else {
        assert forall i | 0 <= i < |found| :: found[i].grade == GradeWarn;
        assert Rank(found[0].grade) == Rank(found[w].grade);
      }
    }
  }

  method CompactOverview(own: Status, rows: seq<Row>, lead: LeaderView, unread: bool, share: Option<Grade>)
    returns (v: Verdict, q: Quorum)
    ensures v.Ok? <==> Findings(own, rows, lead, unread, share) == []
    ensures v.Bad? ==> exists w: nat ::
              Stands(Findings(own, rows, lead, unread, share), w) && v.finding == Findings(own, rows, lead, unread, share)[w]
    ensures v.Bad? ==> IsSaid(own, rows, lead, unread, share, v.finding)
    ensures q.Counted? ==>
              && !unread
              && q.voters == CountIf(rows, Voters()) > 0 && q.answered == CountIf(rows, Answering())
              && IsMajority(q.needed, q.voters)
              && forall i | 0 <= i < |rows| && !rows[i].member.learner :: !rows[i].notAsked
    ensures v.Ok? ==> StatusOk(own, rows, lead, unread, share)
    ensures v.Ok? && q.Counted? ==> AllAnswer(rows, lead) && q.answered == q.voters >= q.needed
  {
    var alarms := AlarmsRow(own);
    var members;
    q, members := QuorumRow(rows, lead);
    if unread {
      q, members := NotCounted, [Finding(GradeWarn, QuorumUnread)];
    }
    var found := alarms + LeaderFound(own) + members + StorageFound(share);
    v := Worst(found);
    OkExactlyWhen(own, rows, lead, unread, share);
    if v.Bad? {
      ghost var w: nat :| Stands(found, w) && v.finding == found[w];
      StandingIsSaid(own, rows, lead, unread, share, w);
    }
    if v.Ok? && q.Counted? {
      OkMeansAnswering(own, rows, lead, unread, share);
      AnsweringVote(rows);
    }
  }

  /** What the status ok says. */
  ghost predicate StatusOk(own: Status, rows: seq<Row>, lead: LeaderView, unread: bool, share: Option<Grade>) {
    && (forall i | 0 <= i < |own.errors| :: own.errors[i] == NO_LEADER_ERROR)
    && own.leader != 0
    && !unread
    && (OnlyALearner(rows) || forall i | 0 <= i < |rows| :: IsSound(rows[i], lead) || (rows[i].st == None && rows[i].notAsked))
    && share == None
  }

  /** Every voter answered and is well, and so is every other member that answered. */
  ghost predicate AllAnswer(rows: seq<Row>, lead: LeaderView) {
    forall i | 0 <= i < |rows| :: (!rows[i].member.learner || rows[i].st.Some?) ==> IsSound(rows[i], lead)
  }

  lemma {:induction false} AlarmsExactlyWhen(errors: seq<string>)
    ensures AlarmsOf(errors) == [] <==> forall i | 0 <= i < |errors| :: errors[i] == NO_LEADER_ERROR
    ensures forall i | 0 <= i < |AlarmsOf(errors)| :: AlarmsOf(errors)[i].grade == GradeFail
  {
    if errors != [] {
      AlarmsExactlyWhen(errors[..|errors| - 1]);
    }
  }

  lemma {:induction false} MembersExactlyWhen(rows: seq<Row>, lead: LeaderView)
    ensures MembersOf(rows, lead) == [] <==>
              forall i | 0 <= i < |rows| :: IsSound(rows[i], lead) || (rows[i].st == None && rows[i].notAsked)
    ensures forall i | 0 <= i < |MembersOf(rows, lead)| :: MembersOf(rows, lead)[i].grade == GradeWarn
  {
    if rows != [] {
      var n := |rows| - 1;
      MembersExactlyWhen(rows[..n], lead);
      WellExactlyWhen(rows[n], lead);
      assert forall i | 0 <= i < n :: rows[..n][i] == rows[i];
    }
  }

  /** The status is ok exactly when the endpoint raises no alarm and has a leader, the
      member list was read and every member asked is well, and the storage grades nothing. */
  lemma OkExactlyWhen(own: Status, rows: seq<Row>, lead: LeaderView, unread: bool, share: Option<Grade>)
    ensures Findings(own, rows, lead, unread, share) == [] <==> StatusOk(own, rows, lead, unread, share)
  {
    AlarmsExactlyWhen(own.errors);
    MembersExactlyWhen(rows, lead);
  }

  /** ok, and every voter was asked: then every voter answered, with the endpoint's leader. */
  lemma {:induction false} OkMeansAnswering(own: Status, rows: seq<Row>, lead: LeaderView, unread: bool, share: Option<Grade>)
    requires StatusOk(own, rows, lead, unread, share)
    requires CountIf(rows, Voters()) > 0
    requires forall i | 0 <= i < |rows| && !rows[i].member.learner :: !rows[i].notAsked
    ensures AllAnswer(rows, lead)
    ensures CountIf(rows, Answering()) == CountIf(rows, Voters()) >= Needed(CountIf(rows, Voters()))
  {
    if OnlyALearner(rows) {
      assert rows[..0] == [];
    }
    AnsweringVote(rows);
  }

  /** The status is a failure exactly when the endpoint raises an alarm, has no leader or is
      at its quota: members that are down or behind are a warning, however many. */
  lemma FailExactlyWhen(own: Status, rows: seq<Row>, lead: LeaderView, unread: bool, share: Option<Grade>, w: nat)
    requires Stands(Findings(own, rows, lead, unread, share), w)
    ensures Findings(own, rows, lead, unread, share)[w].grade == GradeFail <==>
              || (exists i :: 0 <= i < |own.errors| && own.errors[i] != NO_LEADER_ERROR)
              || own.leader == 0
              || share == Some(GradeFail)
  {
    StandingIsFirst(own, rows, lead, unread, share, w);
    AlarmsExactlyWhen(own.errors);
    MembersExactlyWhen(rows, lead);
    hide Findings, AlarmsOf, MembersOf, IsSound, Stands;
  }

  // ----- from the member list to the status ----------------------------------------------------------------

  /** What the endpoint answered when it was asked for the member list. */
  datatype ListAnswer = Served(list: seq<Listed>) | NotToALearner | Failed

  function AnswerOf(m: Listed, self: nat, own: Status, reply: Option<Status>): Option<Status> {
    if m.id == self then Some(own) else reply
  }

  /** An answer that names the leader and reports nothing. */
  predicate NamesLeader(answer: Option<Status>, leader: nat) {
    answer.Some? && answer.value.leader == leader && answer.value.errors == []
  }

  /** One that is on the leader's term and no further behind the leader's own answer than
      the log the leader keeps. */
  predicate KeepsUp(answer: Option<Status>, leaders: Option<Status>) {
    && answer.Some? && leaders.Some?
    && answer.value.term == leaders.value.term
    && leaders.value.index < answer.value.index + CATCH_UP_ENTRIES
  }

  /** Every voter listed names the endpoint's leader, and all but the endpoint were called. */
  ghost predicate VotersName(list: seq<Listed>, self: nat, own: Status, replies: seq<Option<Status>>, dialled: set<nat>)
    requires |replies| == |list|
  {
    forall i | 0 <= i < |list| && !list[i].learner ::
      && NamesLeader(AnswerOf(list[i], self, own, replies[i]), own.leader)
      && (list[i].id == self || i in dialled)
  }

  /** Every voter listed keeps up with the leader's own answer, when the leader votes too. */
  ghost predicate VotersFollow(list: seq<Listed>, self: nat, own: Status, replies: seq<Option<Status>>)
    requires |replies| == |list|
  {
    forall i, l | 0 <= i < |list| && 0 <= l < |list| && !list[i].learner && !list[l].learner
                && list[l].id == own.leader && list[i].id != own.leader ::
      KeepsUp(AnswerOf(list[i], self, own, replies[i]), AnswerOf(list[l], self, own, replies[l]))
  }

  /** The finding of an endpoint whose list was not served: its own alarm, leader or quota,
      or that the list was not read. */
  ghost predicate SaysOfItself(own: Status, unread: bool, share: Option<Grade>, f: Finding) {
    IsSaid(own, [], LeaderView(own.leader, None), unread, share, f)
  }

  /** The finding over rows made of the members' answers, as the endpoint's leader sees them. */
  ghost predicate SaysOfList(list: seq<Listed>, self: nat, own: Status, skip: bool, replies: seq<Option<Status>>,
                             share: Option<Grade>, f: Finding)
    requires |replies| == |list|
  {
    exists rows: seq<Row>, lead: LeaderView :: IsSaid(own, rows, lead, false, share, f) && lead.id == own.leader && |rows| == |list|
                         && (forall i | 0 <= i < |list| :: RowOf(list[i], self, own, skip, replies[i], rows[i]))
                         && (Distinct(list) ==> forall i | 0 <= i < |rows| && rows[i].member.id == lead.id :: lead.st == rows[i].st)
  }

  lemma SaidOverRows(list: seq<Listed>, self: nat, own: Status, skip: bool, replies: seq<Option<Status>>,
                     share: Option<Grade>, f: Finding, rows: seq<Row>, lead: LeaderView)
    requires |replies| == |list| == |rows|
    requires IsSaid(own, rows, lead, false, share, f) && lead.id == own.leader
    requires forall i | 0 <= i < |list| :: RowOf(list[i], self, own, skip, replies[i], rows[i])
    requires Distinct(list) ==> forall i | 0 <= i < |rows| && rows[i].member.id == lead.id :: lead.st == rows[i].st
    ensures SaysOfList(list, self, own, skip, replies, share, f)
  {
    hide IsSaid, RowOf;
  }

  lemma DistinctRows(list: seq<Listed>, self: nat, own: Status, skip: bool, replies: seq<Option<Status>>, rows: seq<Row>)
    requires |replies| == |list| == |rows| && Distinct(list)
    requires forall i | 0 <= i < |list| :: RowOf(list[i], self, own, skip, replies[i], rows[i])
    ensures forall i, j | 0 <= i < j < |rows| :: rows[i].member.id != rows[j].member.id
  {
    assert forall i | 0 <= i < |list| :: rows[i].member == list[i];
  }

  lemma SaidWithoutRows(own: Status, rows: seq<Row>, lead: LeaderView, unread: bool, share: Option<Grade>, f: Finding)
    requires (unread || OnlyALearner(rows)) && IsSaid(own, rows, lead, unread, share, f)
    ensures SaysOfItself(own, unread, share, f)
  {
  }

  /** The whole page: ok with a counted quorum says it of every voter the endpoint listed,
      from that voter's own answer, and each of those but the endpoint was called. */
  method OverviewView(answered: ListAnswer, self: nat, own: Status, skip: bool, replies: seq<Option<Status>>,
                      share: Option<Grade>)
    returns (v: Verdict, q: Quorum, dialled: set<nat>)
    requires answered.Served? ==> |replies| == |answered.list|
    ensures answered.Failed? ==> !v.Ok? && q.NotCounted?
    ensures answered.NotToALearner? ==> q.NotCounted?
    ensures !answered.Served? && v.Bad? ==> SaysOfItself(own, answered.Failed?, share, v.finding)
    ensures answered.Served? && v.Bad? ==> SaysOfList(answered.list, self, own, skip, replies, share, v.finding)
    ensures !answered.Served? || skip ==> dialled == {}
    ensures v.Ok? && q.Counted? ==>
              && answered.Served? && own.leader != 0
              && VotersName(answered.list, self, own, replies, dialled)
              && (Distinct(answered.list) ==> VotersFollow(answered.list, self, own, replies))
  {
    var rows: seq<Row>;
    dialled := {};
    match answered {
      case Failed => rows := [Row(Listed(self, "", false, false, true), Some(own), false)];
      case NotToALearner => rows := [Row(Listed(self, "", true, false, true), Some(own), false)];
      case Served(list) => rows, dialled := AskMembers(list, self, own, skip, replies);
    }
    var lead := LeaderOf(own, rows);
    if answered.Served? && Distinct(answered.list) {
      DistinctRows(answered.list, self, own, skip, replies, rows);
    }
    hide RowOf, AllAnswer, VotersName, VotersFollow, IsSaid, SaysOfItself, SaysOfList, Distinct, StatusOk, Stands, Findings;
    v, q := CompactOverview(own, rows, lead, answered.Failed?, share);
    if answered.NotToALearner? {
      assert rows[..0] == [];
    }
    if v.Bad? && !answered.Served? {
      SaidWithoutRows(own, rows, lead, answered.Failed?, share, v.finding);
    }
    if v.Bad? && answered.Served? {
      SaidOverRows(answered.list, self, own, skip, replies, share, v.finding, rows, lead);
    }
    if v.Ok? && q.Counted? {
      VotersSay(answered.list, self, own, skip, replies, rows, lead, dialled);
      if Distinct(answered.list) {
        VotersKeepUp(answered.list, self, own, skip, replies, rows, lead);
      }
    }
  }

  ghost predicate Distinct(list: seq<Listed>) {
    forall i, j | 0 <= i < j < |list| :: list[i].id != list[j].id
  }

  lemma VotersSay(list: seq<Listed>, self: nat, own: Status, skip: bool, replies: seq<Option<Status>>,
                  rows: seq<Row>, lead: LeaderView, dialled: set<nat>)
    requires |replies| == |list| == |rows|
    requires forall i | 0 <= i < |list| :: RowOf(list[i], self, own, skip, replies[i], rows[i])
    requires forall i :: i in dialled <==> 0 <= i < |list| && list[i].id != self && list[i].started && !skip && list[i].safe
    requires AllAnswer(rows, lead) && lead.id == own.leader != 0
    ensures VotersName(list, self, own, replies, dialled)
  {
    VotersNameLeader(list, self, own, skip, replies, rows, lead);
    hide RowOf, IsSound, NamesLeader, AllAnswer;
    VotersWereCalled(list, self, own, skip, replies, rows);
  }

  lemma VotersNameLeader(list: seq<Listed>, self: nat, own: Status, skip: bool, replies: seq<Option<Status>>,
                         rows: seq<Row>, lead: LeaderView)
    requires |replies| == |list| == |rows|
    requires forall i | 0 <= i < |list| :: RowOf(list[i], self, own, skip, replies[i], rows[i])
    requires AllAnswer(rows, lead) && lead.id == own.leader != 0
    ensures forall i | 0 <= i < |list| && !list[i].learner ::
              rows[i].st.Some? && NamesLeader(AnswerOf(list[i], self, own, replies[i]), own.leader)
  {
    forall i | 0 <= i < |list| && !list[i].learner
      ensures rows[i].st.Some? && NamesLeader(AnswerOf(list[i], self, own, replies[i]), own.leader)
    {
      assert RowOf(list[i], self, own, skip, replies[i], rows[i]) && IsSound(rows[i], lead);
    }
  }

  lemma VotersWereCalled(list: seq<Listed>, self: nat, own: Status, skip: bool, replies: seq<Option<Status>>, rows: seq<Row>)
    requires |replies| == |list| == |rows|
    requires forall i | 0 <= i < |list| :: RowOf(list[i], self, own, skip, replies[i], rows[i])
    requires forall i | 0 <= i < |list| && !list[i].learner :: rows[i].st.Some?
    ensures forall i | 0 <= i < |list| && !list[i].learner ::
              list[i].id == self || (list[i].started && !skip && list[i].safe)
  {
    forall i | 0 <= i < |list| && !list[i].learner
      ensures list[i].id == self || (list[i].started && !skip && list[i].safe)
    {
      assert RowOf(list[i], self, own, skip, replies[i], rows[i]);
    }
  }

  lemma VotersKeepUp(list: seq<Listed>, self: nat, own: Status, skip: bool, replies: seq<Option<Status>>,
                     rows: seq<Row>, lead: LeaderView)
    requires |replies| == |list| == |rows|
    requires forall i | 0 <= i < |list| :: RowOf(list[i], self, own, skip, replies[i], rows[i])
    requires lead.id == own.leader != 0 && AllAnswer(rows, lead)
    requires forall i | 0 <= i < |rows| && rows[i].member.id == lead.id :: lead.st == rows[i].st
    ensures VotersFollow(list, self, own, replies)
  {
    forall i | 0 <= i < |list| && !list[i].learner
      ensures AnswerOf(list[i], self, own, replies[i]) == rows[i].st && rows[i].member == list[i] && IsSound(rows[i], lead)
    {
      assert RowOf(list[i], self, own, skip, replies[i], rows[i]);
    }
  }
}
