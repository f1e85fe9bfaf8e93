// The life of bug reports: a report joins the live one of its fingerprint, closing one closes
// its followers and tells their authors once, and the watch alerts on what drags on.
module BugReports {
  import opened Prelude
  import opened Sorting

  datatype Status = New | Triaged | IssueCreated | Duplicate | Rejected | Resolved

  // Times are in hours.
  const OVERDUE_AFTER := 48
  const REALERT_EVERY := 24

  // `user` is zero for an anonymous report. A report's id is its place in the table.
  datatype Report = Report(fingerprint: nat, user: nat, status: Status, duplicateOf: Option<nat>, occurrences: nat,
                           issue: Option<nat>, createdAt: Option<int>)

  // One recorded overdue alert: when it was decided, and the date the database put on it.
  datatype Alert = Alert(report: nat, decidedAt: int, stamp: int)

  datatype Notice = Notice(report: nat, user: nat, status: Status)

  datatype Db = Db(reports: seq<Report>, alerts: seq<Alert>)

  predicate ClosedStatus(s: Status) { s.Resolved? || s.Rejected? || s.Duplicate? }

  // ------------------------------------------------------------------ creating

  // What a new report of the fingerprint joins.
  predicate Live(r: Report) { r.duplicateOf.None? && !r.status.Resolved? && !r.status.Rejected? }

  predicate IsLive(rs: seq<Report>, i: nat, fingerprint: nat) {
    i < |rs| && rs[i].fingerprint == fingerprint && Live(rs[i])
  }

  function FirstLive(rs: seq<Report>, fingerprint: nat): (r: Option<nat>)
    ensures r.Some? ==> IsLive(rs, r.value, fingerprint) && forall j: nat :: j < r.value ==> !IsLive(rs, j, fingerprint)
    ensures r.None? ==> forall j: nat :: !IsLive(rs, j, fingerprint)
  {
    if rs == [] then None
    else
      var init := rs[..|rs| - 1];
      var before := FirstLive(init, fingerprint);
      assert forall j: nat :: IsLive(rs, j, fingerprint) && j < |init| ==> IsLive(init, j, fingerprint);
      if before.Some? then before
      else if IsLive(rs, |rs| - 1, fingerprint) then Some(|rs| - 1) else None
  }

  function More(occurrences: nat): nat { (if occurrences == 0 then 1 else occurrences) + 1 }

  function Created(db: Db, user: nat, fingerprint: nat, at: Option<int>): Db {
    var canonical := FirstLive(db.reports, fingerprint);
    var report := Report(fingerprint, user, New, canonical, 1, None, at);
    if canonical.None? then db.(reports := db.reports + [report])
    else
      var c := canonical.value;
      db.(reports := db.reports[c := db.reports[c].(occurrences := More(db.reports[c].occurrences))] + [report])
  }

  // ------------------------------------------------------------------ closing

  function ClosureNotice(rs: seq<Report>, i: nat, to: Status, actor: nat): seq<Notice> {
    if i >= |rs| || !ClosedStatus(to) || ClosedStatus(rs[i].status) || rs[i].user == 0 || rs[i].user == actor then []
    else [Notice(i, rs[i].user, to)]
  }

  predicate OpenFollower(rs: seq<Report>, i: nat, id: nat)
    requires i < |rs|
  {
    rs[i].duplicateOf == Some(id) && !ClosedStatus(rs[i].status)
  }

  // The followers among the first n that are still open.
  function Followers(rs: seq<Report>, id: nat, n: nat): seq<nat>
    requires n <= |rs|
  {
    if n == 0 then [] else Followers(rs, id, n - 1) + if OpenFollower(rs, n - 1, id) then [n - 1] else []
  }

  function SetStatus(rs: seq<Report>, i: nat, to: Status): (r: seq<Report>)
    ensures |r| == |rs|
  {
    if i < |rs| then rs[i := rs[i].(status := to)] else rs
  }

  function CloseEach(rs: seq<Report>, ids: seq<nat>, to: Status): (r: seq<Report>)
    ensures |r| == |rs|
  {
    if ids == [] then rs else SetStatus(CloseEach(rs, ids[..|ids| - 1], to), ids[|ids| - 1], to)
  }

  function NoticesFor(rs: seq<Report>, ids: seq<nat>, to: Status, actor: nat): seq<Notice> {
    if ids == [] then []
    else
      NoticesFor(rs, ids[..|ids| - 1], to, actor) + ClosureNotice(rs, ids[|ids| - 1], to, actor)
  }

  ghost predicate Ascending(s: seq<nat>) { forall a, b :: 0 <= a < b < |s| ==> s[a] < s[b] }

  lemma {:induction false} FollowersAre(rs: seq<Report>, id: nat, n: nat)
    requires n <= |rs|
    ensures forall i: nat :: i in Followers(rs, id, n) <==> i < n && OpenFollower(rs, i, id)
    ensures Ascending(Followers(rs, id, n))
  {
    if n > 0 {
      FollowersAre(rs, id, n - 1);
      var before := Followers(rs, id, n - 1);
      forall a | 0 <= a < |before| ensures before[a] < n - 1 { assert before[a] in before; }
      assert Ascending(before + if OpenFollower(rs, n - 1, id) then [n - 1] else []);
    }
  }

  function Closing(rs: seq<Report>, id: nat, to: Status, actor: nat): (seq<Report>, seq<Notice>) {
    var mid := SetStatus(rs, id, to);
    var followers := Followers(mid, id, |mid|);
    (CloseEach(mid, followers, to), ClosureNotice(rs, id, to, actor) + NoticesFor(mid, followers, to, actor))
  }

  lemma {:induction false} CloseEachAt(rs: seq<Report>, ids: seq<nat>, to: Status, i: nat)
    requires i < |rs|
    ensures CloseEach(rs, ids, to)[i] == if i in ids then rs[i].(status := to) else rs[i]
  {
    if ids == [] {
    } else {
      CloseEachAt(rs, ids[..|ids| - 1], to, i);
      assert ids == ids[..|ids| - 1] + [ids[|ids| - 1]];
    }
  }

  predicate Unfollowed(rs: seq<Report>, id: nat) { id < |rs| ==> rs[id].duplicateOf != Some(id) }

  // Closing a report closes every follower that is still open and touches nothing else.
  lemma ClosingClosesFollowers(rs: seq<Report>, id: nat, to: Status, actor: nat, i: nat)
    requires i < |rs| && Unfollowed(rs, id)
    ensures |Closing(rs, id, to, actor).0| == |rs|
    ensures Closing(rs, id, to, actor).0[i] ==
            if i == id || OpenFollower(rs, i, id) then rs[i].(status := to) else rs[i]
  {
    var mid := SetStatus(rs, id, to);
    FollowersAre(mid, id, |mid|);
    CloseEachAt(mid, Followers(mid, id, |mid|), to, i);
  }

  function NoticeCount(notices: seq<Notice>, report: nat): nat {
    if notices == [] then 0
    else NoticeCount(notices[..|notices| - 1], report) + if notices[|notices| - 1].report == report then 1 else 0
  }

  lemma {:induction false} NoticeCountAdds(a: seq<Notice>, b: seq<Notice>, report: nat)
    ensures NoticeCount(a + b, report) == NoticeCount(a, report) + NoticeCount(b, report)
  {
    if b == [] {
      assert a + b == a;
    } else {
      NoticeCountAdds(a, b[..|b| - 1], report);
      assert (a + b)[..|a + b| - 1] == a + b[..|b| - 1];
    }
  }

  predicate Passes(before: Report, after: Report) { !ClosedStatus(before.status) && ClosedStatus(after.status) }

  predicate Told(r: Report, actor: nat) { r.user != 0 && r.user != actor }

  // Closing this report is told to its author.
  predicate Notified(r: Report, to: Status, actor: nat) {
    ClosedStatus(to) && !ClosedStatus(r.status) && Told(r, actor)
  }

  lemma OneNotice(rs: seq<Report>, i: nat, to: Status, actor: nat, report: nat)
    requires report < |rs|
    ensures NoticeCount(ClosureNotice(rs, i, to, actor), report) ==
            if i == report && Notified(rs[report], to, actor) then 1 else 0
  {
    var n := ClosureNotice(rs, i, to, actor);
    if n != [] { assert n[..0] == []; }
  }

  lemma NoticesForOneMore(rs: seq<Report>, ids: seq<nat>, id: nat, to: Status, actor: nat, report: nat)
    requires report < |rs|
    ensures NoticeCount(NoticesFor(rs, ids + [id], to, actor), report) ==
            NoticeCount(NoticesFor(rs, ids, to, actor), report) +
                if id == report && Notified(rs[report], to, actor) then 1 else 0
  {
    assert (ids + [id])[..|ids|] == ids;
    NoticeCountAdds(NoticesFor(rs, ids, to, actor), ClosureNotice(rs, id, to, actor), report);
    OneNotice(rs, id, to, actor, report);
  }

  lemma {:induction false} NoticesForCount(rs: seq<Report>, ids: seq<nat>, to: Status, actor: nat, report: nat)
    requires report < |rs|
    requires Ascending(ids)
    ensures NoticeCount(NoticesFor(rs, ids, to, actor), report) ==
            if report in ids && Notified(rs[report], to, actor) then 1 else 0
  {
    if ids == [] {
    } else {
      var init, last := ids[..|ids| - 1], ids[|ids| - 1];
      assert ids == init + [last];
      NoticesForCount(rs, init, to, actor, report);
      NoticesForOneMore(rs, init, last, to, actor, report);
      assert last !in init;
    }
  }

  // One notice for each report that passes from open to closed and whose author is known
  // and not the one who closes it; no other notice.
  lemma OneNoticePerPassage(rs: seq<Report>, id: nat, to: Status, actor: nat, i: nat)
    requires i < |rs| && Unfollowed(rs, id)
    ensures var (after, notices) := Closing(rs, id, to, actor);
            && |after| == |rs|
            && NoticeCount(notices, i) == if Passes(rs[i], after[i]) && Told(rs[i], actor) then 1 else 0
  {
    var mid := SetStatus(rs, id, to);
    var followers := Followers(mid, id, |mid|);
    FollowersAre(mid, id, |mid|);
    ClosingClosesFollowers(rs, id, to, actor, i);
    NoticesForCount(mid, followers, to, actor, i);
    OneNotice(rs, id, to, actor, i);
    NoticeCountAdds(ClosureNotice(rs, id, to, actor), NoticesFor(mid, followers, to, actor), i);
  }

  // ------------------------------------------------------------------ the watch

  // The date of the last alert recorded for a report.
  function LastAlert(alerts: seq<Alert>, id: nat): Option<int> {
    if alerts == [] then None
    else
      var before, last := LastAlert(alerts[..|alerts| - 1], id), alerts[|alerts| - 1];
      if last.report != id then before
      else if before.Some? && before.value >= last.stamp then before else Some(last.stamp)
  }

  predicate IsOverdue(r: Report, lastAlert: Option<int>, now: int) {
    && !ClosedStatus(r.status)
    && r.createdAt.Some? && now - r.createdAt.value >= OVERDUE_AFTER
    && (lastAlert.None? || now - lastAlert.value >= REALERT_EVERY)
  }

  predicate Watched(r: Report) { !ClosedStatus(r.status) && r.duplicateOf.None? }

  predicate IssueClosed(r: Report, closedIssues: set<nat>) { r.issue.Some? && r.issue.value in closedIssues }

  datatype Late = Late(id: nat, createdAt: int)

  const BY_AGE: Late -> int := (l: Late) => l.createdAt

  // What a pass plans for the first n reports: which to resolve, and which to alert.
  function Planned(db: Db, closedIssues: set<nat>, now: int, n: nat): (seq<nat>, seq<Late>)
    requires n <= |db.reports|
  {
    if n == 0 then ([], [])
    else
      var (resolve, alert) := Planned(db, closedIssues, now, n - 1);
      var r := db.reports[n - 1];
      if !Watched(r) then (resolve, alert)
      else if IssueClosed(r, closedIssues) then (resolve + [n - 1], alert)
      else if IsOverdue(r, LastAlert(db.alerts, n - 1), now) then (resolve, alert + [Late(n - 1, r.createdAt.value)])
      else (resolve, alert)
  }

  lemma {:induction false} PlannedAre(db: Db, closedIssues: set<nat>, now: int, n: nat)
    requires n <= |db.reports|
    ensures var (resolve, alert) := Planned(db, closedIssues, now, n);
            && (forall i: nat :: i in resolve <==>
                i < n && Watched(db.reports[i]) && IssueClosed(db.reports[i], closedIssues))
            && (forall l :: l in alert <==> l.id < n && MustAlert(db, closedIssues, now, l))
            && (forall a, b :: 0 <= a < b < |resolve| ==> resolve[a] < resolve[b])
            && (forall a, b :: 0 <= a < b < |alert| ==> alert[a].id < alert[b].id)
  {
    if n > 0 {
      PlannedAre(db, closedIssues, now, n - 1);
      var (resolve, alert) := Planned(db, closedIssues, now, n - 1);
      assert forall a :: 0 <= a < |resolve| ==> resolve[a] in resolve;
      assert forall a :: 0 <= a < |alert| ==> alert[a] in alert;
    }
  }

  // Watched, its issue not closed, and overdue.
  predicate MustAlert(db: Db, closedIssues: set<nat>, now: int, l: Late) {
    && l.id < |db.reports| && Watched(db.reports[l.id]) && !IssueClosed(db.reports[l.id], closedIssues)
    && IsOverdue(db.reports[l.id], LastAlert(db.alerts, l.id), now)
    && db.reports[l.id].createdAt == Some(l.createdAt)
  }

  function ResolveAll(rs: seq<Report>, ids: seq<nat>): (r: (seq<Report>, seq<Notice>))
    ensures |r.0| == |rs|
  {
    if ids == [] then (rs, [])
    else
      var (mid, notices) := ResolveAll(rs, ids[..|ids| - 1]);
      var (after, more) := Closing(mid, ids[|ids| - 1], Resolved, 0);
      (after, notices + more)
  }

  function Recorded(late: seq<Late>, now: int, stamp: int): seq<Alert> {
    if late == [] then [] else Recorded(late[..|late| - 1], now, stamp) + [Alert(late[|late| - 1].id, now, stamp)]
  }

  function Tick(db: Db, closedIssues: set<nat>, now: int, stamp: int): (Db, seq<Notice>) {
    var (resolve, alert) := Planned(db, closedIssues, now, |db.reports|);
    var (reports, notices) := ResolveAll(db.reports, resolve);
    (Db(reports, db.alerts + Recorded(SortBy(BY_AGE, alert), now, stamp)), notices)
  }

  // ------------------------------------------------------------------ every step

  datatype Op =
    | Create(user: nat, fingerprint: nat, at: Option<int>)
    | Triage(id: nat, status: Option<Status>, actor: nat)
    | CreateIssue(id: nat, number: nat)
    | Watch(closedIssues: set<nat>, now: int, stamp: int)

  function Step(db: Db, op: Op): (Db, seq<Notice>) {
    match op
    case Create(user, fingerprint, at) => (Created(db, user, fingerprint, at), [])
    case Triage(id, status, actor) =>
      if id >= |db.reports| || status.None? then (db, [])
      else if ClosedStatus(status.value) then
        var (reports, notices) := Closing(db.reports, id, status.value, actor);
        (db.(reports := reports), notices)
      else (db.(reports := SetStatus(db.reports, id, status.value)), [])
    case CreateIssue(id, number) =>
      if id >= |db.reports| || db.reports[id].issue.Some? then (db, [])
      else (db.(reports := db.reports[id := db.reports[id].(issue := Some(number), status := IssueCreated)]), [])
    case Watch(closedIssues, now, stamp) => Tick(db, closedIssues, now, stamp)
  }

  const EMPTY := Db([], [])

  function Run(ops: seq<Op>): Db {
    if ops == [] then EMPTY else Step(Run(ops[..|ops| - 1]), ops[|ops| - 1]).0
  }

  // ------------------------------------------------------------------ shape of the table

  function FollowerCount(rs: seq<Report>, id: nat): nat {
    if rs == [] then 0
    else FollowerCount(rs[..|rs| - 1], id) + if rs[|rs| - 1].duplicateOf == Some(id) then 1 else 0
  }

  // A report follows an earlier one that follows nothing, and each counts itself and its
  // followers.
  ghost predicate WellCounted(rs: seq<Report>) {
    && (forall i: nat :: i < |rs| && rs[i].duplicateOf.Some? ==>
          rs[i].duplicateOf.value < i && rs[rs[i].duplicateOf.value].duplicateOf.None?)
    && (forall i: nat :: i < |rs| ==> rs[i].occurrences == 1 + FollowerCount(rs, i))
  }

  // What closing, triage and issues leave alone.
  ghost predicate SameLinks(rs: seq<Report>, rs': seq<Report>) {
    |rs| == |rs'| && forall i :: 0 <= i < |rs| ==>
      rs'[i].duplicateOf == rs[i].duplicateOf && rs'[i].occurrences == rs[i].occurrences
      && rs'[i].fingerprint == rs[i].fingerprint && rs'[i].user == rs[i].user && rs'[i].createdAt == rs[i].createdAt
  }

  lemma {:induction false} SameFollowers(rs: seq<Report>, rs': seq<Report>, id: nat)
    requires SameLinks(rs, rs')
    ensures FollowerCount(rs, id) == FollowerCount(rs', id)
  {
    if rs == [] {
    } else {
      SameFollowers(rs[..|rs| - 1], rs'[..|rs'| - 1], id);
    }
  }

  lemma SameLinksCounted(rs: seq<Report>, rs': seq<Report>)
    requires SameLinks(rs, rs') && WellCounted(rs)
    ensures WellCounted(rs')
  {
    forall i: nat | i < |rs'| ensures rs'[i].occurrences == 1 + FollowerCount(rs', i) { SameFollowers(rs, rs', i); }
  }

  lemma ClosingLinks(rs: seq<Report>, id: nat, to: Status, actor: nat)
    requires WellCounted(rs)
    ensures SameLinks(rs, Closing(rs, id, to, actor).0)
  {
    forall i: nat | i < |rs| ensures |Closing(rs, id, to, actor).0| == |rs|
      ensures Closing(rs, id, to, actor).0[i] == rs[i] || Closing(rs, id, to, actor).0[i] == rs[i].(status := to)
    {
      ClosingClosesFollowers(rs, id, to, actor, i);
    }
  }

  lemma {:induction false} ResolveLinks(rs: seq<Report>, ids: seq<nat>)
    requires WellCounted(rs)
    ensures SameLinks(rs, ResolveAll(rs, ids).0) && WellCounted(ResolveAll(rs, ids).0)
  {
    if ids == [] {
    } else {
      ResolveLinks(rs, ids[..|ids| - 1]);
      var mid := ResolveAll(rs, ids[..|ids| - 1]).0;
      ClosingLinks(mid, ids[|ids| - 1], Resolved, 0);
      SameLinksCounted(rs, ResolveAll(rs, ids).0);
    }
  }

  lemma CreatedCounted(db: Db, user: nat, fingerprint: nat, at: Option<int>)
    requires WellCounted(db.reports)
    ensures WellCounted(Created(db, user, fingerprint, at).reports)
  {
    var rs' := Created(db, user, fingerprint, at).reports;
    CreatedLinks(db, user, fingerprint, at);
    forall i: nat | i < |rs'| ensures rs'[i].occurrences == 1 + FollowerCount(rs', i) {
      CreatedCountedAt(db, user, fingerprint, at, i);
    }
  }

  lemma CreatedLinks(db: Db, user: nat, fingerprint: nat, at: Option<int>)
    requires WellCounted(db.reports)
    ensures var rs' := Created(db, user, fingerprint, at).reports;
            forall i: nat :: i < |rs'| && rs'[i].duplicateOf.Some? ==>
              rs'[i].duplicateOf.value < i && rs'[rs'[i].duplicateOf.value].duplicateOf.None?
  {
  }

  lemma CreatedCountedAt(db: Db, user: nat, fingerprint: nat, at: Option<int>, i: nat)
    requires WellCounted(db.reports) && i < |Created(db, user, fingerprint, at).reports|
    ensures var rs' := Created(db, user, fingerprint, at).reports; rs'[i].occurrences == 1 + FollowerCount(rs', i)
  {
    CreatedFollowers(db, user, fingerprint, at, i);
    if i == |db.reports| {
      NewFollowsNothing(db.reports, i);
    } else {
      assert db.reports[i].occurrences == 1 + FollowerCount(db.reports, i);
    }
  }

  lemma CreatedFollowers(db: Db, user: nat, fingerprint: nat, at: Option<int>, id: nat)
    ensures FollowerCount(Created(db, user, fingerprint, at).reports, id) ==
            FollowerCount(db.reports, id) + if FirstLive(db.reports, fingerprint) == Some(id) then 1 else 0
  {
    var rs, rs' := db.reports, Created(db, user, fingerprint, at).reports;
    SameDuplicates(rs, rs'[..|rs|], id);
    assert rs'[..|rs'| - 1] == rs'[..|rs|];
  }

  lemma {:induction false} SameDuplicates(rs: seq<Report>, rs': seq<Report>, id: nat)
    requires |rs| == |rs'| && forall i :: 0 <= i < |rs| ==> rs'[i].duplicateOf == rs[i].duplicateOf
    ensures FollowerCount(rs, id) == FollowerCount(rs', id)
  {
    if rs == [] {
    } else {
      SameDuplicates(rs[..|rs| - 1], rs'[..|rs'| - 1], id);
    }
  }

  lemma {:induction false} NewFollowsNothing(rs: seq<Report>, id: nat)
    requires forall i: nat :: i < |rs| && rs[i].duplicateOf.Some? ==> rs[i].duplicateOf.value < id
    ensures FollowerCount(rs, id) == 0
  {
    if rs == [] {
    } else {
      NewFollowsNothing(rs[..|rs| - 1], id);
    }
  }

  lemma StepLinks(db: Db, op: Op)
    requires WellCounted(db.reports)
    ensures WellCounted(Step(db, op).0.reports)
    ensures !op.Create? ==> SameLinks(db.reports, Step(db, op).0.reports)
  {
    match op
    case Create(user, fingerprint, at) => CreatedCounted(db, user, fingerprint, at);
    case Triage(id, status, actor) =>
      if id < |db.reports| && status.Some? {
        if ClosedStatus(status.value) { ClosingLinks(db.reports, id, status.value, actor); }
        SameLinksCounted(db.reports, Step(db, op).0.reports);
      }
    case CreateIssue(id, number) => SameLinksCounted(db.reports, Step(db, op).0.reports);
    case Watch(closedIssues, now, stamp) =>
      PlannedAre(db, closedIssues, now, |db.reports|);
      ResolveLinks(db.reports, Planned(db, closedIssues, now, |db.reports|).0);
  }

  // Over any run: every report counts itself and the reports attached to it, and a report is
  // only ever attached to one that is attached to nothing.
  lemma {:induction false} OccurrencesCountFollowers(ops: seq<Op>)
    ensures WellCounted(Run(ops).reports)
  {
    if ops == [] {
    } else {
      OccurrencesCountFollowers(ops[..|ops| - 1]);
      StepLinks(Run(ops[..|ops| - 1]), ops[|ops| - 1]);
    }
  }

  // ------------------------------------------------------------------ one live report per fingerprint

  ghost predicate OneLive(rs: seq<Report>) {
    forall i, j :: 0 <= i < j < |rs| && Live(rs[i]) && Live(rs[j]) ==> rs[i].fingerprint != rs[j].fingerprint
  }

  // The step brings a finished canonical report back while its fingerprint has a live one.
  predicate RevivesBeside(db: Db, op: Op) {
    && ((op.Triage? && op.status.Some? && !op.status.value.Resolved? && !op.status.value.Rejected?)
        || (op.CreateIssue? && op.id < |db.reports| && db.reports[op.id].issue.None?))
    && op.id < |db.reports| && db.reports[op.id].duplicateOf.None? && !Live(db.reports[op.id])
    && FirstLive(db.reports, db.reports[op.id].fingerprint).Some?
  }

  // A step that only finishes reports, or leaves them as they were.
  ghost predicate NoneRevived(rs: seq<Report>, rs': seq<Report>) {
    SameLinks(rs, rs') && |rs| == |rs'| && forall i: nat :: i < |rs| && Live(rs'[i]) ==> Live(rs[i])
  }

  lemma NoneRevivedOneLive(rs: seq<Report>, rs': seq<Report>)
    requires NoneRevived(rs, rs') && OneLive(rs)
    ensures OneLive(rs')
  {
  }

  lemma {:induction false} ResolveRevivesNone(rs: seq<Report>, ids: seq<nat>)
    requires WellCounted(rs)
    ensures NoneRevived(rs, ResolveAll(rs, ids).0)
  {
    if ids == [] {
    } else {
      var last := ids[|ids| - 1];
      ResolveRevivesNone(rs, ids[..|ids| - 1]);
      ResolveLinks(rs, ids[..|ids| - 1]);
      ResolveLinks(rs, ids);
      var mid := ResolveAll(rs, ids[..|ids| - 1]).0;
      ClosingLinks(mid, last, Resolved, 0);
      forall i: nat | i < |rs| ensures Live(ResolveAll(rs, ids).0[i]) ==> Live(mid[i]) {
        ClosingClosesFollowers(mid, last, Resolved, 0, i);
      }
    }
  }

  // Setting the status of one canonical report, its followers aside.
  lemma OneStatusOneLive(rs: seq<Report>, rs': seq<Report>, id: nat)
    requires OneLive(rs) && SameLinks(rs, rs') && id < |rs|
    requires forall i :: 0 <= i < |rs| && i != id ==> (Live(rs'[i]) <==> Live(rs[i]))
    ensures OneLive(rs') <==>
            !(Live(rs'[id]) && !Live(rs[id]) && FirstLive(rs, rs[id].fingerprint).Some?)
  {
    var first := FirstLive(rs, rs[id].fingerprint);
    if Live(rs'[id]) && !Live(rs[id]) {
      if first.Some? {
        var k := first.value;
        assert Live(rs'[k]) && k != id && rs'[k].fingerprint == rs'[id].fingerprint;
      } else {
        forall i: nat | i < |rs| && i != id && Live(rs'[i]) ensures rs'[i].fingerprint != rs'[id].fingerprint {
          assert !IsLive(rs, i, rs[id].fingerprint);
        }
      }
    }
  }

  lemma CreateKeepsOneLive(db: Db, user: nat, fingerprint: nat, at: Option<int>)
    requires OneLive(db.reports)
    ensures OneLive(Created(db, user, fingerprint, at).reports)
  {
    var rs, rs' := db.reports, Created(db, user, fingerprint, at).reports;
    forall i, j | 0 <= i < j < |rs'| && Live(rs'[i]) && Live(rs'[j]) ensures rs'[i].fingerprint != rs'[j].fingerprint {
      if j == |rs| { assert !IsLive(rs, i, fingerprint); }
    }
  }

  lemma CloseKeepsOneLiveIff(rs: seq<Report>, id: nat, to: Status, actor: nat)
    requires WellCounted(rs) && OneLive(rs) && id < |rs|
    ensures var rs' := Closing(rs, id, to, actor).0;
            && |rs'| == |rs|
            && rs'[id] == rs[id].(status := to)
            && (OneLive(rs') <==> !(Live(rs'[id]) && !Live(rs[id]) && FirstLive(rs, rs[id].fingerprint).Some?))
  {
    var rs' := Closing(rs, id, to, actor).0;
    ClosingLinks(rs, id, to, actor);
    ClosingClosesFollowers(rs, id, to, actor, id);
    forall i | 0 <= i < |rs| && i != id ensures Live(rs'[i]) <==> Live(rs[i]) {
      ClosingClosesFollowers(rs, id, to, actor, i);
    }
    OneStatusOneLive(rs, rs', id);
  }

  lemma WatchKeepsOneLive(db: Db, closedIssues: set<nat>, now: int, stamp: int)
    requires WellCounted(db.reports) && OneLive(db.reports)
    ensures OneLive(Tick(db, closedIssues, now, stamp).0.reports)
  {
    var resolve := Planned(db, closedIssues, now, |db.reports|).0;
    ResolveRevivesNone(db.reports, resolve);
    NoneRevivedOneLive(db.reports, ResolveAll(db.reports, resolve).0);
  }

  // From a table with at most one live report per fingerprint, a step leaves one again if
  // and only if it does not bring a finished one back beside a live one.
  lemma StepKeepsOneLiveIff(db: Db, op: Op)
    requires WellCounted(db.reports) && OneLive(db.reports)
    ensures OneLive(Step(db, op).0.reports) <==> !RevivesBeside(db, op)
  {
    var rs := db.reports;
    match op
    case Create(user, fingerprint, at) => CreateKeepsOneLive(db, user, fingerprint, at);
    case Triage(id, status, actor) =>
      if id < |rs| && status.Some? {
        if ClosedStatus(status.value) {
          CloseKeepsOneLiveIff(rs, id, status.value, actor);
        } else {
          OneStatusOneLive(rs, SetStatus(rs, id, status.value), id);
        }
      }
    case CreateIssue(id, number) =>
      if id < |rs| && rs[id].issue.None? {
        OneStatusOneLive(rs, rs[id := rs[id].(issue := Some(number), status := IssueCreated)], id);
      }
    case Watch(closedIssues, now, stamp) => WatchKeepsOneLive(db, closedIssues, now, stamp);
  }

  // The condition is needed: reopening a resolved report when one of the same fingerprint was
  // created since leaves two live ones.
  lemma ReopeningMakesTwoLive(db: Db, id: nat, user: nat, at: Option<int>)
    requires id < |db.reports| && db.reports[id].status.Resolved? && db.reports[id].duplicateOf.None?
    requires FirstLive(db.reports, db.reports[id].fingerprint).None?
    ensures var again := Created(db, user, db.reports[id].fingerprint, at);
            !OneLive(Step(again, Triage(id, Some(Triaged), 0)).0.reports)
  {
    var again := Created(db, user, db.reports[id].fingerprint, at);
    var last := SetStatus(again.reports, id, Triaged);
    assert Live(last[id]) && Live(last[|db.reports|]) && last[id].fingerprint == last[|db.reports|].fingerprint;
  }

  lemma {:induction false} OneLivePerFingerprint(ops: seq<Op>)
    requires forall n :: 0 <= n < |ops| ==> !RevivesBeside(Run(ops[..n]), ops[n])
    ensures OneLive(Run(ops).reports)
  {
    if ops == [] {
    } else {
      var init := ops[..|ops| - 1];
      forall n | 0 <= n < |init| ensures !RevivesBeside(Run(init[..n]), init[n]) {
        assert init[..n] == ops[..n] && init[n] == ops[n];
      }
      OneLivePerFingerprint(init);
      OccurrencesCountFollowers(init);
      StepKeepsOneLiveIff(Run(init), ops[|ops| - 1]);
    }
  }

  // ------------------------------------------------------------------ one notice per closure

  ghost predicate NoticesMatch(rs: seq<Report>, rs': seq<Report>, notices: seq<Notice>, actor: nat) {
    |rs| == |rs'| && forall i: nat :: i < |rs| ==>
      NoticeCount(notices, i) == (if Passes(rs[i], rs'[i]) && Told(rs[i], actor) then 1 else 0)
      && (ClosedStatus(rs[i].status) ==> ClosedStatus(rs'[i].status))
  }

  lemma {:induction false} ResolveNotices(rs: seq<Report>, ids: seq<nat>)
    requires WellCounted(rs)
    ensures NoticesMatch(rs, ResolveAll(rs, ids).0, ResolveAll(rs, ids).1, 0)
  {
    if ids == [] {
    } else {
      var last := ids[|ids| - 1];
      ResolveNotices(rs, ids[..|ids| - 1]);
      ResolveLinks(rs, ids[..|ids| - 1]);
      var (mid, notices) := ResolveAll(rs, ids[..|ids| - 1]);
      var (after, more) := Closing(mid, last, Resolved, 0);
      forall i: nat | i < |rs|
        ensures |after| == |rs|
        ensures NoticeCount(notices + more, i) == (if Passes(rs[i], after[i]) && Told(rs[i], 0) then 1 else 0)
        ensures ClosedStatus(rs[i].status) ==> ClosedStatus(after[i].status)
      {
        OneNoticePerPassage(mid, last, Resolved, 0, i);
        ClosingClosesFollowers(mid, last, Resolved, 0, i);
        NoticeCountAdds(notices, more, i);
      }
    }
  }

  // Every step tells the author of each report it closes, once, except an anonymous one or
  // the one who closes it, and tells nobody else.
  lemma StepTellsOnce(db: Db, op: Op, i: nat)
    requires WellCounted(db.reports) && i < |db.reports|
    ensures |Step(db, op).0.reports| >= |db.reports|
    ensures NoticeCount(Step(db, op).1, i) ==
            if Passes(db.reports[i], Step(db, op).0.reports[i]) &&
                Told(db.reports[i], if op.Triage? then op.actor else 0)
            then 1 else 0
  {
    match op
    case Create(_, _, _) =>
    case CreateIssue(_, _) =>
    case Triage(id, status, actor) =>
      if id < |db.reports| && status.Some? && ClosedStatus(status.value) {
        OneNoticePerPassage(db.reports, id, status.value, actor, i);
      }
    case Watch(closedIssues, now, stamp) =>
      PlannedAre(db, closedIssues, now, |db.reports|);
      ResolveNotices(db.reports, Planned(db, closedIssues, now, |db.reports|).0);
  }

  // ------------------------------------------------------------------ alerts

  lemma {:induction false} LastAlertIsLatest(alerts: seq<Alert>, id: nat, k: nat)
    requires k < |alerts| && alerts[k].report == id
    ensures LastAlert(alerts, id).Some? && LastAlert(alerts, id).value >= alerts[k].stamp
  {
    if k < |alerts| - 1 { LastAlertIsLatest(alerts[..|alerts| - 1], id, k); }
  }

  lemma {:induction false} RecordedAt(late: seq<Late>, now: int, stamp: int, k: nat)
    ensures |Recorded(late, now, stamp)| == |late|
    ensures k < |late| ==> Recorded(late, now, stamp)[k] == Alert(late[k].id, now, stamp)
  {
    if late == [] {
    } else {
      RecordedAt(late[..|late| - 1], now, stamp, k);
    }
  }

  // What a pass alerts on: watched reports, overdue, whose issue is not closed, all of them,
  // each once, the oldest first.
  lemma SortedPlan(db: Db, closedIssues: set<nat>, now: int)
    ensures var alert := SortBy(BY_AGE, Planned(db, closedIssues, now, |db.reports|).1);
            && (forall l :: l in alert <==> MustAlert(db, closedIssues, now, l))
            && (forall a, b :: 0 <= a < b < |alert| ==>
                alert[a].id != alert[b].id && alert[a].createdAt <= alert[b].createdAt)
  {
    var alert := Planned(db, closedIssues, now, |db.reports|).1;
    var sorted := SortBy(BY_AGE, alert);
    PlannedAre(db, closedIssues, now, |db.reports|);
    SortSpec(BY_AGE, alert);
    forall l ensures l in sorted <==> l in alert { SortMembers(BY_AGE, alert, l); }
    assert forall p, q :: 0 <= p < q < |alert| ==> alert[p] != alert[q];
    DistinctCarriesOver(alert, sorted);
    forall a, b | 0 <= a < b < |sorted|
      ensures sorted[a].id != sorted[b].id && sorted[a].createdAt <= sorted[b].createdAt
    {
      assert sorted[a] in sorted && sorted[b] in sorted && sorted[a] != sorted[b];
      assert BY_AGE(sorted[a]) <= BY_AGE(sorted[b]);
    }
  }

  lemma TickAlert(db: Db, closedIssues: set<nat>, now: int, stamp: int, k: nat)
    requires |db.alerts| <= k < |Tick(db, closedIssues, now, stamp).0.alerts|
    ensures var a := Tick(db, closedIssues, now, stamp).0.alerts[k];
            && a.decidedAt == now && a.stamp == stamp && a.report < |db.reports|
            && IsOverdue(db.reports[a.report], LastAlert(db.alerts, a.report), now)
            && (forall m :: |db.alerts| <= m < k ==> Tick(db, closedIssues, now, stamp).0.alerts[m].report != a.report)
  {
    var alert := SortBy(BY_AGE, Planned(db, closedIssues, now, |db.reports|).1);
    var n, after := |db.alerts|, Tick(db, closedIssues, now, stamp).0.alerts;
    SortedPlan(db, closedIssues, now);
    RecordedAt(alert, now, stamp, 0);
    assert after == db.alerts + Recorded(alert, now, stamp);
    forall m | n <= m <= k ensures after[m] == Alert(alert[m - n].id, now, stamp) {
      RecordedAt(alert, now, stamp, m - n);
    }
    assert alert[k - n] in alert;
    assert MustAlert(db, closedIssues, now, alert[k - n]);
  }

  ghost predicate OldEnough(reports: seq<Report>, a: Alert) {
    && a.report < |reports| && reports[a.report].createdAt.Some?
    && a.decidedAt - reports[a.report].createdAt.value >= OVERDUE_AFTER
  }

  // Alerts on one report are at least 24 hours after everything recorded before, and at
  // least 48 hours after its creation.
  ghost predicate Spaced(db: Db) {
    && (forall a :: a in db.alerts ==> OldEnough(db.reports, a))
    && (forall j, k :: 0 <= j < k < |db.alerts| && db.alerts[j].report == db.alerts[k].report ==>
          db.alerts[k].decidedAt - db.alerts[j].stamp >= REALERT_EVERY)
  }

  lemma NewAlertSpaced(db: Db, closedIssues: set<nat>, now: int, stamp: int, j: nat, k: nat)
    requires j < k && |db.alerts| <= k < |Tick(db, closedIssues, now, stamp).0.alerts|
    ensures var alerts := Tick(db, closedIssues, now, stamp).0.alerts;
            alerts[j].report == alerts[k].report ==> alerts[k].decidedAt - alerts[j].stamp >= REALERT_EVERY
  {
    TickAlert(db, closedIssues, now, stamp, k);
    var alerts := Tick(db, closedIssues, now, stamp).0.alerts;
    if j < |db.alerts| && alerts[j].report == alerts[k].report {
      assert alerts[j] == db.alerts[j];
      LastAlertIsLatest(db.alerts, alerts[k].report, j);
    }
  }

  lemma WatchSpaced(db: Db, closedIssues: set<nat>, now: int, stamp: int)
    requires WellCounted(db.reports) && Spaced(db)
    ensures Spaced(Tick(db, closedIssues, now, stamp).0)
  {
    StepLinks(db, Watch(closedIssues, now, stamp));
    var db' := Tick(db, closedIssues, now, stamp).0;
    forall a | a in db'.alerts ensures OldEnough(db'.reports, a) {
      var k :| 0 <= k < |db'.alerts| && db'.alerts[k] == a;
      if k < |db.alerts| {
        assert a == db.alerts[k] && a in db.alerts;
      } else {
        TickAlert(db, closedIssues, now, stamp, k);
      }
    }
    forall j, k | 0 <= j < k < |db'.alerts| && db'.alerts[j].report == db'.alerts[k].report
      ensures db'.alerts[k].decidedAt - db'.alerts[j].stamp >= REALERT_EVERY
    {
      if k < |db.alerts| {
        assert db'.alerts[j] == db.alerts[j] && db'.alerts[k] == db.alerts[k];
      } else {
        NewAlertSpaced(db, closedIssues, now, stamp, j, k);
      }
    }
  }

  lemma StepSpaced(db: Db, op: Op)
    requires WellCounted(db.reports) && Spaced(db)
    ensures Spaced(Step(db, op).0)
  {
    if op.Watch? {
      WatchSpaced(db, op.closedIssues, op.now, op.stamp);
    } else if op.Create? {
      forall a | a in db.alerts ensures OldEnough(Step(db, op).0.reports, a) {}
    } else {
      StepLinks(db, op);
    }
  }

  // Over any run, whatever the clocks: an alert is decided at least 48 hours after its
  // report was created, and at least 24 hours after any earlier alert on it was recorded; so
  // if the database stamps alerts no earlier than they are decided, both the decisions and
  // the stamps are at least 24 hours apart.
  lemma {:induction false} AlertsAreSpaced(ops: seq<Op>, j: nat, k: nat)
    requires j < k < |Run(ops).alerts| && Run(ops).alerts[j].report == Run(ops).alerts[k].report
    ensures var alerts, reports := Run(ops).alerts, Run(ops).reports;
            && alerts[k].report < |reports| && reports[alerts[k].report].createdAt.Some?
            && alerts[k].decidedAt - reports[alerts[k].report].createdAt.value >= OVERDUE_AFTER
            && alerts[k].decidedAt - alerts[j].stamp >= REALERT_EVERY
            && (alerts[j].stamp >= alerts[j].decidedAt && alerts[k].stamp >= alerts[k].decidedAt ==>
                  && alerts[k].decidedAt - alerts[j].decidedAt >= REALERT_EVERY
                  && alerts[k].stamp - alerts[j].stamp >= REALERT_EVERY)
  {
    RunSpaced(ops);
    assert Run(ops).alerts[k] in Run(ops).alerts;
  }

  lemma {:induction false} RunSpaced(ops: seq<Op>)
    ensures Spaced(Run(ops))
  {
    if ops == [] {
    } else {
      RunSpaced(ops[..|ops| - 1]);
      OccurrencesCountFollowers(ops[..|ops| - 1]);
      StepSpaced(Run(ops[..|ops| - 1]), ops[|ops| - 1]);
    }
  }

  // ------------------------------------------------------------------ the service at work

  // The next follower to close is as it was, whatever was closed before it.
  lemma NextFollower(rs: seq<Report>, ids: seq<nat>, k: nat, to: Status, actor: nat)
    requires k < |ids| && ids[k] < |rs| && Ascending(ids)
    ensures CloseEach(rs, ids[..k], to)[ids[k]] == rs[ids[k]]
    ensures ClosureNotice(CloseEach(rs, ids[..k], to), ids[k], to, actor) == ClosureNotice(rs, ids[k], to, actor)
    ensures CloseEach(rs, ids[..k + 1], to) == SetStatus(CloseEach(rs, ids[..k], to), ids[k], to)
    ensures NoticesFor(rs, ids[..k + 1], to, actor) ==
            NoticesFor(rs, ids[..k], to, actor) + ClosureNotice(rs, ids[k], to, actor)
  {
    assert ids[..k + 1][..k] == ids[..k];
    CloseEachAt(rs, ids[..k], to, ids[k]);
  }

  class BugReportService {
    var reports: seq<Report>
    var alerts: seq<Alert>

    ghost function View(): Db
      reads this
    {
      Db(reports, alerts)
    }

    constructor ()
      ensures View() == EMPTY
    {
      reports, alerts := [], [];
    }

    method CreateBugReport(user: nat, fingerprint: nat, at: Option<int>)
      returns (id: nat, duplicateOf: Option<nat>, occurrences: nat)
      modifies this
      ensures View() == Created(old(View()), user, fingerprint, at)
      ensures id == old(|reports|) && duplicateOf == FirstLive(old(reports), fingerprint)
      ensures occurrences == if duplicateOf.None? then 1 else reports[duplicateOf.value].occurrences
    {
      duplicateOf := FirstLive(reports, fingerprint);
      occurrences := 1;
      id := |reports|;
      if duplicateOf.Some? {
        var c := duplicateOf.value;
        occurrences := (if reports[c].occurrences == 0 then 1 else reports[c].occurrences) + 1;
        reports := reports[c := reports[c].(occurrences := occurrences)];
      }
      reports := reports + [Report(fingerprint, user, New, duplicateOf, 1, None, at)];
    }

    method CloseWithDuplicates(id: nat, to: Status, actor: nat) returns (notices: seq<Notice>)
      requires id < |reports|
      modifies this`reports
      ensures (reports, notices) == Closing(old(reports), id, to, actor)
    {
      var mine := ClosureNotice(reports, id, to, actor);
      reports := SetStatus(reports, id, to);
      var duplicates := Followers(reports, id, |reports|);
      FollowersAre(reports, id, |reports|);
      var theirs := CloseOpen(duplicates, to, actor);
      return mine + theirs;
    }

    // The loop over the followers the query gave.
    method CloseOpen(duplicates: seq<nat>, to: Status, actor: nat) returns (notices: seq<Notice>)
      requires Ascending(duplicates)
      requires forall d: nat :: d in duplicates ==> d < |reports| && !ClosedStatus(reports[d].status)
      modifies this`reports
      ensures reports == CloseEach(old(reports), duplicates, to)
      ensures notices == NoticesFor(old(reports), duplicates, to, actor)
    {
      notices := [];
      ghost var mid := reports;
      forall k | 0 <= k < |duplicates| ensures duplicates[k] < |mid| && !ClosedStatus(mid[duplicates[k]].status) {
        assert duplicates[k] in duplicates;
      }
      for k := 0 to |duplicates|
        invariant reports == CloseEach(mid, duplicates[..k], to)
        invariant notices == NoticesFor(mid, duplicates[..k], to, actor)
      {
        var d := duplicates[k];
        NextFollower(mid, duplicates, k, to, actor);
        if ClosedStatus(reports[d].status) {
          continue;
        }
        notices := notices + ClosureNotice(reports, d, to, actor);
        reports := SetStatus(reports, d, to);
      }
      assert duplicates[..|duplicates|] == duplicates;
    }

    method UpdateBugReport(id: nat, status: Option<Status>, actor: nat) returns (found: bool, notices: seq<Notice>)
      modifies this
      ensures found == (id < old(|reports|))
      ensures (View(), notices) == Step(old(View()), Triage(id, status, actor))
    {
      notices := [];
      if id >= |reports| {
        return false, [];
      }
      found := true;
      if status.Some? {
        if ClosedStatus(status.value) {
          notices := CloseWithDuplicates(id, status.value, actor);
        } else {
          reports := SetStatus(reports, id, status.value);
        }
      }
    }

    method CreateIssueFor(id: nat, number: nat)
      modifies this
      ensures View() == Step(old(View()), CreateIssue(id, number)).0
    {
      if id >= |reports| || reports[id].issue.Some? {
        return;
      }
      reports := reports[id := reports[id].(issue := Some(number), status := IssueCreated)];
    }

    method PlanTick(closedIssues: set<nat>, now: int) returns (resolve: seq<nat>, alert: seq<Late>)
      ensures (resolve, alert) == (Planned(View(), closedIssues, now, |reports|).0,
                                   SortBy(BY_AGE, Planned(View(), closedIssues, now, |reports|).1))
    {
      resolve, alert := [], [];
      for i := 0 to |reports|
        invariant (resolve, alert) == Planned(View(), closedIssues, now, i)
      {
        var r := reports[i];
        if !Watched(r) {
          continue;
        }
        if IssueClosed(r, closedIssues) {
          resolve := resolve + [i];
          continue;
        }
        if IsOverdue(r, LastAlert(alerts, i), now) {
          alert := alert + [Late(i, r.createdAt.value)];
        }
      }
      alert := SortBy(BY_AGE, alert);
    }

    method ResolveReports(resolve: seq<nat>) returns (notices: seq<Notice>)
      requires forall i :: 0 <= i < |resolve| ==> resolve[i] < |reports|
      modifies this`reports
      ensures (reports, notices) == ResolveAll(old(reports), resolve)
    {
      notices := [];
      for k := 0 to |resolve|
        invariant |reports| == |old(reports)|
        invariant (reports, notices) == ResolveAll(old(reports), resolve[..k])
      {
        assert resolve[..k + 1][..k] == resolve[..k];
        var more := CloseWithDuplicates(resolve[k], Resolved, 0);
        notices := notices + more;
      }
      assert resolve[..|resolve|] == resolve;
    }

    method RecordAlerts(alert: seq<Late>, now: int, stamp: int)
      modifies this`alerts
      ensures alerts == old(alerts) + Recorded(alert, now, stamp)
    {
      for k := 0 to |alert|
        invariant alerts == old(alerts) + Recorded(alert[..k], now, stamp)
      {
        assert alert[..k + 1][..k] == alert[..k];
        alerts := alerts + [Alert(alert[k].id, now, stamp)];
      }
      assert alert[..|alert|] == alert;
    }

    method RunTick(closedIssues: set<nat>, now: int, stamp: int) returns (notices: seq<Notice>)
      modifies this
      ensures (View(), notices) == Tick(old(View()), closedIssues, now, stamp)
    {
      var resolve, alert := PlanTick(closedIssues, now);
      PlannedAre(View(), closedIssues, now, |reports|);
      forall i | 0 <= i < |resolve| ensures resolve[i] < |reports| { assert resolve[i] in resolve; }
      notices := ResolveReports(resolve);
      RecordAlerts(alert, now, stamp);
    }
  }
}
