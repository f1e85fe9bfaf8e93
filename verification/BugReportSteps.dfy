// What each step does to each report, to the recorded alerts and to the authors: creation,
// triage, an issue, and one pass of the watch.
module BugReportSteps {
  import opened Prelude
  import opened Sorting
  import opened BugReports

  predicate Open(r: Report) { r.status.New? || r.status.Triaged? || r.status.IssueCreated? }

  // ------------------------------------------------------------------ creation

  // The report a new one of the fingerprint joins: the first that follows none and is neither
  // resolved nor rejected.
  ghost predicate JoinsAt(rs: seq<Report>, fingerprint: nat, c: nat) {
    Joinable(rs, fingerprint, c) && forall i: nat :: i < c ==> !Joinable(rs, fingerprint, i)
  }

  predicate Joinable(rs: seq<Report>, fingerprint: nat, i: nat) {
    && i < |rs| && rs[i].fingerprint == fingerprint && rs[i].duplicateOf == None
    && rs[i].status != Resolved && rs[i].status != Rejected
  }

  // The new report comes last, attached to the one it joins, whose count goes up by one; no
  // other report changes, no alert is recorded and nobody is told.
  lemma CreationJoins(db: Db, user: nat, fingerprint: nat, at: Option<int>)
    ensures var (db', notices) := Step(db, Create(user, fingerprint, at));
            var n := |db.reports|;
            && |db'.reports| == n + 1 && db'.alerts == db.alerts && notices == []
            && db'.reports[n].fingerprint == fingerprint && db'.reports[n].user == user
            && db'.reports[n].status == New && db'.reports[n].occurrences == 1
            && db'.reports[n].issue == None && db'.reports[n].createdAt == at
            && (forall c: nat :: db'.reports[n].duplicateOf == Some(c) <==> JoinsAt(db.reports, fingerprint, c))
            && forall i: nat :: i < n ==>
                 db'.reports[i] == if JoinsAt(db.reports, fingerprint, i)
                                   then db.reports[i].(occurrences := Incremented(db.reports[i].occurrences))
                                   else db.reports[i]
  {
    forall i: nat ensures Joinable(db.reports, fingerprint, i) <==> IsLive(db.reports, i, fingerprint) {}
  }

  // A count that was never set stands for one.
  function Incremented(occurrences: nat): nat { if occurrences == 0 then 2 else occurrences + 1 }

  // ------------------------------------------------------------------ triage and issues

  // Setting a status that closes sets it on the report and on its open followers; any other is
  // set on the report alone. Without a status or without the report nothing changes.
  lemma TriageSets(db: Db, id: nat, status: Option<Status>, actor: nat, i: nat)
    requires i < |db.reports| && (id < |db.reports| ==> db.reports[id].duplicateOf != Some(id))
    ensures var db' := Step(db, Triage(id, status, actor)).0;
            && |db'.reports| == |db.reports| && db'.alerts == db.alerts
            && db'.reports[i] ==
               if status.None? || id >= |db.reports| then db.reports[i]
               else if i == id then db.reports[i].(status := status.value)
               else if !Open(db.reports[i].(status := status.value)) && Open(db.reports[i]) &&
                       db.reports[i].duplicateOf == Some(id)
               then db.reports[i].(status := status.value)
               else db.reports[i]
  {
    if status.Some? && id < |db.reports| && ClosedStatus(status.value) {
      ClosingClosesFollowers(db.reports, id, status.value, actor, i);
    }
  }

  // An issue is recorded once, with its number, and shows in the status.
  lemma IssueIsRecordedOnce(db: Db, id: nat, number: nat, i: nat)
    requires i < |db.reports|
    ensures var (db', notices) := Step(db, CreateIssue(id, number));
            && |db'.reports| == |db.reports| && db'.alerts == db.alerts && notices == []
            && db'.reports[i] == if i == id && db.reports[i].issue == None
                                 then db.reports[i].(issue := Some(number), status := IssueCreated)
                                 else db.reports[i]
  {
  }

  // ------------------------------------------------------------------ the watch: what it resolves

  // Open, following none, and its issue found closed.
  predicate Settled(rs: seq<Report>, closedIssues: set<nat>, i: nat) {
    && i < |rs| && Open(rs[i]) && rs[i].duplicateOf == None
    && rs[i].issue.Some? && rs[i].issue.value in closedIssues
  }

  // Open, and following such a report.
  predicate SettledWith(rs: seq<Report>, closedIssues: set<nat>, i: nat) {
    i < |rs| && Open(rs[i]) && rs[i].duplicateOf.Some? && Settled(rs, closedIssues, rs[i].duplicateOf.value)
  }

  ghost predicate Heads(rs: seq<Report>, ids: seq<nat>) {
    Ascending(ids) && forall id: nat :: id in ids ==> id < |rs| && rs[id].duplicateOf.None?
  }

  lemma HeadsInit(rs: seq<Report>, ids: seq<nat>)
    requires Heads(rs, ids) && ids != []
    ensures Heads(rs, ids[..|ids| - 1]) && ids[|ids| - 1] !in ids[..|ids| - 1]
    ensures ids[|ids| - 1] < |rs| && rs[ids[|ids| - 1]].duplicateOf.None?
  {
    assert ids[|ids| - 1] in ids;
    forall id: nat | id in ids[..|ids| - 1] ensures id in ids {
    }
  }

  predicate ResolvedWith(rs: seq<Report>, ids: seq<nat>, i: nat)
    requires i < |rs|
  {
    i in ids || (Open(rs[i]) && rs[i].duplicateOf.Some? && rs[i].duplicateOf.value in ids)
  }

  // Of rs, those listed and their open followers became resolved, and no other.
  ghost predicate Resolves(rs: seq<Report>, ids: seq<nat>, rs': seq<Report>) {
    |rs'| == |rs| && forall i: nat :: i < |rs| ==>
      rs'[i] == if ResolvedWith(rs, ids, i) then rs[i].(status := Resolved) else rs[i]
  }

  lemma ResolvedOneMore(rs: seq<Report>, mid: seq<Report>, ids: seq<nat>, last: nat, i: nat)
    requires i < |rs| == |mid| && Unfollowed(mid, last) && last < |rs| && last !in ids && rs[last].duplicateOf.None?
    requires i in ids ==> rs[i].duplicateOf.None?
    requires mid[i] == if ResolvedWith(rs, ids, i) then rs[i].(status := Resolved) else rs[i]
    ensures |Closing(mid, last, Resolved, 0).0| == |rs|
    ensures Closing(mid, last, Resolved, 0).0[i] ==
            if ResolvedWith(rs, ids + [last], i) then rs[i].(status := Resolved) else rs[i]
  {
    ClosingClosesFollowers(mid, last, Resolved, 0, i);
  }

  lemma ResolvesOneMore(rs: seq<Report>, mid: seq<Report>, ids: seq<nat>, last: nat)
    requires Resolves(rs, ids, mid) && Unfollowed(mid, last) && Heads(rs, ids)
    requires last < |rs| && last !in ids && rs[last].duplicateOf.None?
    ensures Resolves(rs, ids + [last], Closing(mid, last, Resolved, 0).0)
  {
    var after := Closing(mid, last, Resolved, 0).0;
    assert |after| == |rs|;
    forall i: nat | i < |rs|
      ensures after[i] == if ResolvedWith(rs, ids + [last], i) then rs[i].(status := Resolved) else rs[i]
    {
      ResolvedOneMore(rs, mid, ids, last, i);
    }
  }

  lemma UnfollowedStill(rs: seq<Report>, ids: seq<nat>, id: nat)
    requires WellCounted(rs)
    ensures Unfollowed(ResolveAll(rs, ids).0, id)
  {
    ResolveLinks(rs, ids);
  }

  // The reports listed are resolved one by one.
  lemma {:induction false} ResolvingResolves(rs: seq<Report>, ids: seq<nat>)
    requires WellCounted(rs) && Heads(rs, ids)
    ensures Resolves(rs, ids, ResolveAll(rs, ids).0)
  {
    if ids == [] {
    } else {
      var init, last := ids[..|ids| - 1], ids[|ids| - 1];
      HeadsInit(rs, ids);
      ResolvingResolves(rs, init);
      UnfollowedStill(rs, init, last);
      ResolvesOneMore(rs, ResolveAll(rs, init).0, init, last);
      assert ids == init + [last];
    }
  }

  lemma SettledAreResolved(db: Db, closedIssues: set<nat>, now: int)
    ensures var resolve := Planned(db, closedIssues, now, |db.reports|).0;
            Heads(db.reports, resolve) && forall x: nat :: x in resolve <==> Settled(db.reports, closedIssues, x)
  {
    PlannedAre(db, closedIssues, now, |db.reports|);
  }

  // A pass resolves the reports whose issue is closed and their open followers, and leaves
  // every other report as it was.
  lemma WatchResolves(db: Db, closedIssues: set<nat>, now: int, stamp: int, i: nat)
    requires WellCounted(db.reports) && i < |db.reports|
    ensures var rs' := Step(db, Watch(closedIssues, now, stamp)).0.reports;
            && |rs'| == |db.reports|
            && rs'[i] == if Settled(db.reports, closedIssues, i) || SettledWith(db.reports, closedIssues, i)
                         then db.reports[i].(status := Resolved) else db.reports[i]
  {
    var resolve := Planned(db, closedIssues, now, |db.reports|).0;
    SettledAreResolved(db, closedIssues, now);
    ResolvingResolves(db.reports, resolve);
    ResolvesSettled(db.reports, closedIssues, resolve, ResolveAll(db.reports, resolve).0, i);
  }

  lemma ResolvesSettled(rs: seq<Report>, closedIssues: set<nat>, ids: seq<nat>, rs': seq<Report>, i: nat)
    requires Resolves(rs, ids, rs') && i < |rs|
    requires forall x: nat :: x in ids <==> Settled(rs, closedIssues, x)
    ensures rs'[i] == if Settled(rs, closedIssues, i) || SettledWith(rs, closedIssues, i)
                      then rs[i].(status := Resolved) else rs[i]
  {
  }

  // ------------------------------------------------------------------ the watch: what it alerts on

  // Open, following none, its issue not found closed, created two days ago or more, and no
  // alert on it recorded within a day.
  ghost predicate Dragging(db: Db, closedIssues: set<nat>, now: int, i: nat) {
    && i < |db.reports| && Open(db.reports[i]) && db.reports[i].duplicateOf == None
    && !Settled(db.reports, closedIssues, i)
    && db.reports[i].createdAt.Some? && now - db.reports[i].createdAt.value >= 48
    && forall a :: a in db.alerts && a.report == i ==> now - a.stamp >= 24
  }

  lemma {:induction false} NoneRecent(alerts: seq<Alert>, id: nat, now: int)
    ensures (LastAlert(alerts, id).None? || now - LastAlert(alerts, id).value >= REALERT_EVERY) <==>
            forall a :: a in alerts && a.report == id ==> now - a.stamp >= 24
  {
    if alerts == [] {
    } else {
      var init, last := alerts[..|alerts| - 1], alerts[|alerts| - 1];
      NoneRecent(init, id, now);
      assert alerts == init + [last];
    }
  }

  lemma DraggingIsAlerted(db: Db, closedIssues: set<nat>, now: int, l: Late)
    ensures MustAlert(db, closedIssues, now, l) <==>
            Dragging(db, closedIssues, now, l.id) && db.reports[l.id].createdAt == Some(l.createdAt)
  {
    if l.id < |db.reports| { NoneRecent(db.alerts, l.id, now); }
  }

  // A pass records one alert on each report that drags on and on no other, the oldest report
  // first, after the alerts already recorded.
  ghost predicate AlertsOnce(db: Db, closedIssues: set<nat>, now: int, stamp: int, added: seq<Alert>) {
    && (forall k :: 0 <= k < |added| ==>
          added[k].decidedAt == now && added[k].stamp == stamp && Dragging(db, closedIssues, now, added[k].report))
    && (forall i: nat :: Dragging(db, closedIssues, now, i) ==> exists k :: 0 <= k < |added| && added[k].report == i)
    && (forall j, k :: 0 <= j < k < |added| ==>
          added[j].report != added[k].report &&
          db.reports[added[j].report].createdAt.value <= db.reports[added[k].report].createdAt.value)
  }

  lemma PlanIsDragging(db: Db, closedIssues: set<nat>, now: int, k: nat)
    requires k < |SortBy(BY_AGE, Planned(db, closedIssues, now, |db.reports|).1)|
    ensures var l := SortBy(BY_AGE, Planned(db, closedIssues, now, |db.reports|).1)[k];
            Dragging(db, closedIssues, now, l.id) && db.reports[l.id].createdAt == Some(l.createdAt)
  {
    var alert := SortBy(BY_AGE, Planned(db, closedIssues, now, |db.reports|).1);
    SortedPlan(db, closedIssues, now);
    assert alert[k] in alert;
    DraggingIsAlerted(db, closedIssues, now, alert[k]);
  }

  lemma DraggingIsPlanned(db: Db, closedIssues: set<nat>, now: int, i: nat)
    requires Dragging(db, closedIssues, now, i)
    ensures var alert := SortBy(BY_AGE, Planned(db, closedIssues, now, |db.reports|).1);
            exists k :: 0 <= k < |alert| && alert[k].id == i
  {
    var alert := SortBy(BY_AGE, Planned(db, closedIssues, now, |db.reports|).1);
    var l := Late(i, db.reports[i].createdAt.value);
    SortedPlan(db, closedIssues, now);
    DraggingIsAlerted(db, closedIssues, now, l);
    assert l in alert;
  }

  ghost predicate RecordsEach(late: seq<Late>, now: int, stamp: int, added: seq<Alert>) {
    |added| == |late| && forall k :: 0 <= k < |late| ==> added[k] == Alert(late[k].id, now, stamp)
  }

  lemma EachRecorded(late: seq<Late>, now: int, stamp: int)
    ensures RecordsEach(late, now, stamp, Recorded(late, now, stamp))
  {
    RecordedAt(late, now, stamp, 0);
    forall k | 0 <= k < |late| ensures Recorded(late, now, stamp)[k] == Alert(late[k].id, now, stamp) {
      RecordedAt(late, now, stamp, k);
    }
  }

  // Every report that drags on, with its age, the oldest first.
  ghost predicate ListsDragging(db: Db, closedIssues: set<nat>, now: int, late: seq<Late>) {
    && (forall k :: 0 <= k < |late| ==>
          Dragging(db, closedIssues, now, late[k].id) &&
          db.reports[late[k].id].createdAt == Some(late[k].createdAt))
    && (forall i: nat :: Dragging(db, closedIssues, now, i) ==> exists k :: 0 <= k < |late| && late[k].id == i)
    && forall j, k :: 0 <= j < k < |late| ==> late[j].id != late[k].id && late[j].createdAt <= late[k].createdAt
  }

  lemma PlanListsDragging(db: Db, closedIssues: set<nat>, now: int)
    ensures ListsDragging(db, closedIssues, now, SortBy(BY_AGE, Planned(db, closedIssues, now, |db.reports|).1))
  {
    var late := SortBy(BY_AGE, Planned(db, closedIssues, now, |db.reports|).1);
    SortedPlan(db, closedIssues, now);
    forall k | 0 <= k < |late|
      ensures Dragging(db, closedIssues, now, late[k].id) &&
              db.reports[late[k].id].createdAt == Some(late[k].createdAt)
    {
      PlanIsDragging(db, closedIssues, now, k);
    }
    forall i: nat | Dragging(db, closedIssues, now, i) ensures exists k :: 0 <= k < |late| && late[k].id == i {
      DraggingIsPlanned(db, closedIssues, now, i);
    }
  }

  lemma DraggingAlertedOnce(db: Db, closedIssues: set<nat>, now: int, stamp: int, late: seq<Late>, added: seq<Alert>)
    requires ListsDragging(db, closedIssues, now, late) && RecordsEach(late, now, stamp, added)
    ensures AlertsOnce(db, closedIssues, now, stamp, added)
  {
    forall i: nat | Dragging(db, closedIssues, now, i) ensures exists k :: 0 <= k < |added| && added[k].report == i {
      var k :| 0 <= k < |late| && late[k].id == i;
      assert added[k].report == i;
    }
  }

  lemma WatchAlerts(db: Db, closedIssues: set<nat>, now: int, stamp: int) returns (added: seq<Alert>)
    ensures Step(db, Watch(closedIssues, now, stamp)).0.alerts == db.alerts + added
    ensures AlertsOnce(db, closedIssues, now, stamp, added)
  {
    var late := SortBy(BY_AGE, Planned(db, closedIssues, now, |db.reports|).1);
    added := Recorded(late, now, stamp);
    PlanListsDragging(db, closedIssues, now);
    EachRecorded(late, now, stamp);
    DraggingAlertedOnce(db, closedIssues, now, stamp, late, added);
  }

  // ------------------------------------------------------------------ what a notice says

  ghost predicate NoticeSays(rs: seq<Report>, rs': seq<Report>, n: Notice) {
    && n.report < |rs| == |rs'| && Open(rs[n.report]) && !Open(rs'[n.report])
    && n.user == rs[n.report].user && n.user != 0 && n.status == rs'[n.report].status
  }

  // Every notice is for the author of a report that passed from open to closed, and says the
  // status it got.
  ghost predicate NoticesSay(rs: seq<Report>, rs': seq<Report>, notices: seq<Notice>) {
    forall n :: n in notices ==> NoticeSays(rs, rs', n)
  }

  lemma {:induction false} NoticesForSay(rs: seq<Report>, ids: seq<nat>, to: Status, actor: nat, n: Notice)
    requires n in NoticesFor(rs, ids, to, actor)
    ensures n.report in ids && n in ClosureNotice(rs, n.report, to, actor)
  {
    var init, last := ids[..|ids| - 1], ids[|ids| - 1];
    assert ids == init + [last];
    if n in NoticesFor(rs, init, to, actor) { NoticesForSay(rs, init, to, actor, n); }
  }

  lemma ClosureNoticeSays(rs: seq<Report>, i: nat, to: Status, actor: nat, n: Notice)
    requires n in ClosureNotice(rs, i, to, actor)
    ensures n.report == i < |rs| && Open(rs[i]) && ClosedStatus(to) && n.status == to
    ensures n.user == rs[i].user && n.user != 0
  {
  }

  lemma ClosingNoticeSays(rs: seq<Report>, id: nat, to: Status, actor: nat, n: Notice)
    requires Unfollowed(rs, id) && n in Closing(rs, id, to, actor).1
    ensures NoticeSays(rs, Closing(rs, id, to, actor).0, n)
  {
    var mid := SetStatus(rs, id, to);
    var followers := Followers(mid, id, |mid|);
    if n in ClosureNotice(rs, id, to, actor) {
      ClosureNoticeSays(rs, id, to, actor, n);
    } else {
      NoticesForSay(mid, followers, to, actor, n);
      ClosureNoticeSays(mid, n.report, to, actor, n);
      FollowersAre(mid, id, |mid|);
    }
    ClosingClosesFollowers(rs, id, to, actor, n.report);
  }

  lemma ClosingNoticesSay(rs: seq<Report>, id: nat, to: Status, actor: nat)
    requires Unfollowed(rs, id)
    ensures NoticesSay(rs, Closing(rs, id, to, actor).0, Closing(rs, id, to, actor).1)
  {
    forall n | n in Closing(rs, id, to, actor).1 ensures NoticeSays(rs, Closing(rs, id, to, actor).0, n) {
      ClosingNoticeSays(rs, id, to, actor, n);
    }
  }

  lemma {:induction false} ResolvingNoticesSay(rs: seq<Report>, ids: seq<nat>)
    requires WellCounted(rs)
    ensures NoticesSay(rs, ResolveAll(rs, ids).0, ResolveAll(rs, ids).1)
  {
    if ids == [] {
    } else {
      var init, last := ids[..|ids| - 1], ids[|ids| - 1];
      ResolvingNoticesSay(rs, init);
      ResolveLinks(rs, init);
      ResolvingOpens(rs, init);
      NoticesSayMore(rs, ResolveAll(rs, init).0, last, ResolveAll(rs, init).1);
    }
  }

  // Resolving opens nothing, and resolves what it closes.
  ghost predicate OnlyResolves(rs: seq<Report>, rs': seq<Report>) {
    |rs| == |rs'| && forall i :: 0 <= i < |rs| ==> rs'[i] == rs[i] || rs'[i] == rs[i].(status := Resolved)
  }

  lemma {:induction false} ResolvingOpens(rs: seq<Report>, ids: seq<nat>)
    requires WellCounted(rs)
    ensures OnlyResolves(rs, ResolveAll(rs, ids).0)
  {
    if ids == [] {
    } else {
      var init, last := ids[..|ids| - 1], ids[|ids| - 1];
      ResolvingOpens(rs, init);
      ResolveLinks(rs, init);
      var mid := ResolveAll(rs, init).0;
      forall i: nat | i < |rs|
        ensures Closing(mid, last, Resolved, 0).0[i] == mid[i] ||
                Closing(mid, last, Resolved, 0).0[i] == mid[i].(status := Resolved)
      {
        ClosingClosesFollowers(mid, last, Resolved, 0, i);
      }
    }
  }

  lemma NoticeStillSays(rs: seq<Report>, mid: seq<Report>, id: nat, n: Notice)
    requires NoticeSays(rs, mid, n) && OnlyResolves(rs, mid) && Unfollowed(mid, id)
    ensures NoticeSays(rs, Closing(mid, id, Resolved, 0).0, n)
  {
    ClosingClosesFollowers(mid, id, Resolved, 0, n.report);
  }

  lemma NoticesSayMore(rs: seq<Report>, mid: seq<Report>, id: nat, notices: seq<Notice>)
    requires NoticesSay(rs, mid, notices) && OnlyResolves(rs, mid) && Unfollowed(mid, id)
    ensures var (after, more) := Closing(mid, id, Resolved, 0);
            NoticesSay(rs, after, notices + more)
  {
    var (after, more) := Closing(mid, id, Resolved, 0);
    ClosingNoticesSay(mid, id, Resolved, 0);
    forall n | n in notices + more ensures NoticeSays(rs, after, n) {
      if n in notices {
        NoticeStillSays(rs, mid, id, n);
      } else {
        assert NoticeSays(mid, after, n);
      }
    }
  }

  // Every notice of a step says what the step did, to the author it did it to.
  lemma StepNoticesSay(db: Db, op: Op)
    requires WellCounted(db.reports)
    ensures op.Create? || op.CreateIssue? ==> Step(db, op).1 == []
    ensures op.Triage? || op.Watch? ==> NoticesSay(db.reports, Step(db, op).0.reports, Step(db, op).1)
  {
    if op.Triage? && op.id < |db.reports| && op.status.Some? && ClosedStatus(op.status.value) {
      ClosingNoticesSay(db.reports, op.id, op.status.value, op.actor);
    } else if op.Watch? {
      ResolvingNoticesSay(db.reports, Planned(db, op.closedIssues, op.now, |db.reports|).0);
    }
  }
}
