// Critical-indicator alerts of a dashboard subscription: which indicators are reported when
// a pass recomputes the dashboard, and the memory that keeps one alert per passage into `bad`.
module KpiAlerts {
  import opened Prelude
  import opened Sorting

  datatype Status = Good | Warn | Bad

  // `measured`: the visual carries a KPI definition.
  datatype Visual = Kpi(measured: bool) | Text | Chart

  // A component without a visual is a layout element.
  datatype Component = Component(id: nat, visual: Option<Visual>)

  // What computing one component gave; a value may carry no status.
  datatype Computed = Computed(error: bool, value: Option<Option<Status>>, text: Option<nat>)

  datatype KpiLine = KpiLine(id: nat, status: Option<Status>)

  type Response = map<nat, Computed>

  // ------------------------------------------------------------------ one recomputation

  predicate IsKpi(c: Component) { c.visual.Some? && c.visual.value.Kpi? }

  predicate Shown(c: Component, response: Response) {
    IsKpi(c) && c.visual.value.measured && c.id in response && !response[c.id].error && response[c.id].value.Some?
  }

  function Kpis(dashboard: seq<Component>, response: Response): seq<KpiLine> {
    if dashboard == [] then []
    else
      var last := dashboard[|dashboard| - 1];
      Kpis(dashboard[..|dashboard| - 1], response)
      + if Shown(last, response) then [KpiLine(last.id, response[last.id].value.value)] else []
  }

  predicate TextShown(c: Component, response: Response) {
    c.visual == Some(Text) && c.id in response && !response[c.id].error && response[c.id].text.Some?
  }

  function Texts(dashboard: seq<Component>, response: Response): seq<nat> {
    if dashboard == [] then []
    else
      var last := dashboard[|dashboard| - 1];
      Texts(dashboard[..|dashboard| - 1], response) +
          if TextShown(last, response) then [response[last.id].text.value] else []
  }

  // Both lists in dashboard order: the indicators computed and the texts written.
  method Extract(dashboard: seq<Component>, response: Response) returns (kpis: seq<KpiLine>, texts: seq<nat>)
    ensures kpis == Kpis(dashboard, response) && texts == Texts(dashboard, response)
  {
    kpis, texts := [], [];
    for i := 0 to |dashboard|
      invariant kpis == Kpis(dashboard[..i], response) && texts == Texts(dashboard[..i], response)
    {
      assert dashboard[..i + 1][..i] == dashboard[..i];
      var comp := dashboard[i];
      if comp.visual.None? || comp.id !in response || response[comp.id].error {
        continue;
      }
      var visual, result := comp.visual.value, response[comp.id];
      if visual.Kpi? && result.value.Some? && visual.measured {
        kpis := kpis + [KpiLine(comp.id, result.value.value)];
      } else if visual.Text? && result.text.Some? {
        texts := texts + [result.text.value];
      }
    }
    assert dashboard[..|dashboard|] == dashboard;
  }

  // A visual of the indicator kind, with a definition, computed without error to a value.
  ghost predicate GivesKpi(c: Component, response: Response, line: KpiLine) {
    && c.visual == Some(Kpi(true)) && c.id in response && !response[c.id].error
    && line.id == c.id && response[c.id].value == Some(line.status)
  }

  ghost predicate GivesText(c: Component, response: Response, text: nat) {
    c.visual == Some(Text) && c.id in response && !response[c.id].error && response[c.id].text == Some(text)
  }

  // `at` lists, in order, the places of the dashboard that give a line or a text.
  ghost predicate LinesAt(dashboard: seq<Component>, response: Response, kpis: seq<KpiLine>, at: seq<nat>) {
    && |at| == |kpis| && (forall i, j :: 0 <= i < j < |at| ==> at[i] < at[j])
    && (forall k :: 0 <= k < |at| ==> at[k] < |dashboard| && GivesKpi(dashboard[at[k]], response, kpis[k]))
    && forall i: nat, line :: i < |dashboard| && GivesKpi(dashboard[i], response, line) ==> i in at
  }

  ghost predicate TextsAt(dashboard: seq<Component>, response: Response, texts: seq<nat>, at: seq<nat>) {
    && |at| == |texts| && (forall i, j :: 0 <= i < j < |at| ==> at[i] < at[j])
    && (forall k :: 0 <= k < |at| ==> at[k] < |dashboard| && GivesText(dashboard[at[k]], response, texts[k]))
    && forall i: nat, text :: i < |dashboard| && GivesText(dashboard[i], response, text) ==> i in at
  }

  // One line for each indicator computed and one text for each text written, in the order of
  // the dashboard, and nothing else.
  lemma {:induction false} ExtractedInOrder(dashboard: seq<Component>, response: Response)
    returns (lines: seq<nat>, texts: seq<nat>)
    ensures LinesAt(dashboard, response, Kpis(dashboard, response), lines)
    ensures TextsAt(dashboard, response, Texts(dashboard, response), texts)
  {
    lines, texts := [], [];
    if dashboard == [] {
    } else {
      var init, last := dashboard[..|dashboard| - 1], dashboard[|dashboard| - 1];
      lines, texts := ExtractedInOrder(init, response);
      LinesOneMore(init, response, Kpis(init, response), lines, last);
      TextsOneMore(init, response, Texts(init, response), texts, last);
      assert dashboard == init + [last];
      if Shown(last, response) { lines := lines + [|init|]; }
      if TextShown(last, response) { texts := texts + [|init|]; }
    }
  }

  lemma LinesOneMore(dashboard: seq<Component>, response: Response, kpis: seq<KpiLine>, at: seq<nat>, c: Component)
    requires LinesAt(dashboard, response, kpis, at)
    ensures if Shown(c, response)
            then LinesAt(dashboard + [c], response, kpis + [KpiLine(c.id, response[c.id].value.value)],
                         at + [|dashboard|])
            else LinesAt(dashboard + [c], response, kpis + [], at)
  {
    var more := if Shown(c, response) then at + [|dashboard|] else at;
    forall i: nat, line | i < |dashboard + [c]| && GivesKpi((dashboard + [c])[i], response, line) ensures i in more {
      if i < |dashboard| { assert i in at; } else { assert more[|at|] == i; }
    }
  }

  lemma TextsOneMore(dashboard: seq<Component>, response: Response, texts: seq<nat>, at: seq<nat>, c: Component)
    requires TextsAt(dashboard, response, texts, at)
    ensures if TextShown(c, response)
            then TextsAt(dashboard + [c], response, texts + [response[c.id].text.value], at + [|dashboard|])
            else TextsAt(dashboard + [c], response, texts + [], at)
  {
    var more := if TextShown(c, response) then at + [|dashboard|] else at;
    forall i: nat, text | i < |dashboard + [c]| && GivesText((dashboard + [c])[i], response, text) ensures i in more {
      if i < |dashboard| { assert i in at; } else { assert more[|at|] == i; }
    }
  }

  function KpiIds(dashboard: seq<Component>): set<nat> { set c | c in dashboard && IsKpi(c) :: c.id }

  function Known(kpis: seq<KpiLine>): set<nat> { set k | k in kpis && k.status.Some? :: k.id }

  function Current(kpis: seq<KpiLine>): set<nat> { set k | k in kpis && k.status == Some(Bad) :: k.id }

  // The indicators of a pass that were not remembered as bad, in dashboard order.
  function NewlyBad(kpis: seq<KpiLine>, current: set<nat>, previous: set<nat>): seq<KpiLine> {
    if kpis == [] then []
    else
      var last := kpis[|kpis| - 1];
      NewlyBad(kpis[..|kpis| - 1], current, previous)
      + if last.id in current && last.id !in previous then [last] else []
  }

  // What the pass says of one indicator: its status, if it is known.
  function StatusIn(dashboard: seq<Component>, response: Response, id: nat): Option<Status> {
    if id in response && response[id].value.Some? && (exists c :: c in dashboard && c.id == id && Shown(c, response))
    then response[id].value.value else None
  }

  lemma {:induction false} KpiMembers(dashboard: seq<Component>, response: Response)
    ensures forall k :: k in Kpis(dashboard, response) <==>
              (exists c :: c in dashboard && c.id == k.id && Shown(c, response)) && k.id in response
              && response[k.id].value == Some(k.status)
  {
    if dashboard == [] {
    } else {
      var init, last := dashboard[..|dashboard| - 1], dashboard[|dashboard| - 1];
      KpiMembers(init, response);
      assert dashboard == init + [last];
    }
  }

  lemma {:induction false} NewlyBadMembers(kpis: seq<KpiLine>, current: set<nat>, previous: set<nat>)
    ensures forall k :: k in NewlyBad(kpis, current, previous) <==> k in kpis && k.id in current && k.id !in previous
  {
    if kpis == [] {
    } else {
      var init, last := kpis[..|kpis| - 1], kpis[|kpis| - 1];
      NewlyBadMembers(init, current, previous);
      assert kpis == init + [last];
    }
  }

  // ------------------------------------------------------------------ the subscription

  datatype State = State(alertsEnabled: bool, badComponents: Option<seq<nat>>)

  // The stored list read back as a set; nothing stored reads as empty.
  function Loads(raw: Option<seq<nat>>): set<nat> { if raw.None? then {} else set i | i in raw.value }

  datatype Event =
    | Pass(dashboard: Option<seq<Component>>, response: Response)
    | Upsert(alertsEnabled: bool)

  function Next(s: State, e: Event): State {
    match e
    case Upsert(enabled) => State(enabled, if enabled && !s.alertsEnabled then None else s.badComponents)
    case Pass(dashboard, response) =>
      if dashboard.None? || !s.alertsEnabled then s
      else
        var kpis := Kpis(dashboard.value, response);
        var keep := (Loads(s.badComponents) * KpiIds(dashboard.value)) - Known(kpis);
        s.(badComponents := Some(SortedSet(Current(kpis) + keep)))
  }

  function Alerts(s: State, e: Event): seq<KpiLine> {
    if e.Pass? && e.dashboard.Some? && s.alertsEnabled
    then
      var kpis := Kpis(e.dashboard.value, e.response);
      NewlyBad(kpis, Current(kpis), Loads(s.badComponents))
    else []
  }

  class Subscription {
    var alertsEnabled: bool
    var badComponents: Option<seq<nat>>

    ghost function View(): State
      reads this
    {
      State(alertsEnabled, badComponents)
    }

    constructor (alertsEnabled: bool)
      ensures View() == State(alertsEnabled, None)
    {
      this.alertsEnabled, badComponents := alertsEnabled, None;
    }

    // The alert half of `upsert` on an existing row.
    method Upsert(alertsEnabled: bool)
      modifies this
      ensures View() == Next(old(View()), Event.Upsert(alertsEnabled))
    {
      if alertsEnabled && !this.alertsEnabled {
        badComponents := None;
      }
      this.alertsEnabled := alertsEnabled;
    }

    // `process_subscription`: the memory it writes and the indicators it reports.
    method Process(dashboard: Option<seq<Component>>, response: Response)
      returns (found: bool, newlyBad: seq<KpiLine>)
      modifies this
      ensures found == dashboard.Some?
      ensures View() == Next(old(View()), Pass(dashboard, response))
      ensures newlyBad == Alerts(old(View()), Pass(dashboard, response))
    {
      newlyBad := [];
      if dashboard.None? {
        return false, [];
      }
      var kpis, texts := Extract(dashboard.value, response);
      if alertsEnabled {
        var previous := Loads(badComponents);
        var known := set k | k in kpis && k.status.Some? :: k.id;
        var current := set k | k in kpis && k.status == Some(Bad) :: k.id;
        var keep := (previous * KpiIds(dashboard.value)) - known;
        newlyBad := Reported(kpis, current, previous);
        badComponents := Some(SortedSet(current + keep));
      }
      return true, newlyBad;
    }
  }

  method Reported(kpis: seq<KpiLine>, current: set<nat>, previous: set<nat>) returns (newlyBad: seq<KpiLine>)
    ensures newlyBad == NewlyBad(kpis, current, previous)
  {
    newlyBad := [];
    for i := 0 to |kpis|
      invariant newlyBad == NewlyBad(kpis[..i], current, previous)
    {
      assert kpis[..i + 1][..i] == kpis[..i];
      if kpis[i].id in current && kpis[i].id !in previous {
        newlyBad := newlyBad + [kpis[i]];
      }
    }
    assert kpis[..|kpis|] == kpis;
  }

  // ------------------------------------------------------------------ all histories

  function Run(start: bool, h: seq<Event>): State {
    if h == [] then State(start, None) else Next(Run(start, h[..|h| - 1]), h[|h| - 1])
  }

  function Enabled(start: bool, h: seq<Event>): bool {
    if h == [] then start
    else if h[|h| - 1].Upsert? then h[|h| - 1].alertsEnabled
    else Enabled(start, h[..|h| - 1])
  }

  // A pass that looks at the alerts: the dashboard exists and alerts are on.
  predicate Looks(start: bool, h: seq<Event>, i: nat)
    requires i < |h|
  {
    h[i].Pass? && h[i].dashboard.Some? && Enabled(start, h[..i])
  }

  predicate TurnsOn(start: bool, h: seq<Event>, i: nat)
    requires i < |h|
  {
    h[i] == Upsert(true) && !Enabled(start, h[..i])
  }

  // The last known status of an indicator, since it came on the dashboard and alerts were
  // last turned on. An unknown status does not count.
  function LastKnown(start: bool, h: seq<Event>, id: nat): Option<Status> {
    if h == [] then None
    else
      var n := |h| - 1;
      var before := LastKnown(start, h[..n], id);
      if TurnsOn(start, h, n) then None
      else if !Looks(start, h, n) then before
      else
        var status := StatusIn(h[n].dashboard.value, h[n].response, id);
        if status.Some? then status
        else if id in KpiIds(h[n].dashboard.value) then before
        else None
  }

  lemma {:induction false} EnabledIsStored(start: bool, h: seq<Event>)
    ensures Run(start, h).alertsEnabled == Enabled(start, h)
  {
    if h == [] {
    } else {
      EnabledIsStored(start, h[..|h| - 1]);
    }
  }

  // What one look at the dashboard leaves in memory.
  lemma PassRemembers(s: State, dashboard: seq<Component>, response: Response, id: nat)
    requires s.alertsEnabled
    ensures id in Loads(Next(s, Pass(Some(dashboard), response)).badComponents) <==>
              var status := StatusIn(dashboard, response, id);
              if status.Some? then status == Some(Bad)
              else id in KpiIds(dashboard) && id in Loads(s.badComponents)
  {
    var kpis := Kpis(dashboard, response);
    KpiMembers(dashboard, response);
    var status := StatusIn(dashboard, response, id);
    if status.Some? {
      assert KpiLine(id, status) in kpis;
    }
    assert id in Known(kpis) <==> status.Some?;
    assert id in Current(kpis) <==> status == Some(Bad);
  }

  // Over any history, the stored list is exactly the indicators whose last known status,
  // while continuously on the dashboard and under alert, was bad.
  lemma {:induction false} MemoryIsLastKnownBad(start: bool, h: seq<Event>, id: nat)
    ensures id in Loads(Run(start, h).badComponents) <==> LastKnown(start, h, id) == Some(Bad)
  {
    if h == [] {
    } else {
      var init, e := h[..|h| - 1], h[|h| - 1];
      MemoryIsLastKnownBad(start, init, id);
      EnabledIsStored(start, init);
      if Looks(start, h, |h| - 1) {
        PassRemembers(Run(start, init), e.dashboard.value, e.response, id);
      }
    }
  }

  predicate Alerted(start: bool, h: seq<Event>, i: nat, id: nat)
    requires i < |h|
  {
    exists k :: k in Alerts(Run(start, h[..i]), h[i]) && k.id == id
  }

  // An indicator is reported by a pass exactly when the pass finds it bad and its last known
  // status was not: once per passage into bad, none missed.
  lemma AlertedIffPassageIntoBad(start: bool, h: seq<Event>, i: nat, id: nat)
    requires i < |h|
    ensures Alerted(start, h, i, id) <==>
              && Looks(start, h, i)
              && StatusIn(h[i].dashboard.value, h[i].response, id) == Some(Bad)
              && LastKnown(start, h[..i], id) != Some(Bad)
  {
    EnabledIsStored(start, h[..i]);
    MemoryIsLastKnownBad(start, h[..i], id);
    if Looks(start, h, i) {
      var kpis := Kpis(h[i].dashboard.value, h[i].response);
      KpiMembers(h[i].dashboard.value, h[i].response);
      NewlyBadMembers(kpis, Current(kpis), Loads(Run(start, h[..i]).badComponents));
      if StatusIn(h[i].dashboard.value, h[i].response, id) == Some(Bad) {
        assert KpiLine(id, Some(Bad)) in kpis;
      }
    }
  }

  // A look that finds the indicator good or warn, or no longer on the dashboard, or the
  // alerts being turned on again.
  predicate Clears(start: bool, h: seq<Event>, k: nat, id: nat)
    requires k < |h|
  {
    || TurnsOn(start, h, k)
    || (Looks(start, h, k) &&
        var status := StatusIn(h[k].dashboard.value, h[k].response, id);
        if status.Some? then status != Some(Bad) else id !in KpiIds(h[k].dashboard.value))
  }

  lemma {:induction false} BadUntilCleared(start: bool, h: seq<Event>, i: nat, j: nat, id: nat)
    requires i < j <= |h|
    requires LastKnown(start, h[..i + 1], id) == Some(Bad)
    requires forall k :: i < k < j ==> !Clears(start, h, k, id)
    ensures LastKnown(start, h[..j], id) == Some(Bad)
  {
    if j > i + 1 {
      BadUntilCleared(start, h, i, j - 1, id);
      assert h[..j][..j - 1] == h[..j - 1];
      assert !Clears(start, h, j - 1, id);
    }
  }

  // Between two alerts for one indicator, something cleared it.
  lemma AlertsAreSeparated(start: bool, h: seq<Event>, i: nat, j: nat, id: nat)
    requires i < j < |h| && Alerted(start, h, i, id) && Alerted(start, h, j, id)
    ensures exists k :: i < k < j && Clears(start, h, k, id)
  {
    AlertedIffPassageIntoBad(start, h, i, id);
    AlertedIffPassageIntoBad(start, h, j, id);
    assert h[..i + 1][..i] == h[..i];
    assert LastKnown(start, h[..i + 1], id) == Some(Bad);
    if forall k :: i < k < j ==> !Clears(start, h, k, id) {
      BadUntilCleared(start, h, i, j, id);
    }
  }
}
