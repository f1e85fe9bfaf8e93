// What a chat turn consists of, request by request: what is forwarded of each answer, what is
// announced and waited between two attempts, and how the turn ends.
module ChatTurns {
  import opened Prelude
  import opened ChatStream

  // ------------------------------------------------------------------ one request

  // The answer is read up to the first chunk that signals a rate limit, or to its end.
  ghost predicate CutAt(w: World, chunks: seq<string>, i: nat) {
    && i <= |chunks| && (forall j :: 0 <= j < i ==> !w.signals(chunks[j]))
    && (i < |chunks| ==> w.signals(chunks[i]))
  }

  // A request, then its answer's chunks up to the i-th, each forwarded under its other name.
  ghost predicate AsksRenamed(w: World, chunks: seq<string>, i: nat, actions: seq<Action>) {
    && i <= |chunks| && |actions| == i + 1 && actions[0] == Request
    && forall j :: 0 <= j < i ==> actions[j + 1] == Forward(w.rename(chunks[j]))
  }

  // A request, then its answer's chunks up to the i-th, each forwarded as it came.
  ghost predicate Asks(chunks: seq<string>, i: nat, actions: seq<Action>) {
    && i <= |chunks| && |actions| == i + 1 && actions[0] == Request
    && forall j :: 0 <= j < i ==> actions[j + 1] == Forward(chunks[j])
  }

  // The delay asked for, thirty seconds when none is.
  ghost function Asked(w: World, chunk: string): real {
    if w.delay(chunk).None? || w.delay(chunk).value == 0.0 then 30.0 else w.delay(chunk).value
  }

  lemma {:induction false} CutsAtSignal(w: World, chunks: seq<string>)
    ensures CutAt(w, chunks, FirstSignal(w, chunks))
  {
    if chunks == [] {
    } else {
      CutsAtSignal(w, chunks[..|chunks| - 1]);
    }
  }

  lemma {:induction false} ForwardsAre(chunks: seq<string>)
    ensures |Forwards(chunks)| == |chunks|
    ensures forall j :: 0 <= j < |chunks| ==> Forwards(chunks)[j] == Forward(chunks[j])
  {
    if chunks == [] {
    } else {
      ForwardsAre(chunks[..|chunks| - 1]);
    }
  }

  lemma {:induction false} RenamedAre(w: World, chunks: seq<string>)
    ensures |Renamed(w, chunks)| == |chunks|
    ensures forall j :: 0 <= j < |chunks| ==> Renamed(w, chunks)[j] == w.rename(chunks[j])
  {
    if chunks == [] {
    } else {
      RenamedAre(w, chunks[..|chunks| - 1]);
    }
  }

  lemma SeenAsks(chunks: seq<string>, i: nat)
    requires i <= |chunks|
    ensures Asks(chunks, i, Seen(chunks[..i]))
  {
    ForwardsAre(chunks[..i]);
  }

  lemma SeenAsksRenamed(w: World, chunks: seq<string>, i: nat)
    requires i <= |chunks|
    ensures AsksRenamed(w, chunks, i, Seen(Renamed(w, chunks[..i])))
  {
    RenamedAre(w, chunks[..i]);
    ForwardsAre(Renamed(w, chunks[..i]));
  }

  // ------------------------------------------------------------------ what a text shows

  ghost predicate Decides(line: Line) { line.Raises? || Visible(line) }

  ghost predicate Visible(line: Line) {
    line.NotAnObject? || line.Error? || line.Content? || line == Unparsable(false)
  }

  ghost predicate DecidesFirst(lines: seq<Line>, k: nat) {
    k < |lines| && Decides(lines[k]) && forall l :: l in lines[..k] ==> !Decides(l)
  }

  // The first line that shows something or throws decides; without one the text is blank.
  ghost predicate Judges(lines: seq<Line>, verdict: Verdict) {
    && (verdict == Blank <==> forall l :: l in lines ==> !Decides(l))
    && forall k: nat :: DecidesFirst(lines, k) ==> (verdict == Verdict.Visible <==> Visible(lines[k]))
  }

  lemma {:induction false} DecidedFirst(lines: seq<Line>, k: nat)
    requires DecidesFirst(lines, k)
    ensures VerdictOf(lines) == if Visible(lines[k]) then Verdict.Visible else Undecidable
  {
    var n := |lines| - 1;
    if k == n {
      BlankIffNothingShows(lines[..n]);
    } else {
      assert lines[..n][..k] == lines[..k];
      DecidedFirst(lines[..n], k);
    }
  }

  lemma VerdictJudges(lines: seq<Line>)
    ensures Judges(lines, VerdictOf(lines))
  {
    BlankIffNothingShows(lines);
    forall k: nat | DecidesFirst(lines, k) ensures VerdictOf(lines) == Verdict.Visible <==> Visible(lines[k]) {
      DecidedFirst(lines, k);
    }
  }

  // The text of chunks put together: that of one chunk is the chunk.
  lemma {:induction false} JoinedAdds(a: seq<string>, b: seq<string>, chunk: string)
    ensures Joined(a + b) == Joined(a) + Joined(b) && Joined([chunk]) == chunk
  {
    assert [chunk][..0] == [];
    if b == [] {
      assert a + b == a;
    } else {
      JoinedAdds(a, b[..|b| - 1], chunk);
      assert (a + b)[..|a + b| - 1] == a + b[..|b| - 1];
    }
  }

  // ------------------------------------------------------------------ the re-draws

  // What the answer of a request comes to.
  ghost predicate Comes(w: World, chunks: seq<string>, ending: Option<Ending>) {
    if |Joined(chunks)| > 65536 then ending == Some(Overflowed)
    else exists verdict ::
           && Judges(w.lines(Joined(chunks)), verdict)
           && ending == match verdict
                        case Visible => Some(Answered)
                        case Undecidable => Some(Undecided)
                        case Blank => None
  }

  // One re-draw: it forwards what comes, and ends the turn on a rate limit, forwarded too, or
  // on an answer that is not a short blank one.
  ghost predicate Redraws(w: World, n: nat, actions: seq<Action>, ending: Option<Ending>) {
    var chunks := w.answers(n);
    exists i: nat ::
      && CutAt(w, chunks, i)
      && if i < |chunks|
         then ending == Some(RateLimited) && actions != [] && Asks(chunks, i, actions[..|actions| - 1]) &&
              actions[|actions| - 1] == Forward(chunks[i])
         else Asks(chunks, i, actions) && Comes(w, chunks, ending)
  }

  // The actions of the requests from number n on, one after the other.
  function Flat(parts: seq<seq<Action>>): seq<Action> {
    if parts == [] then [] else parts[0] + Flat(parts[1..])
  }

  ghost predicate RedrawnInVain(w: World, n: nat, parts: seq<seq<Action>>) {
    forall j: nat :: j < |parts| ==> Redraws(w, n + j, parts[j], None)
  }

  // The re-draws of a blank turn after k of them: all but the last come to nothing; the last
  // ends the turn, unless as many as allowed came to nothing, and then the fallback does.
  ghost predicate RedrawsAll(w: World, n: nat, k: nat, parts: seq<seq<Action>>, last: seq<Action>, t: Turn) {
    && t.actions == Flat(parts) + last
    && k + |parts| <= w.maxRetries && RedrawnInVain(w, n, parts)
    && if k + |parts| == w.maxRetries then last == [Fallback] && t.ending == FellBack
       else Redraws(w, n + |parts|, last, Some(t.ending))
  }

  lemma WholeComes(w: World, chunks: seq<string>)
    ensures Comes(w, chunks, if Overflows(chunks) then Some(Overflowed)
                             else match TextVerdict(w, chunks)
                               case Visible => Some(Answered)
                               case Undecidable => Some(Undecided)
                               case Blank => None)
  {
    VerdictJudges(w.lines(Joined(chunks)));
  }

  function EndingOf(p: Part): Option<Ending> { if p.Ends? then Some(p.turn.ending) else None }

  function ActionsOf(p: Part): seq<Action> { if p.Ends? then p.turn.actions else p.actions }

  lemma RedrawOnceRedraws(w: World, n: nat)
    ensures Redraws(w, n, ActionsOf(RedrawOnce(w, n)), EndingOf(RedrawOnce(w, n)))
  {
    var chunks := w.answers(n);
    var i := FirstSignal(w, chunks);
    CutsAtSignal(w, chunks);
    SeenAsks(chunks, i);
    if i < |chunks| {
      var actions := Seen(chunks[..i]) + [Forward(chunks[i])];
      assert actions[..|actions| - 1] == Seen(chunks[..i]);
    } else {
      assert chunks[..i] == chunks;
      WholeComes(w, chunks);
    }
  }

  lemma OneMoreInVain(w: World, n: nat, actions: seq<Action>, more: seq<seq<Action>>)
    requires Redraws(w, n, actions, None) && RedrawnInVain(w, n + 1, more)
    ensures RedrawnInVain(w, n, [actions] + more)
  {
    forall j: nat | j < |[actions] + more| ensures Redraws(w, n + j, ([actions] + more)[j], None) {
      if j > 0 { assert Redraws(w, n + 1 + (j - 1), more[j - 1], None); }
    }
  }

  lemma FlatOneMore(actions: seq<Action>, more: seq<seq<Action>>, last: seq<Action>)
    ensures Flat([actions] + more) + last == actions + (Flat(more) + last)
  {
    assert ([actions] + more)[1..] == more;
  }

  lemma RedrawsOneMore(w: World, n: nat, k: nat, actions: seq<Action>, more: seq<seq<Action>>, last: seq<Action>,
                       t: Turn)
    requires Redraws(w, n, actions, None) && RedrawsAll(w, n + 1, k + 1, more, last, t)
    ensures RedrawsAll(w, n, k, [actions] + more, last, Then(actions, t))
  {
    OneMoreInVain(w, n, actions, more);
    FlatOneMore(actions, more, last);
  }

  lemma NoRedrawLeft(w: World, n: nat)
    ensures RedrawsAll(w, n, w.maxRetries, [], [Fallback], Turn([Fallback], FellBack))
  {
  }

  // A re-draw ends the turn, or goes on to the next.
  lemma RedrawIs(w: World, n: nat, k: nat)
    requires k < w.maxRetries
    ensures var part := RedrawOnce(w, n);
            Redraw(w, n, k) == if part.Ends? then part.turn else Then(part.actions, Redraw(w, n + 1, k + 1))
  {
  }

  lemma LastRedraw(w: World, n: nat, k: nat, turn: Turn)
    requires k < w.maxRetries && Redraws(w, n, turn.actions, Some(turn.ending))
    ensures RedrawsAll(w, n, k, [], turn.actions, turn)
  {
  }

  lemma {:induction false} RedrawRedraws(w: World, n: nat, k: nat) returns (parts: seq<seq<Action>>, last: seq<Action>)
    requires k <= w.maxRetries
    ensures RedrawsAll(w, n, k, parts, last, Redraw(w, n, k))
    decreases w.maxRetries - k
  {
    parts, last := [], [];
    if k == w.maxRetries {
      last := [Fallback];
      NoRedrawLeft(w, n);
    } else {
      var part := RedrawOnce(w, n);
      RedrawIs(w, n, k);
      RedrawOnceRedraws(w, n);
      if part.Ends? {
        last := part.turn.actions;
        LastRedraw(w, n, k, part.turn);
      } else {
        var more;
        more, last := RedrawRedraws(w, n + 1, k + 1);
        RedrawsOneMore(w, n, k, part.actions, more, last, Redraw(w, n + 1, k + 1));
        parts := [part.actions] + more;
      }
    }
  }

  // ------------------------------------------------------------------ the attempts

  // An attempt that waits: what came before the limit, one notice of the delay and the
  // attempt, and one wait a second longer.
  ghost predicate WaitsOut(w: World, attempt: nat, actions: seq<Action>) {
    var chunks := w.answers(attempt);
    exists i: nat ::
      && CutAt(w, chunks, i) && i < |chunks| && Asked(w, chunks[i]) <= 60.0
      && |actions| == i + 3 && AsksRenamed(w, chunks, i, actions[..i + 1])
      && actions[i + 1] == Notice(Asked(w, chunks[i]), attempt + 1)
      && actions[i + 2] == Sleep(Asked(w, chunks[i]) + 1.0)
  }

  // The attempt that ends the turn. On a limit, because it is the last one or the delay asked
  // for is too long, the chunk that signals it is forwarded, and the last attempt says that the
  // limit persists. Without one, whatever follows an answer.
  ghost predicate EndsTurn(w: World, attempt: nat, actions: seq<Action>, ending: Ending) {
    exists i: nat, asks, more ::
      actions == asks + more && AsksRenamed(w, w.answers(attempt), i, asks) && EndsAt(w, attempt, i, more, ending)
  }

  ghost predicate EndsAt(w: World, attempt: nat, i: nat, more: seq<Action>, ending: Ending) {
    var chunks := w.answers(attempt);
    && CutAt(w, chunks, i)
    && if i < |chunks|
       then && ending == RateLimited && (attempt == 2 || Asked(w, chunks[i]) > 60.0)
            && more == [Forward(chunks[i])] + if attempt == 2 then [Persisted] else []
       else exists shown :: IsRenamed(w, chunks, shown) && Follows(w, attempt + 1, shown, more, ending)
  }

  ghost predicate IsRenamed(w: World, chunks: seq<string>, shown: seq<string>) {
    |shown| == |chunks| && forall j :: 0 <= j < |chunks| ==> shown[j] == w.rename(chunks[j])
  }

  // After a whole answer: nothing, when the guard is off or the answer is no short blank one;
  // the re-draws otherwise.
  ghost predicate Follows(w: World, n: nat, shown: seq<string>, more: seq<Action>, ending: Ending) {
    if !w.guard then more == [] && ending == Unguarded
    else if Comes(w, shown, None) then
      exists parts, last :: RedrawsAll(w, n, 0, parts, last, Turn(more, ending))
    else more == [] && Comes(w, shown, Some(ending))
  }

  lemma AfterFirstFollows(w: World, n: nat, shown: seq<string>)
    ensures Follows(w, n, shown, AfterFirst(w, n, shown).actions, AfterFirst(w, n, shown).ending)
  {
    WholeComes(w, shown);
    OneVerdict(w, shown);
    if w.guard && !Overflows(shown) && TextVerdict(w, shown).Blank? {
      var parts, last := RedrawRedraws(w, n, 0);
      assert RedrawsAll(w, n, 0, parts, last, Turn(AfterFirst(w, n, shown).actions, AfterFirst(w, n, shown).ending));
    }
  }

  // There is one verdict only.
  lemma OneVerdict(w: World, chunks: seq<string>)
    ensures Comes(w, chunks, None) <==> !Overflows(chunks) && TextVerdict(w, chunks).Blank?
  {
    VerdictJudges(w.lines(Joined(chunks)));
  }

  lemma RenamedIs(w: World, chunks: seq<string>)
    ensures IsRenamed(w, chunks, Renamed(w, chunks))
  {
    RenamedAre(w, chunks);
  }

  lemma WaitIsOut(w: World, attempt: nat, chunks: seq<string>, i: nat)
    requires chunks == w.answers(attempt) && CutAt(w, chunks, i) && i < |chunks| && Asked(w, chunks[i]) <= 60.0
    ensures WaitsOut(w, attempt, Seen(Renamed(w, chunks[..i])) +
                                 [Notice(Asked(w, chunks[i]), attempt + 1), Sleep(Asked(w, chunks[i]) + 1.0)])
  {
    SeenAsksRenamed(w, chunks, i);
    var seen := Seen(Renamed(w, chunks[..i]));
    var actions := seen + [Notice(Asked(w, chunks[i]), attempt + 1), Sleep(Asked(w, chunks[i]) + 1.0)];
    assert actions[..i + 1] == seen;
  }

  // An attempt waits or ends the turn.
  lemma AttemptOnceIs(w: World, attempt: nat)
    requires attempt <= 2
    ensures var part := AttemptOnce(w, attempt);
            if part.Ends? then EndsTurn(w, attempt, part.turn.actions, part.turn.ending)
            else attempt < 2 && WaitsOut(w, attempt, part.actions)
  {
    var chunks := w.answers(attempt);
    var i := FirstSignal(w, chunks);
    CutsAtSignal(w, chunks);
    if i < |chunks| {
      LimitedIs(w, attempt, chunks, i);
    } else {
      WholeIs(w, attempt, chunks, i);
    }
  }

  lemma LimitedIs(w: World, attempt: nat, chunks: seq<string>, i: nat)
    requires attempt <= 2 && chunks == w.answers(attempt) && i == FirstSignal(w, chunks) < |chunks|
    requires CutAt(w, chunks, i)
    ensures var part := AttemptOnce(w, attempt);
            if part.Ends? then EndsTurn(w, attempt, part.turn.actions, part.turn.ending)
            else attempt < 2 && WaitsOut(w, attempt, part.actions)
  {
    var seen := Seen(Renamed(w, chunks[..i]));
    SeenAsksRenamed(w, chunks, i);
    assert Asked(w, chunks[i]) == Delay(w, chunks[i]);
    if attempt == 2 {
      assert AttemptOnce(w, attempt).turn.actions == seen + ([Forward(chunks[i])] + [Persisted]);
    } else if Asked(w, chunks[i]) > 60.0 {
      assert AttemptOnce(w, attempt).turn.actions == seen + ([Forward(chunks[i])] + []);
    } else {
      WaitIsOut(w, attempt, chunks, i);
    }
  }

  lemma WholeEnds(w: World, attempt: nat, asks: seq<Action>, shown: seq<string>, t: Turn)
    requires CutAt(w, w.answers(attempt), |w.answers(attempt)|)
    requires AsksRenamed(w, w.answers(attempt), |w.answers(attempt)|, asks)
    requires IsRenamed(w, w.answers(attempt), shown) && Follows(w, attempt + 1, shown, t.actions, t.ending)
    ensures EndsTurn(w, attempt, asks + t.actions, t.ending)
  {
    assert EndsAt(w, attempt, |w.answers(attempt)|, t.actions, t.ending);
  }

  lemma WholeIs(w: World, attempt: nat, chunks: seq<string>, i: nat)
    requires attempt <= 2 && chunks == w.answers(attempt) && i == FirstSignal(w, chunks) == |chunks|
    requires CutAt(w, chunks, i)
    ensures var part := AttemptOnce(w, attempt);
            part.Ends? && EndsTurn(w, attempt, part.turn.actions, part.turn.ending)
  {
    assert chunks[..i] == chunks;
    var shown := Renamed(w, chunks);
    SeenAsksRenamed(w, chunks, i);
    RenamedIs(w, chunks);
    AfterFirstFollows(w, attempt + 1, shown);
    WholeEnds(w, attempt, Seen(shown), shown, AfterFirst(w, attempt + 1, shown));
  }

  ghost predicate AllWaitOut(w: World, attempt: nat, waits: seq<seq<Action>>) {
    forall k: nat :: k < |waits| ==> WaitsOut(w, attempt + k, waits[k])
  }

  lemma OneMoreWait(w: World, attempt: nat, actions: seq<Action>, more: seq<seq<Action>>)
    requires WaitsOut(w, attempt, actions) && AllWaitOut(w, attempt + 1, more)
    ensures AllWaitOut(w, attempt, [actions] + more)
  {
    forall k: nat | k < |[actions] + more| ensures WaitsOut(w, attempt + k, ([actions] + more)[k]) {
      if k > 0 { assert WaitsOut(w, attempt + 1 + (k - 1), more[k - 1]); }
    }
  }

  // A number of attempts that each wait out a rate limit, announced once and slept out once,
  // then the attempt that ends the turn.
  ghost predicate ConsistsOf(w: World, attempt: nat, waits: seq<seq<Action>>, last: seq<Action>, t: Turn) {
    && t.actions == Flat(waits) + last
    && attempt + |waits| <= 2 && AllWaitOut(w, attempt, waits)
    && EndsTurn(w, attempt + |waits|, last, t.ending)
  }

  lemma LastAttempt(w: World, attempt: nat, t: Turn)
    requires attempt <= 2 && EndsTurn(w, attempt, t.actions, t.ending)
    ensures ConsistsOf(w, attempt, [], t.actions, t)
  {
    assert Flat([]) + t.actions == t.actions;
  }

  lemma OneMoreAttempt(w: World, attempt: nat, actions: seq<Action>, more: seq<seq<Action>>, last: seq<Action>, t: Turn)
    requires WaitsOut(w, attempt, actions) && ConsistsOf(w, attempt + 1, more, last, t)
    ensures ConsistsOf(w, attempt, [actions] + more, last, Then(actions, t))
  {
    OneMoreWait(w, attempt, actions, more);
    FlatOneMore(actions, more, last);
  }

  lemma {:induction false} TurnConsistsOf(w: World, attempt: nat)
    returns (waits: seq<seq<Action>>, last: seq<Action>)
    requires attempt <= 2
    ensures ConsistsOf(w, attempt, waits, last, Attempt(w, attempt))
    decreases 2 - attempt
  {
    waits, last := [], [];
    var part := AttemptOnce(w, attempt);
    AttemptOnceIs(w, attempt);
    if part.Ends? {
      last := part.turn.actions;
      LastAttempt(w, attempt, part.turn);
    } else {
      var more;
      more, last := TurnConsistsOf(w, attempt + 1);
      OneMoreAttempt(w, attempt, part.actions, more, last, Attempt(w, attempt + 1));
      waits := [part.actions] + more;
    }
  }
}
