// One chat turn: a request to the agent server, re-issued when it is rate limited, and
// re-drawn or replaced by a fallback text when it stays blank.
module ChatStream {
  import opened Prelude

  const MAX_RATE_LIMIT_RETRIES := 2
  const DEFAULT_DELAY := 30.0
  const MAX_DELAY := 60.0
  const GUARD_BUFFER_CAP := 65536

  // ------------------------------------------------------------------ is a text blank

  // What one line of the stream says once parsed. `Raises` is a line whose parsing throws.
  datatype Line = NoData | Done | Unparsable(blank: bool) | NotAnObject | Error | Content | Empty | Raises

  datatype Verdict = Blank | Visible | Undecidable

  predicate Shows(line: Line) {
    line.NotAnObject? || line.Error? || line.Content? || (line.Unparsable? && !line.blank)
  }

  // The first line that shows something, or throws, decides.
  function VerdictOf(lines: seq<Line>): Verdict {
    if lines == [] then Blank
    else
      var before, last := VerdictOf(lines[..|lines| - 1]), lines[|lines| - 1];
      if !before.Blank? then before else if last.Raises? then Undecidable else if Shows(last) then Visible else Blank
  }

  method StreamIsEmpty(lines: seq<Line>) returns (verdict: Verdict)
    ensures verdict == VerdictOf(lines)
  {
    for i := 0 to |lines|
      invariant VerdictOf(lines[..i]) == Blank
    {
      assert lines[..i + 1][..i] == lines[..i];
      match lines[i]
      case NoData | Done | Empty =>
      case Unparsable(blank) =>
        if !blank {
          DecidedEarly(lines, i + 1);
          return Visible;
        }
      case Raises =>
        DecidedEarly(lines, i + 1);
        return Undecidable;
      case _ =>
        DecidedEarly(lines, i + 1);
        return Visible;
    }
    assert lines[..|lines|] == lines;
    return Blank;
  }

  lemma {:induction false} DecidedEarly(lines: seq<Line>, n: nat)
    requires n <= |lines| && !VerdictOf(lines[..n]).Blank?
    ensures VerdictOf(lines) == VerdictOf(lines[..n])
    decreases |lines|
  {
    if n == |lines| {
      assert lines[..n] == lines;
    } else {
      assert lines[..|lines| - 1][..n] == lines[..n];
      DecidedEarly(lines[..|lines| - 1], n);
    }
  }

  // A text is blank exactly when no line of it shows anything or throws.
  lemma {:induction false} BlankIffNothingShows(lines: seq<Line>)
    ensures VerdictOf(lines) == Blank <==> forall l :: l in lines ==> !Shows(l) && !l.Raises?
  {
    if lines == [] {
    } else {
      BlankIffNothingShows(lines[..|lines| - 1]);
      assert lines == lines[..|lines| - 1] + [lines[|lines| - 1]];
    }
  }

  // ------------------------------------------------------------------ the world outside

  // What the n-th request of the turn is answered with, and how texts are read: whether a
  // chunk signals a rate limit, the delay it asks for, what it is forwarded as, and the
  // parsed lines of a text. The two settings are read while the turn runs.
  datatype World = World(answers: nat -> seq<string>, signals: string -> bool, delay: string -> Option<real>,
                         rename: string -> string, lines: string -> seq<Line>, guard: bool, maxRetries: nat)

  datatype Action =
    | Request
    | Forward(chunk: string)
    | Notice(delay: real, attempt: nat)
    | Persisted
    | Fallback
    | Sleep(seconds: real)

  function Joined(chunks: seq<string>): string {
    if chunks == [] then "" else Joined(chunks[..|chunks| - 1]) + chunks[|chunks| - 1]
  }

  function Renamed(w: World, chunks: seq<string>): seq<string> {
    if chunks == [] then [] else Renamed(w, chunks[..|chunks| - 1]) + [w.rename(chunks[|chunks| - 1])]
  }

  function Forwards(chunks: seq<string>): seq<Action> {
    if chunks == [] then [] else Forwards(chunks[..|chunks| - 1]) + [Forward(chunks[|chunks| - 1])]
  }

  // The place of the first chunk that signals a rate limit.
  function FirstSignal(w: World, chunks: seq<string>): (i: nat)
    ensures i <= |chunks|
    ensures i < |chunks| ==> w.signals(chunks[i])
  {
    if chunks == [] then 0
    else
      var i := FirstSignal(w, chunks[..|chunks| - 1]);
      if i < |chunks| - 1 || w.signals(chunks[|chunks| - 1]) then i else |chunks|
  }

  lemma {:induction false} NoSignalBefore(w: World, chunks: seq<string>, i: nat)
    requires i <= |chunks| && FirstSignal(w, chunks[..i]) == i
    requires i < |chunks| ==> w.signals(chunks[i])
    ensures FirstSignal(w, chunks) == i
    decreases |chunks|
  {
    if i == |chunks| {
      assert chunks[..i] == chunks;
    } else {
      var init := chunks[..|chunks| - 1];
      if i == |init| {
        assert chunks[..i] == init;
      } else {
        assert init[..i] == chunks[..i];
        NoSignalBefore(w, init, i);
      }
    }
  }

  function Delay(w: World, chunk: string): real {
    var parsed := w.delay(chunk);
    if parsed.None? || parsed.value == 0.0 then DEFAULT_DELAY else parsed.value
  }

  predicate Overflows(chunks: seq<string>) { |Joined(chunks)| > GUARD_BUFFER_CAP }

  function TextVerdict(w: World, chunks: seq<string>): Verdict { VerdictOf(w.lines(Joined(chunks))) }

  // ------------------------------------------------------------------ a turn, as a list of actions

  // How a turn ended.
  datatype Ending = Answered | RateLimited | Overflowed | FellBack | Unguarded | Undecided

  datatype Turn = Turn(actions: seq<Action>, ending: Ending)

  function Then(actions: seq<Action>, t: Turn): Turn { Turn(actions + t.actions, t.ending) }

  lemma ThenThen(a: seq<Action>, b: seq<Action>, t: Turn)
    ensures Then(a, Then(b, t)) == Then(a + b, t)
  {
    assert a + (b + t.actions) == (a + b) + t.actions;
  }

  function Seen(chunks: seq<string>): seq<Action> { [Request] + Forwards(chunks) }

  // One request's part of a turn: it ends the turn, or another request follows.
  datatype Part = Ends(turn: Turn) | GoesOn(actions: seq<Action>)

  function RedrawOnce(w: World, n: nat): Part {
    var chunks := w.answers(n);
    var i := FirstSignal(w, chunks);
    if i < |chunks| then Ends(Turn(Seen(chunks[..i]) + [Forward(chunks[i])], RateLimited))
    else if Overflows(chunks) then Ends(Turn(Seen(chunks), Overflowed))
    else match TextVerdict(w, chunks)
      case Visible => Ends(Turn(Seen(chunks), Answered))
      case Undecidable => Ends(Turn(Seen(chunks), Undecided))
      case Blank => GoesOn(Seen(chunks))
  }

  // The silent re-draws of a blank turn, the k-th being request number n.
  function Redraw(w: World, n: nat, k: nat): Turn
    requires k <= w.maxRetries
    decreases w.maxRetries - k
  {
    if k == w.maxRetries then Turn([Fallback], FellBack)
    else match RedrawOnce(w, n)
      case Ends(turn) => turn
      case GoesOn(actions) => Then(actions, Redraw(w, n + 1, k + 1))
  }

  function AfterFirst(w: World, n: nat, chunks: seq<string>): Turn {
    if !w.guard then Turn([], Unguarded)
    else if Overflows(chunks) then Turn([], Overflowed)
    else match TextVerdict(w, chunks)
      case Visible => Turn([], Answered)
      case Undecidable => Turn([], Undecided)
      case Blank => Redraw(w, n, 0)
  }

  function AttemptOnce(w: World, attempt: nat): Part {
    var chunks := w.answers(attempt);
    var i := FirstSignal(w, chunks);
    var shown := Renamed(w, chunks[..i]);
    if i == |chunks| then Ends(Then(Seen(shown), AfterFirst(w, attempt + 1, shown)))
    else if attempt == MAX_RATE_LIMIT_RETRIES
    then Ends(Turn(Seen(shown) + [Forward(chunks[i]), Persisted], RateLimited))
    else if Delay(w, chunks[i]) > MAX_DELAY then Ends(Turn(Seen(shown) + [Forward(chunks[i])], RateLimited))
    else GoesOn(Seen(shown) + [Notice(Delay(w, chunks[i]), attempt + 1), Sleep(Delay(w, chunks[i]) + 1.0)])
  }

  function Attempt(w: World, attempt: nat): Turn
    requires attempt <= MAX_RATE_LIMIT_RETRIES
    decreases MAX_RATE_LIMIT_RETRIES - attempt
  {
    match AttemptOnce(w, attempt)
    case Ends(turn) => turn
    case GoesOn(actions) => Then(actions, Attempt(w, attempt + 1))
  }

  // ------------------------------------------------------------------ the program

  method HandlePossiblyEmptyTurn(w: World, n: nat, first: seq<string>) returns (actions: seq<Action>, ending: Ending)
    requires w.guard && !Overflows(first)
    ensures Turn(actions, ending) == AfterFirst(w, n, first)
  {
    actions := [];
    var verdict := StreamIsEmpty(w.lines(Joined(first)));
    if verdict.Visible? {
      return [], Answered;
    }
    if verdict.Undecidable? {
      return [], Undecided;
    }
    actions, ending := RedrawAll(w, n);
  }

  // What was done before the k-th re-draw, and what is still to come, make up the whole turn.
  ghost predicate Remains(w: World, n: nat, k: nat, whole: Turn, done: seq<Action>) {
    k <= w.maxRetries && whole == Then(done, Redraw(w, n + k, k))
  }

  lemma NextRedraw(w: World, n: nat, k: nat, whole: Turn, done: seq<Action>, mine: seq<Action>)
    requires k < w.maxRetries && RedrawOnce(w, n + k) == GoesOn(mine) && Remains(w, n, k, whole, done)
    ensures Remains(w, n, k + 1, whole, done + mine)
  {
    ThenThen(done, mine, Redraw(w, n + k + 1, k + 1));
  }

  lemma SettledRedraw(w: World, n: nat, k: nat, whole: Turn, done: seq<Action>, turn: Turn)
    requires k < w.maxRetries && RedrawOnce(w, n + k) == Ends(turn) && Remains(w, n, k, whole, done)
    ensures Turn(done + turn.actions, turn.ending) == whole
  {
  }

  lemma NoMoreRedraws(w: World, n: nat, whole: Turn, done: seq<Action>)
    requires Remains(w, n, w.maxRetries, whole, done)
    ensures Turn(done + [Fallback], FellBack) == whole
  {
  }

  lemma NothingDone(w: World, n: nat, whole: Turn)
    requires whole == Redraw(w, n, 0)
    ensures Remains(w, n, 0, whole, [])
  {
    assert [] + whole.actions == whole.actions;
  }

  // One round of the loop: the turn is over, or one re-draw fewer remains.
  method NextTry(w: World, n: nat, k: nat, ghost whole: Turn, done: seq<Action>)
    returns (actions: seq<Action>, over: Option<Ending>)
    requires k < w.maxRetries && Remains(w, n, k, whole, done)
    ensures over.Some? ==> Turn(actions, over.value) == whole
    ensures over.None? ==> Remains(w, n, k + 1, whole, actions)
  {
    var mine;
    mine, over := MakeRedraw(w, n + k);
    actions := done + mine;
    if over.Some? {
      SettledRedraw(w, n, k, whole, done, Turn(mine, over.value));
    } else {
      NextRedraw(w, n, k, whole, done, mine);
    }
  }

  method RedrawAll(w: World, n: nat) returns (actions: seq<Action>, ending: Ending)
    ensures Turn(actions, ending) == Redraw(w, n, 0)
  {
    actions := [];
    ghost var whole := Redraw(w, n, 0);
    NothingDone(w, n, whole);
    for k := 0 to w.maxRetries
      invariant Remains(w, n, k, whole, actions)
    {
      var over: Option<Ending>;
      actions, over := NextTry(w, n, k, whole, actions);
      if over.Some? {
        return actions, over.value;
      }
    }
    NoMoreRedraws(w, n, whole, actions);
    return actions + [Fallback], FellBack;
  }

  function AsPart(actions: seq<Action>, ending: Option<Ending>): Part {
    if ending.Some? then Ends(Turn(actions, ending.value)) else GoesOn(actions)
  }

  // The body of the re-draw loop; without an ending, another re-draw follows.
  method MakeRedraw(w: World, n: nat) returns (actions: seq<Action>, ending: Option<Ending>)
    ensures AsPart(actions, ending) == RedrawOnce(w, n)
  {
    var seen, limited, overflow, buffer := DrawOnce(w, w.answers(n));
    if limited || overflow {
      return seen, Some(if limited then RateLimited else Overflowed);
    }
    var verdict := StreamIsEmpty(w.lines(Joined(buffer)));
    if verdict.Blank? {
      return seen, None;
    }
    return seen, Some(if verdict.Visible? then Answered else Undecided);
  }

  // One re-draw: everything is forwarded as it comes, up to and including the chunk that
  // signals a rate limit; the buffer is dropped once it overflows.
  method DrawOnce(w: World, chunks: seq<string>)
    returns (seen: seq<Action>, limited: bool, overflow: bool, buffer: seq<string>)
    ensures var i := FirstSignal(w, chunks);
            && limited == (i < |chunks|)
            && seen == Seen(chunks[..i]) + (if limited then [Forward(chunks[i])] else [])
            && (!limited ==> chunks[..i] == chunks && overflow == Overflows(chunks) && (!overflow ==> buffer == chunks))
  {
    var length := 0;
    seen, limited, overflow, buffer := [Request], false, false, [];
    for i := 0 to |chunks|
      invariant FirstSignal(w, chunks[..i]) == i
      invariant seen == Seen(chunks[..i])
      invariant overflow == Overflows(chunks[..i])
      invariant !overflow ==> buffer == chunks[..i] && length == |Joined(buffer)|
    {
      assert chunks[..i + 1][..i] == chunks[..i];
      var chunk := chunks[i];
      if w.signals(chunk) {
        NoSignalBefore(w, chunks, i);
        return seen + [Forward(chunk)], true, overflow, buffer;
      }
      if !overflow {
        buffer := buffer + [chunk];
        length := length + |chunk|;
        assert buffer[..|buffer| - 1] == chunks[..i];
        if length > GUARD_BUFFER_CAP {
          overflow := true;
          buffer := [];
        }
      }
      seen := seen + [Forward(chunk)];
    }
    assert chunks[..|chunks|] == chunks;
  }

  method StreamAdkAgent(w: World) returns (actions: seq<Action>, ending: Ending)
    ensures Turn(actions, ending) == Attempt(w, 0)
  {
    actions := [];
    for attempt := 0 to MAX_RATE_LIMIT_RETRIES
      invariant Then(actions, Attempt(w, attempt)) == Attempt(w, 0)
    {
      var mine, over: Option<Ending>;
      mine, over := MakeAttempt(w, attempt);
      if over.Some? {
        return actions + mine, over.value;
      }
      ThenThen(actions, mine, Attempt(w, attempt + 1));
      actions := actions + mine;
    }
    var mine, over: Option<Ending>;
    mine, over := MakeAttempt(w, MAX_RATE_LIMIT_RETRIES);
    return actions + mine, over.value;
  }

  // The body of the retry loop; without an ending, another attempt follows.
  method MakeAttempt(w: World, attempt: nat) returns (actions: seq<Action>, ending: Option<Ending>)
    requires attempt <= MAX_RATE_LIMIT_RETRIES
    ensures AsPart(actions, ending) == AttemptOnce(w, attempt)
  {
    var chunks := w.answers(attempt);
    var limit, sent, overflowed := AskOnce(w, chunks);
    var seen := Seen(sent.0);
    if limit.None? {
      if !w.guard || overflowed {
        assert seen + [] == seen;
        return seen, Some(if w.guard then Overflowed else Unguarded);
      }
      var more, how := HandlePossiblyEmptyTurn(w, attempt + 1, sent.1);
      return seen + more, Some(how);
    }
    var chunk := limit.value;
    if attempt == MAX_RATE_LIMIT_RETRIES {
      return seen + [Forward(chunk), Persisted], Some(RateLimited);
    }
    var delay := Delay(w, chunk);
    if delay > MAX_DELAY {
      return seen + [Forward(chunk)], Some(RateLimited);
    }
    return seen + [Notice(delay, attempt + 1), Sleep(delay + 1.0)], None;
  }

  // One attempt: the chunks forwarded before a rate limit, the buffer kept for the guard
  // (dropped once it overflows), and the chunk that signals the limit.
  method AskOnce(w: World, chunks: seq<string>)
    returns (limit: Option<string>, sent: (seq<string>, seq<string>), overflowed: bool)
    ensures var i := FirstSignal(w, chunks);
            && (i == |chunks| ==> chunks[..i] == chunks)
            && limit == (if i < |chunks| then Some(chunks[i]) else None)
            && sent.0 == Renamed(w, chunks[..i])
            && overflowed == Overflows(sent.0) && (!overflowed ==> sent.1 == sent.0)
  {
    var forwarded, buffer, length := [], [], 0;
    overflowed := false;
    for i := 0 to |chunks|
      invariant FirstSignal(w, chunks[..i]) == i
      invariant forwarded == Renamed(w, chunks[..i]) && overflowed == Overflows(forwarded)
      invariant !overflowed ==> buffer == forwarded && length == |Joined(buffer)|
    {
      assert chunks[..i + 1][..i] == chunks[..i];
      if w.signals(chunks[i]) {
        NoSignalBefore(w, chunks, i);
        return Some(chunks[i]), (forwarded, buffer), overflowed;
      }
      var chunk := w.rename(chunks[i]);
      if !overflowed {
        buffer := buffer + [chunk];
        length := length + |chunk|;
        assert buffer[..|buffer| - 1] == forwarded;
        if length > GUARD_BUFFER_CAP {
          overflowed := true;
          buffer := [];
        }
      }
      assert (forwarded + [chunk])[..|forwarded|] == forwarded;
      forwarded := forwarded + [chunk];
    }
    assert chunks[..|chunks|] == chunks;
    return None, (forwarded, buffer), overflowed;
  }

  // ------------------------------------------------------------------ how much one turn may do

  function Requests(actions: seq<Action>): nat {
    if actions == [] then 0 else Requests(actions[..|actions| - 1]) + if actions[|actions| - 1].Request? then 1 else 0
  }

  function Notices(actions: seq<Action>): nat {
    if actions == [] then 0 else Notices(actions[..|actions| - 1]) + if actions[|actions| - 1].Notice? then 1 else 0
  }

  function Slept(actions: seq<Action>): real {
    if actions == [] then 0.0
    else Slept(actions[..|actions| - 1]) + if actions[|actions| - 1].Sleep? then actions[|actions| - 1].seconds else 0.0
  }

  lemma {:induction false} CountsAdd(a: seq<Action>, b: seq<Action>)
    ensures Requests(a + b) == Requests(a) + Requests(b)
    ensures Notices(a + b) == Notices(a) + Notices(b)
    ensures Slept(a + b) == Slept(a) + Slept(b)
  {
    if b == [] {
      assert a + b == a;
    } else {
      CountsAdd(a, b[..|b| - 1]);
      assert (a + b)[..|a + b| - 1] == a + b[..|b| - 1];
    }
  }

  lemma {:induction false} ForwardsCount(chunks: seq<string>)
    ensures Requests(Forwards(chunks)) == 0 && Notices(Forwards(chunks)) == 0 && Slept(Forwards(chunks)) == 0.0
  {
    if chunks == [] {
    } else {
      ForwardsCount(chunks[..|chunks| - 1]);
      var f := Forwards(chunks);
      assert f[..|f| - 1] == Forwards(chunks[..|chunks| - 1]);
    }
  }

  lemma SeenCounts(chunks: seq<string>)
    ensures var seen := Seen(chunks); Requests(seen) == 1 && Notices(seen) == 0 && Slept(seen) == 0.0
  {
    CountsAdd([Request], Forwards(chunks));
    ForwardsCount(chunks);
    assert [Request][..0] == [];
  }

  lemma OneActionCounts(a: Action)
    ensures Requests([a]) == (if a.Request? then 1 else 0)
    ensures Notices([a]) == (if a.Notice? then 1 else 0)
    ensures Slept([a]) == (if a.Sleep? then a.seconds else 0.0)
  {
    assert [a][..0] == [];
  }

  lemma RedrawOnceIsBounded(w: World, n: nat)
    ensures var p := RedrawOnce(w, n);
            var t := if p.Ends? then p.turn.actions else p.actions;
            Requests(t) == 1 && Notices(t) == 0 && Slept(t) == 0.0
  {
    var chunks := w.answers(n);
    var i := FirstSignal(w, chunks);
    SeenCounts(chunks);
    if i < |chunks| { LimitedCounts(chunks[..i], chunks[i]); }
  }

  lemma RedrawAddsOnce(w: World, n: nat, k: nat)
    requires k < w.maxRetries && RedrawOnce(w, n).GoesOn?
    ensures var t, rest := Redraw(w, n, k).actions, Redraw(w, n + 1, k + 1).actions;
            Requests(t) == 1 + Requests(rest) && Notices(t) == Notices(rest) && Slept(t) == Slept(rest)
  {
    RedrawOnceIsBounded(w, n);
    CountsAdd(RedrawOnce(w, n).actions, Redraw(w, n + 1, k + 1).actions);
  }

  lemma {:induction false} RedrawIsBounded(w: World, n: nat, k: nat)
    requires k <= w.maxRetries
    ensures var t := Redraw(w, n, k).actions; Requests(t) <= w.maxRetries - k && Notices(t) == 0 && Slept(t) == 0.0
    decreases w.maxRetries - k
  {
    if k == w.maxRetries {
      OneActionCounts(Fallback);
    } else if RedrawOnce(w, n).GoesOn? {
      RedrawIsBounded(w, n + 1, k + 1);
      RedrawAddsOnce(w, n, k);
    } else {
      RedrawOnceIsBounded(w, n);
    }
  }

  lemma LimitedCounts(chunks: seq<string>, chunk: string)
    ensures var t := Seen(chunks) + [Forward(chunk)]; Requests(t) == 1 && Notices(t) == 0 && Slept(t) == 0.0
    ensures var t := Seen(chunks) + [Forward(chunk), Persisted]; Requests(t) == 1 && Notices(t) == 0 && Slept(t) == 0.0
  {
    SeenCounts(chunks);
    OneActionCounts(Forward(chunk));
    OneActionCounts(Persisted);
    CountsAdd([Forward(chunk)], [Persisted]);
    assert [Forward(chunk), Persisted] == [Forward(chunk)] + [Persisted];
    CountsAdd(Seen(chunks), [Forward(chunk), Persisted]);
    CountsAdd(Seen(chunks), [Forward(chunk)]);
  }

  lemma WaitCounts(chunks: seq<string>, delay: real, attempt: nat)
    ensures var t := Seen(chunks) + [Notice(delay, attempt), Sleep(delay + 1.0)];
            Requests(t) == 1 && Notices(t) == 1 && Slept(t) == delay + 1.0
  {
    var notice, wait := Notice(delay, attempt), Sleep(delay + 1.0);
    SeenCounts(chunks);
    OneActionCounts(notice);
    OneActionCounts(wait);
    CountsAdd([notice], [wait]);
    assert [notice, wait] == [notice] + [wait];
    CountsAdd(Seen(chunks), [notice, wait]);
  }

  ghost predicate WithinOneAttempt(w: World, p: Part) {
    if p.Ends? then
      Requests(p.turn.actions) <= 1 + w.maxRetries && Notices(p.turn.actions) == 0 && Slept(p.turn.actions) == 0.0
    else
      Requests(p.actions) == 1 && Notices(p.actions) == 1 && Slept(p.actions) <= 61.0
  }

  lemma AfterFirstIsBounded(w: World, n: nat, shown: seq<string>)
    ensures var t := AfterFirst(w, n, shown).actions; Requests(t) <= w.maxRetries && Notices(t) == 0 && Slept(t) == 0.0
  {
    RedrawIsBounded(w, n, 0);
  }

  lemma ThenCounts(chunks: seq<string>, t: Turn)
    ensures var all := Then(Seen(chunks), t).actions;
            Requests(all) == 1 + Requests(t.actions) && Notices(all) == Notices(t.actions) &&
                Slept(all) == Slept(t.actions)
  {
    SeenCounts(chunks);
    CountsAdd(Seen(chunks), t.actions);
  }

  lemma WholeIsBounded(w: World, n: nat, shown: seq<string>)
    ensures WithinOneAttempt(w, Ends(Then(Seen(shown), AfterFirst(w, n, shown))))
  {
    AfterFirstIsBounded(w, n, shown);
    ThenCounts(shown, AfterFirst(w, n, shown));
  }

  lemma CutOffIsBounded(w: World, shown: seq<string>, chunk: string, attempt: nat)
    ensures WithinOneAttempt(w, Ends(Turn(Seen(shown) + [Forward(chunk), Persisted], RateLimited)))
    ensures WithinOneAttempt(w, Ends(Turn(Seen(shown) + [Forward(chunk)], RateLimited)))
    ensures Delay(w, chunk) <= MAX_DELAY ==>
              WithinOneAttempt(w,
                  GoesOn(Seen(shown) + [Notice(Delay(w, chunk), attempt), Sleep(Delay(w, chunk) + 1.0)]))
  {
    LimitedCounts(shown, chunk);
    WaitCounts(shown, Delay(w, chunk), attempt);
  }

  lemma AttemptOnceIsBounded(w: World, attempt: nat)
    ensures WithinOneAttempt(w, AttemptOnce(w, attempt))
  {
    var chunks := w.answers(attempt);
    var i := FirstSignal(w, chunks);
    var shown := Renamed(w, chunks[..i]);
    if i == |chunks| {
      WholeIsBounded(w, attempt + 1, shown);
    } else {
      CutOffIsBounded(w, shown, chunks[i], attempt + 1);
    }
  }

  lemma AttemptAddsOnce(w: World, attempt: nat)
    requires attempt < MAX_RATE_LIMIT_RETRIES && AttemptOnce(w, attempt).GoesOn?
    ensures var t, rest := Attempt(w, attempt).actions, Attempt(w, attempt + 1).actions;
            Requests(t) == 1 + Requests(rest) && Notices(t) == 1 + Notices(rest) && Slept(t) <= 61.0 + Slept(rest)
  {
    AttemptOnceIsBounded(w, attempt);
    CountsAdd(AttemptOnce(w, attempt).actions, Attempt(w, attempt + 1).actions);
  }

  lemma AttemptSettles(w: World, attempt: nat)
    requires attempt <= MAX_RATE_LIMIT_RETRIES && (AttemptOnce(w, attempt).Ends? || attempt == MAX_RATE_LIMIT_RETRIES)
    ensures var t := Attempt(w, attempt).actions; Requests(t) <= 1 + w.maxRetries && Notices(t) == 0 && Slept(t) == 0.0
  {
    AttemptOnceIsBounded(w, attempt);
  }

  // Whatever the server answers: at most three requests plus the re-draws, at most two
  // notices, and at most two waits of 61 seconds.
  lemma {:induction false} TurnIsBounded(w: World, attempt: nat)
    requires attempt <= MAX_RATE_LIMIT_RETRIES
    ensures var t := Attempt(w, attempt).actions;
            && Requests(t) <= MAX_RATE_LIMIT_RETRIES + 1 - attempt + w.maxRetries
            && Notices(t) <= MAX_RATE_LIMIT_RETRIES - attempt
            && Slept(t) <= WaitBound(attempt)
    decreases MAX_RATE_LIMIT_RETRIES - attempt
  {
    if attempt == MAX_RATE_LIMIT_RETRIES || AttemptOnce(w, attempt).Ends? {
      AttemptSettles(w, attempt);
    } else {
      TurnIsBounded(w, attempt + 1);
      AttemptAddsOnce(w, attempt);
    }
  }

  // 61 seconds for each attempt left after this one.
  function WaitBound(attempt: nat): real
    requires attempt <= MAX_RATE_LIMIT_RETRIES
  {
    if attempt == 0 then 2.0 * 61.0 else if attempt == 1 then 61.0 else 0.0
  }

  // ------------------------------------------------------------------ never a blank turn

  // The chunks forwarded since the last request.
  function LastText(actions: seq<Action>): seq<string> {
    if actions == [] then []
    else
      var init, last := actions[..|actions| - 1], actions[|actions| - 1];
      if last.Request? then [] else if last.Forward? then LastText(init) + [last.chunk] else LastText(init)
  }

  // What the user sees at the end.
  ghost predicate EndsAs(w: World, t: Turn) {
    match t.ending
    case Answered => TextVerdict(w, LastText(t.actions)) == Visible
    case RateLimited => exists c :: c in LastText(t.actions) && w.signals(c)
    case Overflowed => Overflows(LastText(t.actions))
    case FellBack => t.actions != [] && t.actions[|t.actions| - 1] == Fallback
    case Unguarded => !w.guard
    case Undecided => TextVerdict(w, LastText(t.actions)) == Undecidable
  }

  lemma {:induction false} LastTextOfSeen(before: seq<Action>, chunks: seq<string>)
    ensures LastText(before + Seen(chunks)) == chunks
  {
    var all := before + Seen(chunks);
    if chunks == [] {
      assert all[|all| - 1] == Request;
    } else {
      var init := chunks[..|chunks| - 1];
      LastTextOfSeen(before, init);
      assert all[..|all| - 1] == before + Seen(init);
      assert all[|all| - 1] == Forward(chunks[|chunks| - 1]);
      assert chunks == init + [chunks[|chunks| - 1]];
    }
  }

  // Only what follows the last request matters.
  lemma {:induction false} LastTextIgnoresBefore(before: seq<Action>, after: seq<Action>)
    requires Request in after
    ensures LastText(before + after) == LastText(after)
  {
    var init, last := after[..|after| - 1], after[|after| - 1];
    assert (before + after)[..|before + after| - 1] == before + init;
    if !last.Request? {
      assert after == init + [last];
      LastTextIgnoresBefore(before, init);
    }
  }

  lemma LastTextThenOne(actions: seq<Action>, a: Action)
    ensures LastText(actions + [a]) ==
            if a.Request? then []
            else if a.Forward? then LastText(actions) + [a.chunk]
            else LastText(actions)
  {
    assert (actions + [a])[..|actions|] == actions;
  }

  lemma ThenEndsAs(w: World, before: seq<Action>, t: Turn)
    requires EndsAs(w, t) && (Request in t.actions || t.ending.FellBack?)
    ensures EndsAs(w, Then(before, t))
  {
    if Request in t.actions { LastTextIgnoresBefore(before, t.actions); }
    if t.ending.FellBack? { assert (before + t.actions)[|before + t.actions| - 1] == t.actions[|t.actions| - 1]; }
  }

  lemma SeenText(chunks: seq<string>)
    ensures LastText(Seen(chunks)) == chunks && Request in Seen(chunks)
  {
    LastTextOfSeen([], chunks);
    assert [] + Seen(chunks) == Seen(chunks) && Seen(chunks)[0] == Request;
  }

  lemma LimitedEndsAs(w: World, chunks: seq<string>, chunk: string)
    requires w.signals(chunk)
    ensures EndsAs(w, Turn(Seen(chunks) + [Forward(chunk)], RateLimited)) && Request in Seen(chunks) + [Forward(chunk)]
    ensures EndsAs(w, Turn(Seen(chunks) + [Forward(chunk), Persisted], RateLimited))
            && Request in Seen(chunks) + [Forward(chunk), Persisted]
  {
    SeenText(chunks);
    var limited := Seen(chunks) + [Forward(chunk)];
    LastTextThenOne(Seen(chunks), Forward(chunk));
    LastTextThenOne(limited, Persisted);
    assert limited + [Persisted] == Seen(chunks) + [Forward(chunk), Persisted];
    assert LastText(limited)[|chunks|] == chunk;
  }

  lemma RedrawOnceEndsAs(w: World, n: nat)
    ensures var p := RedrawOnce(w, n);
            p.Ends? ==> EndsAs(w, p.turn) && !p.turn.ending.Unguarded? && Request in p.turn.actions
  {
    var chunks := w.answers(n);
    var i := FirstSignal(w, chunks);
    SeenText(chunks);
    if i < |chunks| { LimitedEndsAs(w, chunks[..i], chunks[i]); }
  }

  lemma {:induction false} RedrawEndsAs(w: World, n: nat, k: nat)
    requires k <= w.maxRetries
    ensures var t := Redraw(w, n, k);
            EndsAs(w, t) && !t.ending.Unguarded? && (Request in t.actions || t.ending.FellBack?)
    decreases w.maxRetries - k
  {
    if k < w.maxRetries {
      RedrawOnceEndsAs(w, n);
      if RedrawOnce(w, n).GoesOn? {
        RedrawEndsAs(w, n + 1, k + 1);
        ThenEndsAs(w, RedrawOnce(w, n).actions, Redraw(w, n + 1, k + 1));
      }
    }
  }

  lemma FirstEndsAs(w: World, n: nat, shown: seq<string>)
    ensures var t := Then(Seen(shown), AfterFirst(w, n, shown));
            EndsAs(w, t) && Request in t.actions && (t.ending.Unguarded? ==> !w.guard)
  {
    SeenText(shown);
    var after := AfterFirst(w, n, shown);
    if w.guard && !Overflows(shown) && TextVerdict(w, shown).Blank? {
      RedrawEndsAs(w, n, 0);
      ThenEndsAs(w, Seen(shown), after);
    } else {
      assert Seen(shown) + [] == Seen(shown);
    }
  }

  lemma AttemptOnceEndsAs(w: World, attempt: nat)
    ensures var p := AttemptOnce(w, attempt);
            p.Ends? ==> EndsAs(w, p.turn) && Request in p.turn.actions && (p.turn.ending.Unguarded? ==> !w.guard)
  {
    var chunks := w.answers(attempt);
    var i := FirstSignal(w, chunks);
    var shown := Renamed(w, chunks[..i]);
    if i == |chunks| {
      FirstEndsAs(w, attempt + 1, shown);
    } else {
      LimitedEndsAs(w, shown, chunks[i]);
    }
  }

  // However the server behaves, a turn ends as its ending says; so under the guard, unless
  // parsing throws, it ends with a visible text, a rate-limit error, a text too long to be
  // judged, or the fallback.
  lemma {:induction false} TurnEndsAs(w: World, attempt: nat)
    requires attempt <= MAX_RATE_LIMIT_RETRIES
    ensures var t := Attempt(w, attempt); EndsAs(w, t) && Request in t.actions && (t.ending.Unguarded? ==> !w.guard)
    decreases MAX_RATE_LIMIT_RETRIES - attempt
  {
    AttemptOnceEndsAs(w, attempt);
    if AttemptOnce(w, attempt).GoesOn? {
      TurnEndsAs(w, attempt + 1);
      ThenEndsAs(w, AttemptOnce(w, attempt).actions, Attempt(w, attempt + 1));
    }
  }

  // The re-draws end with the fallback exactly when every one of them ran to its end, short
  // enough to be judged, with nothing to show.
  lemma {:induction false} FallbackIffAllBlank(w: World, n: nat, k: nat)
    requires k <= w.maxRetries
    ensures Redraw(w, n, k).ending.FellBack? <==>
            forall m: nat :: n <= m < n + w.maxRetries - k ==> BlankAnswer(w, w.answers(m))
    decreases w.maxRetries - k
  {
    if k < w.maxRetries {
      FallbackIffAllBlank(w, n + 1, k + 1);
      assert BlankAnswer(w, w.answers(n)) <==> RedrawOnce(w, n).GoesOn?;
      assert RedrawOnce(w, n).Ends? ==> !RedrawOnce(w, n).turn.ending.FellBack?;
    }
  }

  predicate BlankAnswer(w: World, chunks: seq<string>) {
    FirstSignal(w, chunks) == |chunks| && !Overflows(chunks) && TextVerdict(w, chunks).Blank?
  }

  // ------------------------------------------------------------------ exactly when a turn stays blank

  // The final attempt shows nothing: no error, no fallback, and a blank text. What an attempt cut
  // off by a rate limit had forwarded before is not looked at.
  predicate EndsBlank(w: World, t: Turn) {
    !t.ending.RateLimited? && !t.ending.FellBack? && TextVerdict(w, LastText(t.actions)).Blank?
  }

  // The guard takes length for content: an answer that overflows its buffer is neither
  // re-drawn nor replaced, even when no line of it shows anything.
  predicate LongBlankAnswer(w: World, chunks: seq<string>) {
    FirstSignal(w, chunks) == |chunks| && Overflows(chunks) && TextVerdict(w, chunks).Blank?
  }

  // Among the next answers, one overflows showing nothing after only short blank ones.
  ghost predicate LongBlankAhead(w: World, n: nat, many: nat) {
    exists m: nat :: n <= m < n + many && LongBlankAnswer(w, w.answers(m)) &&
                     forall j: nat :: n <= j < m ==> BlankAnswer(w, w.answers(j))
  }

  // The attempt whose answer no rate limit cuts off, when one is reached.
  function FirstWhole(w: World, attempt: nat): Option<nat>
    requires attempt <= MAX_RATE_LIMIT_RETRIES
    decreases MAX_RATE_LIMIT_RETRIES - attempt
  {
    var chunks := w.answers(attempt);
    var i := FirstSignal(w, chunks);
    if i == |chunks| then Some(attempt)
    else if attempt == MAX_RATE_LIMIT_RETRIES || Delay(w, chunks[i]) > MAX_DELAY then None
    else FirstWhole(w, attempt + 1)
  }

  // That answer shows nothing, and either nobody looks at it (the guard is off, or it
  // overflows) or some re-draw overflows showing nothing after only short blank ones.
  ghost predicate StaysBlank(w: World, attempt: nat) {
    var shown := Renamed(w, w.answers(attempt));
    TextVerdict(w, shown).Blank? && (!w.guard || Overflows(shown) || LongBlankAhead(w, attempt + 1, w.maxRetries))
  }

  lemma ThenEndsBlank(w: World, before: seq<Action>, t: Turn)
    requires Request in t.actions || t.ending.FellBack?
    ensures EndsBlank(w, Then(before, t)) <==> EndsBlank(w, t)
  {
    if Request in t.actions { LastTextIgnoresBefore(before, t.actions); }
  }

  lemma RedrawOnceEndsBlank(w: World, n: nat)
    ensures var p := RedrawOnce(w, n);
            && (p.GoesOn? <==> BlankAnswer(w, w.answers(n)))
            && (p.Ends? ==> (EndsBlank(w, p.turn) <==> LongBlankAnswer(w, w.answers(n))))
  {
    var chunks := w.answers(n);
    assert chunks[..|chunks|] == chunks;
    SeenText(chunks);
  }

  lemma AheadStep(w: World, n: nat, many: nat)
    requires many > 0
    ensures LongBlankAhead(w, n, many) <==>
              if BlankAnswer(w, w.answers(n)) then LongBlankAhead(w, n + 1, many - 1)
              else LongBlankAnswer(w, w.answers(n))
  {
    if LongBlankAhead(w, n, many) {
      var m: nat :| n <= m < n + many && LongBlankAnswer(w, w.answers(m)) &&
                    forall j: nat :: n <= j < m ==> BlankAnswer(w, w.answers(j));
      if m != n { assert BlankAnswer(w, w.answers(n)); }
    }
    if BlankAnswer(w, w.answers(n)) && LongBlankAhead(w, n + 1, many - 1) {
      var m: nat :| n + 1 <= m < n + many && LongBlankAnswer(w, w.answers(m)) &&
                    forall j: nat :: n + 1 <= j < m ==> BlankAnswer(w, w.answers(j));
      assert forall j: nat :: n <= j < m ==> BlankAnswer(w, w.answers(j));
    }
  }

  // A short blank answer changes nothing; any other one settles the matter.
  lemma RedrawAfterBlank(w: World, n: nat, k: nat)
    requires k < w.maxRetries && BlankAnswer(w, w.answers(n))
    ensures EndsBlank(w, Redraw(w, n, k)) <==> EndsBlank(w, Redraw(w, n + 1, k + 1))
  {
    RedrawOnceEndsBlank(w, n);
    RedrawEndsAs(w, n + 1, k + 1);
    ThenEndsBlank(w, RedrawOnce(w, n).actions, Redraw(w, n + 1, k + 1));
  }

  lemma RedrawSettles(w: World, n: nat, k: nat)
    requires k < w.maxRetries && !BlankAnswer(w, w.answers(n))
    ensures EndsBlank(w, Redraw(w, n, k)) <==> LongBlankAnswer(w, w.answers(n))
  {
    RedrawOnceEndsBlank(w, n);
  }

  lemma NothingAhead(w: World, n: nat)
    ensures !LongBlankAhead(w, n, 0) && !EndsBlank(w, Redraw(w, n, w.maxRetries))
  {
  }

  lemma {:induction false} RedrawEndsBlankIff(w: World, n: nat, k: nat)
    requires k <= w.maxRetries
    ensures EndsBlank(w, Redraw(w, n, k)) <==> LongBlankAhead(w, n, w.maxRetries - k)
    decreases w.maxRetries - k
  {
    if k == w.maxRetries {
      NothingAhead(w, n);
    } else {
      AheadStep(w, n, w.maxRetries - k);
      if BlankAnswer(w, w.answers(n)) {
        RedrawEndsBlankIff(w, n + 1, k + 1);
        RedrawAfterBlank(w, n, k);
      } else {
        RedrawSettles(w, n, k);
      }
    }
  }

  lemma WholeEndsBlankIff(w: World, attempt: nat)
    requires FirstSignal(w, w.answers(attempt)) == |w.answers(attempt)|
    ensures var p := AttemptOnce(w, attempt); p.Ends? && (EndsBlank(w, p.turn) <==> StaysBlank(w, attempt))
  {
    var chunks := w.answers(attempt);
    assert chunks[..|chunks|] == chunks;
    var shown := Renamed(w, chunks);
    SeenText(shown);
    if w.guard && !Overflows(shown) && TextVerdict(w, shown).Blank? {
      RedrawEndsBlankIff(w, attempt + 1, 0);
      RedrawEndsAs(w, attempt + 1, 0);
      ThenEndsBlank(w, Seen(shown), Redraw(w, attempt + 1, 0));
    } else {
      assert Seen(shown) + [] == Seen(shown);
    }
  }

  // Exactly when the final attempt of a turn shows nothing.
  lemma {:induction false} TurnEndsBlankIff(w: World, attempt: nat)
    requires attempt <= MAX_RATE_LIMIT_RETRIES
    ensures var whole := FirstWhole(w, attempt);
            EndsBlank(w, Attempt(w, attempt)) <==> whole.Some? && StaysBlank(w, whole.value)
    decreases MAX_RATE_LIMIT_RETRIES - attempt
  {
    if FirstSignal(w, w.answers(attempt)) == |w.answers(attempt)| {
      WholeEndsBlankIff(w, attempt);
    } else if AttemptOnce(w, attempt).GoesOn? {
      TurnEndsBlankIff(w, attempt + 1);
      TurnEndsAs(w, attempt + 1);
      ThenEndsBlank(w, AttemptOnce(w, attempt).actions, Attempt(w, attempt + 1));
    }
  }

  // A server that never limits and answers one chunk a request, of which no line shows.
  function SilentServer(lengths: nat -> nat, maxRetries: nat): World {
    World((n: nat) => [Dots(lengths(n))], chunk => false, chunk => None, chunk => chunk, text => [], true, maxRetries)
  }

  function Dots(length: nat): (s: string)
    ensures |s| == length
  {
    seq(length, i => '.')
  }

  lemma SilentAnswer(w: World, chunk: string)
    requires !w.signals(chunk) && w.rename(chunk) == chunk && w.lines(chunk) == []
    ensures FirstSignal(w, [chunk]) == 1 && Renamed(w, [chunk]) == [chunk] && TextVerdict(w, [chunk]) == Blank
    ensures Overflows([chunk]) <==> |chunk| > GUARD_BUFFER_CAP
  {
    assert [chunk][..0] == [];
    assert Joined([chunk]) == "" + chunk == chunk;
  }

  // So it does happen, the guard being on: with a long first answer, and with a short blank
  // one whose re-draw is long.
  lemma LongBlankAnswerStaysBlank(maxRetries: nat)
    ensures var w := SilentServer((n: nat) => 70000, maxRetries); w.guard && EndsBlank(w, Attempt(w, 0))
    ensures maxRetries > 0 ==> var w := SilentServer((n: nat) => if n == 0 then 1 else 70000, maxRetries);
            w.guard && EndsBlank(w, Attempt(w, 0))
  {
    LongFirstAnswer(maxRetries);
    if maxRetries > 0 { LongRedraw(maxRetries); }
  }

  lemma LongFirstAnswer(maxRetries: nat)
    ensures var w := SilentServer((n: nat) => 70000, maxRetries); EndsBlank(w, Attempt(w, 0))
  {
    var w := SilentServer((n: nat) => 70000, maxRetries);
    SilentAnswer(w, Dots(70000));
    TurnEndsBlankIff(w, 0);
  }

  lemma LongRedraw(maxRetries: nat)
    requires maxRetries > 0
    ensures var w := SilentServer((n: nat) => if n == 0 then 1 else 70000, maxRetries); EndsBlank(w, Attempt(w, 0))
  {
    var w := SilentServer((n: nat) => if n == 0 then 1 else 70000, maxRetries);
    SilentAnswer(w, Dots(1));
    SilentAnswer(w, Dots(70000));
    assert LongBlankAnswer(w, w.answers(1));
    TurnEndsBlankIff(w, 0);
  }
}
