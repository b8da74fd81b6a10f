// The feed's trailing-window coalescing, as a timed automaton
// (apps/web/lib/feed-live.tsx, the effect in FeedLive).
module FeedLive {

  const WINDOW_MS: int := 1_500

  datatype Timer = Idle | Due(at: int)

  // What the component keeps, and the times it refreshed the page at.
  datatype Page = Page(mounted: bool, pending: Timer, refreshed: seq<int>)

  // The first event of a burst starts the window, the rest find it open. A page
  // that was left hears nothing.
  function AfterEvent(p: Page, now: int): Page {
    if p.mounted && p.pending == Idle then p.(pending := Due(now + WINDOW_MS)) else p
  }

  // The window closes: one read for the whole burst.
  function AfterTimer(p: Page, now: int): Page {
    p.(pending := Idle, refreshed := p.refreshed + [now])
  }

  // Leaving drops the listener and the window.
  function AfterLeaving(p: Page): Page {
    p.(mounted := false, pending := Idle)
  }

  // ---- the effect as it runs ----

  class Effect {
    var mounted: bool
    var pending: Timer
    ghost var refreshed: seq<int>

    constructor ()
      ensures Now() == Page(true, Idle, [])
    {
      mounted, pending, refreshed := true, Idle, [];
    }

    ghost function Now(): Page
      reads this
    {
      Page(mounted, pending, refreshed)
    }

    method OnChanged(now: int)
      requires mounted
      modifies this`pending
      ensures Now() == AfterEvent(old(Now()), now)
    {
      if pending != Idle {
        return;
      }
      pending := Due(now + WINDOW_MS);
    }

    method OnTimer(now: int)
      requires pending != Idle
      modifies this`pending, this`refreshed
      ensures Now() == AfterTimer(old(Now()), now)
    {
      pending := Idle;
      refreshed := refreshed + [now];
    }

    method OnUnmount()
      modifies this`pending, this`mounted
      ensures Now() == AfterLeaving(old(Now()))
    {
      mounted := false;
      if pending != Idle {
        pending := Idle;
      }
    }
  }

  // ---- runs ----

  // `heard` are the times of events heard while mounted, `left` the time of
  // unmounting.
  datatype State = State(now: int, left: Timer, page: Page, heard: seq<int>)

  const MOUNTED := State(0, Idle, Page(true, Idle, []), [])

  datatype Step = Feed(at: int) | Fire(at: int) | Unmount(at: int) | Wait(at: int)

  // Time never runs back, and a timer fires when it is due: no step comes after
  // its hour while it is pending.
  predicate Enabled(s: State, step: Step) {
    && s.now <= step.at
    && (s.page.pending.Due? ==> step.at <= s.page.pending.at)
    && (step.Fire? ==> s.page.pending == Due(step.at))
    && (step.Unmount? ==> s.page.mounted)
  }

  function Next(s: State, step: Step): State {
    match step
    case Feed(t) =>
      s.(now := t, heard := s.heard + if s.page.mounted then [t] else [], page := AfterEvent(s.page, t))
    case Fire(t) => s.(now := t, page := AfterTimer(s.page, t))
    case Unmount(t) => s.(now := t, left := Due(t), page := AfterLeaving(s.page))
    case Wait(t) => s.(now := t)
  }

  ghost predicate Reaches(from: State, steps: seq<Step>, to: State)
    decreases steps
  {
    if steps == [] then from == to
    else Enabled(from, steps[0]) && Reaches(Next(from, steps[0]), steps[1..], to)
  }

  // ---- what every run keeps ----

  predicate Within(refresh: int, event: int) { event <= refresh <= event + WINDOW_MS }

  // An event is answered by a refresh in its window, or the timer will, or the
  // page was left before the window closed.
  ghost predicate Answered(s: State, event: int) {
    || (exists r :: r in s.page.refreshed && Within(r, event))
    || (s.page.pending.Due? && Within(s.page.pending.at, event))
    || (s.left.Due? && s.left.at <= event + WINDOW_MS)
  }

  // The last time comes a window after the one before it, and so on back to the
  // first, which comes a window after the start; `until` comes a window later.
  ghost predicate Spaced(times: seq<int>, until: int) {
    if times == [] then until >= WINDOW_MS
    else
      var last := |times| - 1;
      until - times[last] >= WINDOW_MS && Spaced(times[..last], times[last])
  }

  ghost predicate SpacedUp(times: seq<int>) {
    times != [] ==> Spaced(times[..|times| - 1], times[|times| - 1])
  }

  // When refreshes come.
  ghost predicate Sparse(s: State) {
    && s.now >= 0 && (s.page.mounted <==> s.left == Idle)
    && (forall r | r in s.page.refreshed :: r <= s.now && r - WINDOW_MS in s.heard)
    && SpacedUp(s.page.refreshed)
    && (s.page.pending.Due? ==>
          s.left == Idle && s.now <= s.page.pending.at && s.page.pending.at - WINDOW_MS in s.heard
              && Spaced(s.page.refreshed, s.page.pending.at))
    && (s.left.Due? ==> s.left.at <= s.now && forall r | r in s.page.refreshed :: r <= s.left.at)
  }

  // That they come.
  ghost predicate AllAnswered(s: State) {
    && (s.page.mounted <==> s.left == Idle)
    && (s.page.pending.Due? ==> s.now <= s.page.pending.at <= s.now + WINDOW_MS)
    && forall event | event in s.heard :: event <= s.now && Answered(s, event)
  }

  lemma FeedKeepsSparse(s: State, t: int)
    requires Sparse(s) && Enabled(s, Feed(t))
    ensures Sparse(Next(s, Feed(t)))
  {
    var n := Next(s, Feed(t));
    if s.page.mounted {
      assert n.heard[|s.heard|] == t;
      assert s.page.refreshed != [] ==> s.page.refreshed[|s.page.refreshed| - 1] in s.page.refreshed;
    }
  }

  lemma FireKeepsSparse(s: State, t: int)
    requires Sparse(s) && Enabled(s, Fire(t))
    ensures Sparse(Next(s, Fire(t)))
  {
    var n := Next(s, Fire(t));
    assert n.page.refreshed[..|s.page.refreshed|] == s.page.refreshed && n.page.refreshed[|s.page.refreshed|] == t;
  }

  lemma StepKeepsSparse(s: State, step: Step)
    requires Sparse(s) && Enabled(s, step)
    ensures Sparse(Next(s, step))
  {
    match step
    case Feed(t) => FeedKeepsSparse(s, t);
    case Fire(t) => FireKeepsSparse(s, t);
    case Unmount(_) =>
    case Wait(_) =>
  }

  lemma StepKeepsAnswered(s: State, step: Step)
    requires AllAnswered(s) && Enabled(s, step)
    ensures AllAnswered(Next(s, step))
  {
    var n := Next(s, step);
    forall event | event in n.heard ensures event <= n.now && Answered(n, event) {
      assert event in s.heard ==> Answered(s, event);
      if step.Fire? {
        FiredAnswers(s, step.at, event);
      }
    }
  }

  lemma FiredAnswers(s: State, t: int, event: int)
    requires AllAnswered(s) && Enabled(s, Fire(t)) && event in s.heard
    ensures Answered(Next(s, Fire(t)), event)
  {
    assert Answered(s, event);
    var n := Next(s, Fire(t));
    assert n.page.refreshed[|s.page.refreshed|] == t;
    assert forall r | r in s.page.refreshed :: r in n.page.refreshed;
  }

  lemma {:induction false} RunKeeps(from: State, steps: seq<Step>, to: State)
    requires Reaches(from, steps, to)
    ensures Sparse(from) ==> Sparse(to)
    ensures AllAnswered(from) ==> AllAnswered(to)
    decreases steps
  {
    if steps != [] {
      if Sparse(from) {
        StepKeepsSparse(from, steps[0]);
      }
      if AllAnswered(from) {
        StepKeepsAnswered(from, steps[0]);
      }
      RunKeeps(Next(from, steps[0]), steps[1..], to);
    }
  }

  // Every event heard on a page not left within its window is followed by a
  // refresh inside the window, once the window is past.
  lemma EveryEventIsRefreshed(steps: seq<Step>, s: State, event: int)
    requires Reaches(MOUNTED, steps, s) && event in s.heard && s.now > event + WINDOW_MS
    requires s.left.Due? ==> s.left.at > event + WINDOW_MS
    ensures exists r :: r in s.page.refreshed && Within(r, event)
  {
    RunKeeps(MOUNTED, steps, s);
    assert Answered(s, event);
  }

  lemma {:induction false} SpacedMeans(times: seq<int>, until: int)
    requires Spaced(times, until)
    ensures forall t | t in times :: until - t >= WINDOW_MS
    ensures forall i, j | 0 <= i < j < |times| :: times[j] - times[i] >= WINDOW_MS
    ensures (|times| + 1) * 1_500 <= until
  {
    if times != [] {
      var last := |times| - 1;
      SpacedMeans(times[..last], times[last]);
      forall i | 0 <= i < last ensures times[last] - times[i] >= WINDOW_MS {
        assert times[..last][i] in times[..last];
      }
      forall i, j | 0 <= i < j < |times| ensures times[j] - times[i] >= WINDOW_MS {
        if j < last {
          assert times[..last][j] - times[..last][i] >= WINDOW_MS;
        }
      }
    }
  }

  // Refreshes are a window apart, each a window after an event, and so at most
  // one in every 1500 ms of the run; none comes after the page was left.
  lemma RefreshesAreSparse(steps: seq<Step>, s: State)
    requires Reaches(MOUNTED, steps, s)
    ensures forall i, j | 0 <= i < j < |s.page.refreshed| :: s.page.refreshed[j] - s.page.refreshed[i] >= WINDOW_MS
    ensures forall r | r in s.page.refreshed :: r - WINDOW_MS in s.heard
    ensures |s.page.refreshed| * 1_500 <= s.now
    ensures s.left.Due? ==> forall r | r in s.page.refreshed :: r <= s.left.at
  {
    assert Sparse(MOUNTED);
    RunKeeps(MOUNTED, steps, s);
    SparseMeans(s);
  }

  lemma SparseMeans(s: State)
    requires Sparse(s)
    ensures forall i, j | 0 <= i < j < |s.page.refreshed| :: s.page.refreshed[j] - s.page.refreshed[i] >= WINDOW_MS
    ensures |s.page.refreshed| * 1_500 <= s.now
  {
    if s.page.refreshed != [] {
      var last := |s.page.refreshed| - 1;
      assert s.page.refreshed[last] in s.page.refreshed;
      SpacedMeans(s.page.refreshed, s.page.refreshed[last] + WINDOW_MS);
    }
  }
}
