// The count on the page and the component that keeps it live: a window, a read,
// and a refresh of the page if the count read is another
// (apps/web/lib/review-badge-live.tsx; the count it is given is the one
// apps/web/lib/app-shell.tsx draws).
module ReviewBadge {
  import opened Text

  // The server's count, or null.
  datatype Count = Unknown | Known(n: int)

  // What the component keeps: the count it believes shown, the count it was
  // last rendered with, which is the one on the page, whether a window is open,
  // and how often it refreshed the page.
  datatype View = View(shown: Count, prop: Count, pending: bool, refreshes: nat)

  // A feed event opens a window unless one is open.
  function Opened(v: View): View { v.(pending := true) }

  // The window closes, and the count is asked for.
  function Closed(v: View): View { v.(pending := false) }

  // A reply: another count is kept and refreshes the page.
  function Replied(v: View, next: Count): View {
    if next != v.shown then v.(shown := next, refreshes := v.refreshes + 1) else v
  }

  // A render: the effect copies the count when it is not the one before.
  function Rendering(v: View, count: Count): View {
    if count != v.prop then v.(shown := count, prop := count) else v
  }

  // ---- the component as it runs ----

  class Badge {
    var shown: Count
    var prop: Count
    var pending: bool
    var refreshes: nat

    constructor (count: Count)
      ensures Now() == View(count, count, false, 0)
    {
      shown, prop, pending, refreshes := count, count, false, 0;
    }

    ghost function Now(): View
      reads this
    {
      View(shown, prop, pending, refreshes)
    }

    method OnChanged()
      modifies this`pending
      ensures Now() == Opened(old(Now()))
    {
      if pending {
        return;
      }
      pending := true;
    }

    method OnTimer()
      requires pending
      modifies this`pending
      ensures Now() == Closed(old(Now()))
    {
      pending := false;
    }

    method OnReply(next: Count)
      modifies this`shown, this`refreshes
      ensures Now() == Replied(old(Now()), next)
    {
      if next != shown {
        shown := next;
        refreshes := refreshes + 1;
      }
    }

    method OnRender(count: Count)
      modifies this`shown, this`prop
      ensures Now() == Rendering(old(Now()), count)
    {
      if count != prop {
        shown := count;
      }
      prop := count;
    }
  }

  // ---- the badge, its server and what is under way ----

  // Something read on the server that has not reached the badge yet.
  datatype Arrival = Fetched(count: Count) | Rendered(count: Count)

  // `owed`: the server's last change has not been followed by an event yet.
  // `unread`: requests sent and not yet read by the server. `asked`: refreshes
  // whose render has not read the count yet. `lastOk`: the last read did not
  // fail.
  datatype State = State(
    server: Count, owed: bool, unread: nat, asked: nat, arrivals: seq<Arrival>, lastOk: bool, view: View)

  // A render is asked for by a refresh, or comes of its own, as when the reader
  // moves to another page. A reply may overtake the one before it.
  datatype Step =
    | Change(count: Count)
    | FeedEvent
    | Fire
    | Read
    | Lose
    | Render
    | Refresh
    | Arrive
    | Overtake(k: nat)

  predicate Enabled(s: State, step: Step) {
    match step
    case Fire => s.view.pending
    case Read => s.unread > 0
    case Lose => s.unread > 0
    case Refresh => s.asked > 0
    case Arrive => s.arrivals != []
    case Overtake(k) => k + 1 < |s.arrivals| && s.arrivals[k].Fetched? && s.arrivals[k + 1].Fetched?
    case _ => true
  }

  function Arrived(v: View, a: Arrival): (r: View)
    ensures r.refreshes >= v.refreshes
  {
    match a
    case Fetched(n) => Replied(v, n)
    case Rendered(n) => Rendering(v, n)
  }

  function Next(s: State, step: Step): State
    requires Enabled(s, step)
  {
    match step
    case Change(n) => s.(server := n, owed := true)
    case FeedEvent => s.(owed := false, view := Opened(s.view))
    case Fire => s.(unread := s.unread + 1, view := Closed(s.view))
    case Read => s.(unread := s.unread - 1, arrivals := s.arrivals + [Fetched(s.server)], lastOk := true)
    case Lose => s.(unread := s.unread - 1, lastOk := false)
    case Render => s.(arrivals := s.arrivals + [Rendered(s.server)])
    case Refresh => s.(asked := s.asked - 1, arrivals := s.arrivals + [Rendered(s.server)])
    case Arrive =>
      var v := Arrived(s.view, s.arrivals[0]);
      s.(arrivals := s.arrivals[1..], view := v, asked := s.asked + (v.refreshes - s.view.refreshes))
    case Overtake(k) => s.(arrivals := s.arrivals[k := s.arrivals[k + 1]][k + 1 := s.arrivals[k]])
  }

  // What was read arrives in the order it was read.
  ghost predicate InOrder(steps: seq<Step>) { forall step | step in steps :: !step.Overtake? }

  // The page as it first stands: what it shows is the server's count, or an
  // event for the change since is still to come.
  predicate Initial(s: State) {
    && !s.view.pending && s.unread == 0 && s.asked == 0 && s.arrivals == [] && s.lastOk && s.view.prop == s.view.shown
    && (s.view.shown == s.server || s.owed)
  }

  ghost predicate Reaches(from: State, steps: seq<Step>, to: State)
    decreases steps
  {
    if steps == [] then from == to
    else Enabled(from, steps[0]) && Reaches(Next(from, steps[0]), steps[1..], to)
  }

  // The view once everything under way has arrived in order.
  function Settled(v: View, arrivals: seq<Arrival>): View
    decreases arrivals
  {
    if arrivals == [] then v else Settled(Arrived(v, arrivals[0]), arrivals[1..])
  }

  lemma {:induction false} SettledThen(v: View, arrivals: seq<Arrival>, last: Arrival)
    ensures Settled(v, arrivals + [last]) == Arrived(Settled(v, arrivals), last)
    decreases arrivals
  {
    var all := arrivals + [last];
    if arrivals == [] {
      assert all[1..] == [];
    } else {
      assert all[0] == arrivals[0] && all[1..] == arrivals[1..] + [last];
      SettledThen(Arrived(v, arrivals[0]), arrivals[1..], last);
    }
  }

  // Either the badge is on its way to the server's count, or something is still
  // to happen that will put it there, or the last read failed.
  ghost predicate Inv(s: State) {
    || Settled(s.view, s.arrivals).shown == s.server
    || s.owed || s.view.pending || s.unread > 0 || !s.lastOk
  }

  // A window opened or closed changes nothing of what arrives.
  lemma {:induction false} SettledBeside(v: View, w: View, arrivals: seq<Arrival>)
    requires w == v.(pending := w.pending)
    ensures Settled(w, arrivals) == Settled(v, arrivals).(pending := w.pending)
    decreases arrivals
  {
    if arrivals != [] {
      SettledBeside(Arrived(v, arrivals[0]), Arrived(w, arrivals[0]), arrivals[1..]);
    }
  }

  lemma StepKeeps(s: State, step: Step)
    requires Inv(s) && Enabled(s, step) && !step.Overtake?
    ensures Inv(Next(s, step))
  {
    match step
    case Read => SettledThen(s.view, s.arrivals, Fetched(s.server));
    case Render => SettledThen(s.view, s.arrivals, Rendered(s.server));
    case Refresh => SettledThen(s.view, s.arrivals, Rendered(s.server));
    case FeedEvent => SettledBeside(s.view, Opened(s.view), s.arrivals);
    case Fire => SettledBeside(s.view, Closed(s.view), s.arrivals);
    case _ =>
  }

  lemma {:induction false} RunKeeps(from: State, steps: seq<Step>, to: State)
    requires Inv(from) && Reaches(from, steps, to) && InOrder(steps)
    ensures Inv(to)
    decreases steps
  {
    if steps != [] {
      StepKeeps(from, steps[0]);
      RunKeeps(Next(from, steps[0]), steps[1..], to);
    }
  }

  // Nothing is under way any more.
  predicate Quiet(s: State) { !s.owed && !s.view.pending && s.unread == 0 && s.asked == 0 && s.arrivals == [] }

  // In every run in which each change is followed by an event and what was read
  // arrives in the order it was read: once nothing is under way and the last
  // read did not fail, the count the component believes shown is the server's.
  lemma QuietBadgeIsRight(from: State, steps: seq<Step>, s: State)
    requires Initial(from) && Reaches(from, steps, s) && InOrder(steps) && Quiet(s) && s.lastOk
    ensures s.view.shown == s.server
  {
    RunKeeps(from, steps, s);
  }

  // ---- the run as its readings ----

  // A run with nothing under way between a reading and its arrival: the count
  // heard last, the count drawn last, the refreshes still to be rendered, and
  // whether the last render was lost on the component, as it drew the count
  // that stood there while the component believed another.
  datatype Trace = Trace(server: Count, heard: Count, drawn: Count, due: nat, lost: bool)

  function Drawn(t: Trace): Trace {
    t.(heard := if t.server != t.drawn then t.server else t.heard, drawn := t.server,
       lost := t.server == t.drawn != t.heard)
  }

  function Traced(t: Trace, step: Step): Trace {
    match step
    case Change(n) => t.(server := n)
    case Read => t.(heard := t.server, due := t.due + if t.server != t.heard then 1 else 0)
    case Render => Drawn(t)
    case Refresh => Drawn(t).(due := if t.due > 0 then t.due - 1 else 0)
    case _ => t
  }

  function TraceAfter(t: Trace, steps: seq<Step>): Trace
    decreases steps
  {
    if steps == [] then t else TraceAfter(Traced(t, steps[0]), steps[1..])
  }

  function Start(s: State): Trace { Trace(s.server, s.view.shown, s.view.prop, 0, false) }

  // What is under way comes to what the readings say.
  ghost predicate Follows(s: State, t: Trace) {
    var v := Settled(s.view, s.arrivals);
    && t.server == s.server && t.heard == v.shown && t.drawn == v.prop
    && t.due == s.asked + (v.refreshes - s.view.refreshes)
  }

  // The component and the page part ways only with a render still to come or
  // one that was lost.
  ghost predicate Together(t: Trace) {
    && (t.heard != t.drawn ==> t.due > 0 || t.lost)
    && (t.lost && t.due == 0 ==> t.heard != t.drawn)
  }

  lemma StepFollows(s: State, t: Trace, step: Step)
    requires Follows(s, t) && Enabled(s, step) && !step.Overtake?
    ensures Follows(Next(s, step), Traced(t, step))
  {
    SettledRefreshes(s.view, s.arrivals);
    match step
    case Read => SettledThen(s.view, s.arrivals, Fetched(s.server));
    case Render => SettledThen(s.view, s.arrivals, Rendered(s.server));
    case Refresh => SettledThen(s.view, s.arrivals, Rendered(s.server));
    case FeedEvent => SettledBeside(s.view, Opened(s.view), s.arrivals);
    case Fire => SettledBeside(s.view, Closed(s.view), s.arrivals);
    case _ =>
  }

  lemma {:induction false} RunFollows(from: State, t: Trace, steps: seq<Step>, to: State)
    requires Follows(from, t) && Together(t) && Reaches(from, steps, to) && InOrder(steps)
    ensures Follows(to, TraceAfter(t, steps)) && Together(TraceAfter(t, steps))
    decreases steps
  {
    if steps != [] {
      StepFollows(from, t, steps[0]);
      RunFollows(Next(from, steps[0]), Traced(t, steps[0]), steps[1..], to);
    }
  }

  // Once everything has arrived, the component believes the count read last,
  // and the page shows the count drawn last, however long what was read took.
  lemma ReadingsDecide(from: State, steps: seq<Step>, s: State)
    requires Initial(from) && Reaches(from, steps, s) && InOrder(steps) && s.arrivals == []
    ensures s.view.shown == TraceAfter(Start(from), steps).heard
    ensures s.view.prop == TraceAfter(Start(from), steps).drawn
  {
    RunFollows(from, Start(from), steps, s);
  }

  // With nothing under way, whether or not reads were lost: the component is
  // right exactly when the count it heard last is still the server's, and the
  // page is exactly when the count drawn last is.
  lemma QuietExactly(from: State, steps: seq<Step>, s: State)
    requires Initial(from) && Reaches(from, steps, s) && InOrder(steps) && Quiet(s)
    ensures
      var t := TraceAfter(Start(from), steps);
      && (s.view.shown == s.server <==> t.heard == t.server)
      && (s.view.prop == s.server <==> t.drawn == t.server)
  {
    RunFollows(from, Start(from), steps, s);
  }

  // And if the last read did not fail, the page shows the server's count
  // exactly when its last render was not lost: when that render drew another
  // count than the one that stood there, or the one the component believed.
  lemma QuietPageExactly(from: State, steps: seq<Step>, s: State)
    requires Initial(from) && Reaches(from, steps, s) && InOrder(steps) && Quiet(s) && s.lastOk
    ensures s.view.prop == s.server <==> !TraceAfter(Start(from), steps).lost
  {
    QuietBadgeIsRight(from, steps, s);
    RunFollows(from, Start(from), steps, s);
  }

  // No count changes between a read that causes a refresh and its render.
  ghost predicate Steady(t: Trace, steps: seq<Step>)
    decreases steps
  {
    steps != [] ==>
      && (steps[0].Refresh? ==> t.server == t.heard)
      && Steady(Traced(t, steps[0]), steps[1..])
  }

  lemma {:induction false} SteadyTogether(t: Trace, steps: seq<Step>)
    requires Steady(t, steps) && (t.heard != t.drawn ==> t.due > 0)
    ensures var u := TraceAfter(t, steps); u.heard != u.drawn ==> u.due > 0
    decreases steps
  {
    if steps != [] {
      SteadyTogether(Traced(t, steps[0]), steps[1..]);
    }
  }

  // As long as the render a refresh asks for draws the count that was read, a
  // page with nothing under way shows the server's count.
  lemma SteadyPageIsRight(from: State, steps: seq<Step>, s: State)
    requires Initial(from) && Reaches(from, steps, s) && InOrder(steps) && Quiet(s) && s.lastOk
    requires Steady(Start(from), steps)
    ensures s.view.prop == s.server
  {
    QuietBadgeIsRight(from, steps, s);
    RunFollows(from, Start(from), steps, s);
    SteadyTogether(Start(from), steps);
  }

  // ---- runs that leave the page wrong ----

  // From here to there by one step after another.
  function After(s: State, steps: seq<Step>): Option<State>
    decreases steps
  {
    if steps == [] then Some(s)
    else if Enabled(s, steps[0]) then After(Next(s, steps[0]), steps[1..])
    else None
  }

  lemma {:induction false} AfterReaches(s: State, steps: seq<Step>)
    requires After(s, steps).Some?
    ensures Reaches(s, steps, After(s, steps).value)
    decreases steps
  {
    if steps != [] {
      AfterReaches(Next(s, steps[0]), steps[1..]);
    }
  }

  lemma {:induction false} AfterBoth(s: State, a: seq<Step>, b: seq<Step>)
    requires After(s, a).Some?
    ensures After(s, a + b) == After(After(s, a).value, b)
    decreases a
  {
    if a == [] {
      assert a + b == b;
    } else {
      assert (a + b)[0] == a[0] && (a + b)[1..] == a[1..] + b;
      AfterBoth(Next(s, a[0]), a[1..], b);
    }
  }

  // A change that is heard of and read.
  function Heard(n: Count): seq<Step> { [Change(n), FeedEvent, Fire, Read] }

  lemma HearsAndReads(s: State, n: Count)
    requires !s.view.pending && s.unread == 0
    ensures After(s, Heard(n))
         == Some(s.(server := n, owed := false, lastOk := true, arrivals := s.arrivals + [Fetched(n)]))
  {
    var s1 := Next(s, Change(n));
    var s2 := Next(s1, FeedEvent);
    var s3 := Next(s2, Fire);
    var s4 := Next(s3, Read);
    assert Heard(n)[1..] == [FeedEvent, Fire, Read] && [FeedEvent, Fire, Read][1..] == [Fire, Read];
    assert [Fire, Read][1..] == [Read] && [Read][1..] == [];
    assert After(s3, [Read]) == Some(s4);
    assert After(s2, [Fire, Read]) == Some(s4);
    assert After(s1, [FeedEvent, Fire, Read]) == Some(s4);
    assert s4.view == s.view;
  }

  // The page goes wrong and stays so: the count changes and is read, changes
  // back before the refresh is rendered, and changes again. The component
  // believes what the server says; the page shows the count of the start.
  lemma PageGoesWrong(s: State, n: Count)
    requires Quiet(s) && s.view.shown == s.view.prop == s.server != n
    ensures
      var run := Heard(n) + [Change(s.server), Arrive, Refresh, Arrive] + (Heard(n) + [Arrive]);
      var t := After(s, run);
      && t.Some? && Reaches(s, run, t.value) && InOrder(run)
      && Quiet(t.value) && t.value.lastOk && t.value.view.shown == t.value.server == n && t.value.view.prop == s.server
  {
    var c := s.server;
    HearsAndReads(s, n);
    var read := After(s, Heard(n)).value;
    var back := s.(server := c, owed := true, lastOk := true,
                   view := s.view.(shown := n, refreshes := s.view.refreshes + 1));
    ChangesBack(read, c, back);
    AfterBoth(s, Heard(n), [Change(c), Arrive, Refresh, Arrive]);
    HearsAndReads(back, n);
    var again := After(back, Heard(n)).value;
    assert again.arrivals == [Fetched(n)];
    LastArrives(again, again.(arrivals := []));
    AfterBoth(back, Heard(n), [Arrive]);
    AfterBoth(s, Heard(n) + [Change(c), Arrive, Refresh, Arrive], Heard(n) + [Arrive]);
    AfterReaches(s, Heard(n) + [Change(c), Arrive, Refresh, Arrive] + (Heard(n) + [Arrive]));
  }

  lemma ChangesBack(read: State, c: Count, back: State)
    requires read.arrivals == [Fetched(read.server)] && read.view.shown == read.view.prop == c != read.server
    requires read.asked == 0
    requires back == read.(server := c, owed := true, arrivals := [],
                           view := read.view.(shown := read.server, refreshes := read.view.refreshes + 1))
    ensures After(read, [Change(c), Arrive, Refresh, Arrive]) == Some(back)
  {
    var s1 := Next(read, Change(c));
    assert [Fetched(read.server)][1..] == [];
    var s2 := Next(s1, Arrive);
    assert s2 == back.(asked := 1);
    var s3 := Next(s2, Refresh);
    assert s3.arrivals == [] + [Rendered(c)] == [Rendered(c)] && [Rendered(c)][1..] == [];
    assert Next(s3, Arrive) == back;
    var run := [Change(c), Arrive, Refresh, Arrive];
    assert run[1..] == [Arrive, Refresh, Arrive] && [Arrive, Refresh, Arrive][1..] == [Refresh, Arrive];
    assert [Refresh, Arrive][1..] == [Arrive] && [Arrive][1..] == [];
    assert After(s3, [Arrive]) == Some(back);
    assert After(s2, [Refresh, Arrive]) == Some(back);
    assert After(s1, [Arrive, Refresh, Arrive]) == Some(back);
  }

  // A reply that says what is believed already changes nothing.
  lemma LastArrives(s: State, t: State)
    requires s.arrivals == [Fetched(s.view.shown)] && t == s.(arrivals := [])
    ensures After(s, [Arrive]) == Some(t)
  {
    assert [Fetched(s.view.shown)][1..] == [] && [Arrive][1..] == [];
    assert Next(s, Arrive) == t;
  }

  // Replies out of their order: of two changes, there and back, the second is
  // heard first. The component is left with the count that is gone, and the
  // render it asks for draws what stands there and tells it nothing.
  lemma OvertakenReplyLeavesItStale(s: State, n: Count)
    requires Quiet(s) && s.view.shown == s.view.prop == s.server != n
    ensures
      var run := Heard(n) + Heard(s.server) + [Overtake(0), Arrive, Arrive, Refresh, Arrive];
      var t := After(s, run);
      && t.Some? && Reaches(s, run, t.value)
      && Quiet(t.value) && t.value.lastOk && t.value.view.shown == n != t.value.server == t.value.view.prop
  {
    var c := s.server;
    HearsAndReads(s, n);
    var once := After(s, Heard(n)).value;
    HearsAndReads(once, c);
    var twice := After(once, Heard(c)).value;
    assert twice.arrivals == [Fetched(n), Fetched(c)];
    var last := twice.(arrivals := [], view := s.view.(shown := n, refreshes := s.view.refreshes + 1));
    Overtaken(twice, n, last);
    AfterBoth(s, Heard(n), Heard(c));
    AfterBoth(s, Heard(n) + Heard(c), [Overtake(0), Arrive, Arrive, Refresh, Arrive]);
    AfterReaches(s, Heard(n) + Heard(c) + [Overtake(0), Arrive, Arrive, Refresh, Arrive]);
  }

  lemma Overtaken(s: State, n: Count, last: State)
    requires s.arrivals == [Fetched(n), Fetched(s.server)] && s.view.shown == s.view.prop == s.server != n
    requires s.asked == 0
    requires last == s.(arrivals := [], view := s.view.(shown := n, refreshes := s.view.refreshes + 1))
    ensures After(s, [Overtake(0), Arrive, Arrive, Refresh, Arrive]) == Some(last)
  {
    var c := s.server;
    var s1 := Next(s, Overtake(0));
    assert s1 == s.(arrivals := [Fetched(c), Fetched(n)]);
    assert [Fetched(c), Fetched(n)][1..] == [Fetched(n)] && [Fetched(n)][1..] == [];
    var s2 := Next(s1, Arrive);
    assert s2 == s.(arrivals := [Fetched(n)]);
    var s3 := Next(s2, Arrive);
    assert s3 == last.(asked := 1);
    var s4 := Next(s3, Refresh);
    assert s4.arrivals == [] + [Rendered(c)] == [Rendered(c)] && [Rendered(c)][1..] == [];
    assert Next(s4, Arrive) == last;
    var run := [Overtake(0), Arrive, Arrive, Refresh, Arrive];
    assert run[1..] == [Arrive, Arrive, Refresh, Arrive];
    assert [Arrive, Arrive, Refresh, Arrive][1..] == [Arrive, Refresh, Arrive];
    assert [Arrive, Refresh, Arrive][1..] == [Refresh, Arrive] && [Refresh, Arrive][1..] == [Arrive];
    assert [Arrive][1..] == [];
    assert After(s4, [Arrive]) == Some(last);
    assert After(s3, [Refresh, Arrive]) == Some(last);
    assert After(s2, [Arrive, Refresh, Arrive]) == Some(last);
    assert After(s1, [Arrive, Arrive, Refresh, Arrive]) == Some(last);
  }

  // ---- how often it refreshes ----

  function Changes(steps: seq<Step>): nat {
    if steps == [] then 0 else (if steps[0].Change? then 1 else 0) + Changes(steps[1..])
  }

  function Behind(shown: Count, server: Count): nat { if shown != server then 1 else 0 }

  // The refreshes there will have been once everything under way has arrived,
  // and one more if the badge is then still out of date.
  function Due(s: State): nat {
    Settled(s.view, s.arrivals).refreshes + Behind(Settled(s.view, s.arrivals).shown, s.server)
  }

  lemma StepDue(s: State, step: Step)
    requires Enabled(s, step) && !step.Overtake?
    ensures Due(Next(s, step)) <= Due(s) + if step.Change? then 1 else 0
  {
    match step
    case Read => SettledThen(s.view, s.arrivals, Fetched(s.server));
    case Render => SettledThen(s.view, s.arrivals, Rendered(s.server));
    case Refresh => SettledThen(s.view, s.arrivals, Rendered(s.server));
    case FeedEvent => SettledBeside(s.view, Opened(s.view), s.arrivals);
    case Fire => SettledBeside(s.view, Closed(s.view), s.arrivals);
    case _ =>
  }

  lemma {:induction false} SettledRefreshes(v: View, arrivals: seq<Arrival>)
    ensures v.refreshes <= Settled(v, arrivals).refreshes
    decreases arrivals
  {
    if arrivals != [] {
      SettledRefreshes(Arrived(v, arrivals[0]), arrivals[1..]);
    }
  }

  lemma {:induction false} RunDue(from: State, steps: seq<Step>, to: State)
    requires Reaches(from, steps, to) && InOrder(steps)
    ensures Due(to) <= Due(from) + Changes(steps)
    decreases steps
  {
    if steps != [] {
      StepDue(from, steps[0]);
      RunDue(Next(from, steps[0]), steps[1..], to);
    }
  }

  // From its first showing on, in every run, the page is refreshed at most
  // once for every change of the server's count, and once more if it began out
  // of date: events, reads and renders by themselves refresh nothing.
  lemma RefreshesAreEarned(from: State, steps: seq<Step>, to: State)
    requires Initial(from) && Reaches(from, steps, to) && InOrder(steps)
    ensures to.view.refreshes <= from.view.refreshes + Changes(steps) + Behind(from.view.shown, from.server)
  {
    RunDue(from, steps, to);
    SettledRefreshes(to.view, to.arrivals);
  }

  // One change, heard and read, does take one refresh, whose render draws it.
  lemma ChangeIsRefreshed(s: State, n: Count)
    requires Quiet(s) && s.view.shown == s.view.prop == s.server != n
    ensures
      var run := Heard(n) + [Arrive, Refresh, Arrive];
      var t := After(s, run);
      && t.Some? && Reaches(s, run, t.value) && Quiet(t.value)
      && t.value.view == s.view.(shown := n, prop := n, refreshes := s.view.refreshes + 1)
  {
    HearsAndReads(s, n);
    var read := After(s, Heard(n)).value;
    assert read.arrivals == [Fetched(n)];
    RefreshIsDrawn(read,
                   read.(arrivals := [], view := s.view.(shown := n, prop := n, refreshes := s.view.refreshes + 1)));
    AfterBoth(s, Heard(n), [Arrive, Refresh, Arrive]);
    AfterReaches(s, Heard(n) + [Arrive, Refresh, Arrive]);
  }

  lemma RefreshIsDrawn(s: State, t: State)
    requires s.arrivals == [Fetched(s.server)] && s.view.shown == s.view.prop != s.server && s.asked == 0
    requires t == s.(arrivals := [],
                     view := s.view.(shown := s.server, prop := s.server, refreshes := s.view.refreshes + 1))
    ensures After(s, [Arrive, Refresh, Arrive]) == Some(t)
  {
    assert [Fetched(s.server)][1..] == [];
    var s1 := Next(s, Arrive);
    var s2 := Next(s1, Refresh);
    assert s2.arrivals == [] + [Rendered(s.server)] == [Rendered(s.server)] && [Rendered(s.server)][1..] == [];
    assert Next(s2, Arrive) == t;
    assert [Arrive, Refresh, Arrive][1..] == [Refresh, Arrive] && [Refresh, Arrive][1..] == [Arrive];
    assert [Arrive][1..] == [] && After(s2, [Arrive]) == Some(t);
    assert After(s1, [Refresh, Arrive]) == Some(t);
  }

  // And it stays put: reading again and hearing more events moves nothing and
  // refreshes nothing until the server's count changes.
  lemma {:induction false} QuietBadgeStaysPut(s: State, steps: seq<Step>, t: State)
    requires s.view.shown == s.server && (forall a | a in s.arrivals :: a.count == s.server)
    requires Reaches(s, steps, t) && forall step | step in steps :: !step.Change?
    ensures t.server == s.server && t.view.shown == s.server && t.view.refreshes == s.view.refreshes
    decreases steps
  {
    if steps != [] {
      var next := Next(s, steps[0]);
      forall a | a in next.arrivals ensures a.count == s.server {
        assert a in s.arrivals || a == Fetched(s.server) || a == Rendered(s.server);
      }
      QuietBadgeStaysPut(next, steps[1..], t);
    }
  }

  // A lost read is what the condition that the last one did not fail is for:
  // the component and the page then stay wrong with nothing under way.
  lemma LostReadLeavesItStale(s: State, n: Count)
    requires Quiet(s) && s.view.shown == s.view.prop == s.server != n
    ensures
      var run := [Change(n), FeedEvent, Fire, Lose];
      var t := After(s, run);
      && t.Some? && Reaches(s, run, t.value) && Quiet(t.value)
      && t.value.view.shown == t.value.view.prop != t.value.server
  {
    var s1 := Next(s, Change(n));
    var s2 := Next(s1, FeedEvent);
    var s3 := Next(s2, Fire);
    var t := Next(s3, Lose);
    var run := [Change(n), FeedEvent, Fire, Lose];
    assert run[1..] == [FeedEvent, Fire, Lose] && [FeedEvent, Fire, Lose][1..] == [Fire, Lose];
    assert [Fire, Lose][1..] == [Lose] && [Lose][1..] == [];
    assert After(s3, [Lose]) == Some(t);
    assert After(s2, [Fire, Lose]) == Some(t);
    assert After(s1, [FeedEvent, Fire, Lose]) == Some(t);
    AfterReaches(s, run);
  }
}
