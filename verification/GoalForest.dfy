// Goals as a parent-pointer list and as the forest it stands for: who is a
// root, who hangs under whom, and how deep (apps/web/app/goal-nodes.ts).
module GoalForest {

  datatype Goal = Goal(id: string, parent: string, keyResults: seq<string>)

  // No parent at all is written as an empty string: the original treats both alike.
  predicate IsRoot(goals: seq<Goal>, g: Goal) { g.parent == "" || g.parent !in Ids(goals) }

  function Ids(goals: seq<Goal>): set<string> { set g | g in goals :: g.id }

  ghost predicate UniqueIds(goals: seq<Goal>) {
    forall i, j | 0 <= i < j < |goals| :: goals[i].id != goals[j].id
  }

  // The goals that satisfy a test of their parent, in input order.
  function Children(goals: seq<Goal>, all: seq<Goal>, id: string): (r: seq<Goal>)
    ensures forall g :: g in r <==> g in goals && !IsRoot(all, g) && g.parent == id
  {
    if goals == [] then []
    else (if !IsRoot(all, goals[0]) && goals[0].parent == id then [goals[0]] else []) + Children(goals[1..], all, id)
  }

  function Roots(goals: seq<Goal>, all: seq<Goal>): (r: seq<Goal>)
    ensures forall g :: g in r <==> g in goals && IsRoot(all, g)
  {
    if goals == [] then []
    else (if IsRoot(all, goals[0]) then [goals[0]] else []) + Roots(goals[1..], all)
  }

  // The goal with an id: the first one, and with unique ids the only one.
  function Named(goals: seq<Goal>, id: string): (g: Goal)
    requires id in Ids(goals)
    ensures g in goals && g.id == id
  {
    if goals[0].id == id then goals[0]
    else
      assert exists g :: g in goals && g.id == id;
      Named(goals[1..], id)
  }

  lemma SameIdSameGoal(goals: seq<Goal>, a: Goal, b: Goal)
    requires UniqueIds(goals) && a in goals && b in goals && a.id == b.id
    ensures a == b
  {
    var i :| 0 <= i < |goals| && goals[i] == a;
    var j :| 0 <= j < |goals| && goals[j] == b;
  }

  function ParentOf(goals: seq<Goal>, g: Goal): (p: Goal)
    requires !IsRoot(goals, g)
    ensures p in goals && p.id == g.parent
  {
    Named(goals, g.parent)
  }

  // ---- climbing ----

  // The goal k parents up, or nothing past the root.
  datatype Place = Past | At(goal: Goal)

  function Climb(goals: seq<Goal>, g: Goal, k: nat): (p: Place)
    ensures p.At? && g in goals ==> p.goal in goals
    decreases k
  {
    if k == 0 then At(g)
    else if IsRoot(goals, g) then Past
    else Climb(goals, ParentOf(goals, g), k - 1)
  }

  // The parent chain ends at a root after exactly d steps.
  predicate Rooted(goals: seq<Goal>, g: Goal, d: nat)
    decreases d
  {
    if d == 0 then IsRoot(goals, g)
    else !IsRoot(goals, g) && Rooted(goals, ParentOf(goals, g), d - 1)
  }

  lemma {:induction false} DepthIsUnique(goals: seq<Goal>, g: Goal, d: nat, e: nat)
    requires Rooted(goals, g, d) && Rooted(goals, g, e)
    ensures d == e
    decreases d
  {
    if d > 0 && e > 0 {
      DepthIsUnique(goals, ParentOf(goals, g), d - 1, e - 1);
    }
  }

  lemma {:induction false} ClimbTwice(goals: seq<Goal>, g: Goal, j: nat, k: nat)
    requires Climb(goals, g, j).At?
    ensures Climb(goals, g, j + k) == Climb(goals, Climb(goals, g, j).goal, k)
    decreases j
  {
    if j > 0 {
      ClimbTwice(goals, ParentOf(goals, g), j - 1, k);
    }
  }

  lemma {:induction false} ClimbRooted(goals: seq<Goal>, g: Goal, d: nat, k: nat)
    requires Rooted(goals, g, d)
    ensures Climb(goals, g, k).At? <==> k <= d
    ensures k <= d ==> Rooted(goals, Climb(goals, g, k).goal, d - k)
    decreases k
  {
    if k > 0 && d > 0 {
      ClimbRooted(goals, ParentOf(goals, g), d - 1, k - 1);
    }
  }

  lemma {:induction false} StopsWhenRooted(goals: seq<Goal>, g: Goal, k: nat)
    requires Climb(goals, g, k).Past?
    ensures exists d :: 0 <= d < k && Rooted(goals, g, d)
    decreases k
  {
    if IsRoot(goals, g) {
      assert Rooted(goals, g, 0);
    } else {
      StopsWhenRooted(goals, ParentOf(goals, g), k - 1);
      var d :| 0 <= d < k - 1 && Rooted(goals, ParentOf(goals, g), d);
      assert Rooted(goals, g, d + 1);
    }
  }

  // ---- how long a chain can be ----

  lemma {:induction false} IdsBound(goals: seq<Goal>)
    ensures |Ids(goals)| <= |goals|
  {
    if goals != [] {
      IdsBound(goals[1..]);
      assert Ids(goals) == {goals[0].id} + Ids(goals[1..]);
    }
  }

  // The ids met on the first n steps up.
  function Met(goals: seq<Goal>, g: Goal, n: nat): set<string> {
    if n == 0 then {}
    else Met(goals, g, n - 1) + match Climb(goals, g, n - 1) case At(a) => {a.id} case Past => {}
  }

  lemma {:induction false} MetAreGoals(goals: seq<Goal>, g: Goal, n: nat)
    requires g in goals
    ensures Met(goals, g, n) <= Ids(goals)
  {
    if n > 0 {
      MetAreGoals(goals, g, n - 1);
    }
  }

  lemma {:induction false} NotMet(goals: seq<Goal>, g: Goal, n: nat, id: string)
    requires forall k | 0 <= k < n && Climb(goals, g, k).At? :: Climb(goals, g, k).goal.id != id
    ensures id !in Met(goals, g, n)
  {
    if n > 0 {
      NotMet(goals, g, n - 1, id);
    }
  }

  ghost predicate AllDifferent(goals: seq<Goal>, g: Goal, n: nat) {
    && (forall k | 0 <= k < n :: Climb(goals, g, k).At?)
    && (forall i, j | 0 <= i < j < n :: Climb(goals, g, i) != Climb(goals, g, j))
  }

  lemma LastIsNew(goals: seq<Goal>, g: Goal, n: nat)
    requires UniqueIds(goals) && g in goals && n > 0 && AllDifferent(goals, g, n)
    ensures Climb(goals, g, n - 1).goal.id !in Met(goals, g, n - 1)
  {
    var last := Climb(goals, g, n - 1).goal;
    forall k | 0 <= k < n - 1 ensures Climb(goals, g, k).goal.id != last.id {
      if Climb(goals, g, k).goal.id == last.id {
        SameIdSameGoal(goals, Climb(goals, g, k).goal, last);
      }
    }
    NotMet(goals, g, n - 1, last.id);
  }

  lemma {:induction false} MetCount(goals: seq<Goal>, g: Goal, n: nat)
    requires UniqueIds(goals) && g in goals && AllDifferent(goals, g, n)
    ensures |Met(goals, g, n)| == n
  {
    if n > 0 {
      MetCount(goals, g, n - 1);
      LastIsNew(goals, g, n);
    }
  }

  // A chain that never meets the same goal twice is no longer than the list.
  lemma MetAllDifferent(goals: seq<Goal>, g: Goal, n: nat)
    requires UniqueIds(goals) && g in goals && AllDifferent(goals, g, n)
    ensures n <= |goals|
  {
    MetCount(goals, g, n);
    MetAreGoals(goals, g, n);
    IdsBound(goals);
    SubsetIsSmaller(Met(goals, g, n), Ids(goals));
  }

  lemma {:induction false} SubsetIsSmaller(a: set<string>, b: set<string>)
    requires a <= b
    ensures |a| <= |b|
  {
    if a != {} {
      var x :| x in a;
      SubsetIsSmaller(a - {x}, b - {x});
    }
  }

  lemma RootedDepthBound(goals: seq<Goal>, g: Goal, d: nat)
    requires UniqueIds(goals) && g in goals && Rooted(goals, g, d)
    ensures d < |goals|
  {
    forall k | 0 <= k < d + 1 ensures Climb(goals, g, k).At? {
      ClimbRooted(goals, g, d, k);
    }
    forall i, j | 0 <= i < j < d + 1 ensures Climb(goals, g, i) != Climb(goals, g, j) {
      ClimbRooted(goals, g, d, i);
      ClimbRooted(goals, g, d, j);
      if Climb(goals, g, i) == Climb(goals, g, j) {
        DepthIsUnique(goals, Climb(goals, g, i).goal, d - i, d - j);
      }
    }
    MetAllDifferent(goals, g, d + 1);
  }

  // ---- cycles ----

  // A goal that is its own ancestor.
  ghost predicate OnCycle(goals: seq<Goal>, g: Goal) {
    exists k: nat :: k >= 1 && Climb(goals, g, k) == At(g)
  }

  ghost predicate ReachesCycle(goals: seq<Goal>, g: Goal) {
    exists j: nat :: Climb(goals, g, j).At? && OnCycle(goals, Climb(goals, g, j).goal)
  }

  ghost predicate HasRoot(goals: seq<Goal>, g: Goal) { exists d: nat :: Rooted(goals, g, d) }

  lemma NeverPastMeetsTwice(goals: seq<Goal>, g: Goal)
    requires UniqueIds(goals) && g in goals && !HasRoot(goals, g)
    ensures ReachesCycle(goals, g)
  {
    forall k: nat ensures Climb(goals, g, k).At? {
      if Climb(goals, g, k).Past? {
        StopsWhenRooted(goals, g, k);
      }
    }
    if forall i, j | 0 <= i < j < |goals| + 1 :: Climb(goals, g, i) != Climb(goals, g, j) {
      MetAllDifferent(goals, g, |goals| + 1);
    } else {
      var i, j :| 0 <= i < j < |goals| + 1 && Climb(goals, g, i) == Climb(goals, g, j);
      var a := Climb(goals, g, i).goal;
      ClimbTwice(goals, g, i, j - i);
      assert OnCycle(goals, a);
    }
  }

  // A goal's chain ends at a root exactly when it runs into no cycle.
  lemma RootedUnlessCyclic(goals: seq<Goal>, g: Goal)
    requires UniqueIds(goals) && g in goals
    ensures HasRoot(goals, g) <==> !ReachesCycle(goals, g)
  {
    if HasRoot(goals, g) && ReachesCycle(goals, g) {
      var d: nat :| Rooted(goals, g, d);
      var j: nat :| Climb(goals, g, j).At? && OnCycle(goals, Climb(goals, g, j).goal);
      var a := Climb(goals, g, j).goal;
      var k: nat :| k >= 1 && Climb(goals, a, k) == At(a);
      ClimbRooted(goals, g, d, j);
      ClimbRooted(goals, a, d - j, k);
      DepthIsUnique(goals, a, d - j, d - j - k);
    }
    if !HasRoot(goals, g) {
      NeverPastMeetsTwice(goals, g);
    }
  }
}
