// The forest flattened to table rows, parents before children
// (apps/web/app/goal-nodes.ts, mapNodesFor and goalTreeNodes).
module GoalRows {
  import opened Text
  import opened GoalForest

  datatype RowKind = GoalRow | KeyResultRow

  datatype Row = Row(id: string, kind: RowKind, depth: nat, goalId: string)

  function KeyResultRows(goal: Goal, keyResults: seq<string>, depth: nat): seq<Row> {
    if keyResults == [] then []
    else [Row(keyResults[0], KeyResultRow, depth + 1, goal.id)] + KeyResultRows(goal, keyResults[1..], depth)
  }

  // A goal as a row, with its key results as rows below it.
  function RowsFor(goal: Goal, depth: nat): seq<Row> {
    [Row(goal.id, GoalRow, depth, goal.id)] + KeyResultRows(goal, goal.keyResults, depth)
  }

  // ---- the forest the list stands for ----

  datatype Tree = Tree(goal: Goal, kids: seq<Tree>)

  ghost predicate AllRooted(goals: seq<Goal>, list: seq<Goal>, d: nat) {
    forall g | g in list :: g in goals && Rooted(goals, g, d)
  }

  lemma ChildrenRooted(goals: seq<Goal>, g: Goal, d: nat)
    requires UniqueIds(goals) && g in goals && Rooted(goals, g, d)
    ensures AllRooted(goals, Children(goals, goals, g.id), d + 1)
  {
    forall c | c in Children(goals, goals, g.id) ensures Rooted(goals, c, d + 1) {
      SameIdSameGoal(goals, ParentOf(goals, c), g);
    }
  }

  // A goal over its children, in the order the list has them.
  ghost function TreeOf(goals: seq<Goal>, g: Goal, d: nat): Tree
    requires UniqueIds(goals) && g in goals && Rooted(goals, g, d)
    decreases |goals| - d, 0
  {
    RootedDepthBound(goals, g, d);
    ChildrenRooted(goals, g, d);
    Tree(g, TreesOf(goals, Children(goals, goals, g.id), d + 1))
  }

  ghost function TreesOf(goals: seq<Goal>, list: seq<Goal>, d: nat): (r: seq<Tree>)
    requires UniqueIds(goals) && AllRooted(goals, list, d)
    requires d <= |goals|
    ensures |r| == |list|
    decreases |goals| - d, 1 + |list|
  {
    if list == [] then [] else [TreeOf(goals, list[0], d)] + TreesOf(goals, list[1..], d)
  }

  // A tree read parents first, each goal with its key results right behind it.
  function Preorder(tree: Tree, depth: nat): seq<Row>
    decreases tree, 0
  {
    RowsFor(tree.goal, depth) + PreorderAll(tree.kids, depth + 1)
  }

  function PreorderAll(trees: seq<Tree>, depth: nat): seq<Row>
    decreases trees, 1
  {
    if trees == [] then [] else Preorder(trees[0], depth) + PreorderAll(trees[1..], depth)
  }

  function IdsOf(tree: Tree): set<string>
    decreases tree, 0
  {
    {tree.goal.id} + IdsOfAll(tree.kids)
  }

  function IdsOfAll(trees: seq<Tree>): set<string>
    decreases trees, 1
  {
    if trees == [] then {} else IdsOf(trees[0]) + IdsOfAll(trees[1..])
  }

  // ---- who is in whose tree ----

  // A goal's tree, opened once.
  lemma KidsOf(goals: seq<Goal>, g: Goal, d: nat) returns (list: seq<Goal>, kids: seq<Tree>)
    requires UniqueIds(goals) && g in goals && Rooted(goals, g, d)
    ensures list == Children(goals, goals, g.id) && AllRooted(goals, list, d + 1) && d < |goals|
    ensures kids == TreesOf(goals, list, d + 1)
    ensures TreeOf(goals, g, d) == Tree(g, kids)
    ensures IdsOf(TreeOf(goals, g, d)) == {g.id} + IdsOfAll(kids)
  {
    RootedDepthBound(goals, g, d);
    ChildrenRooted(goals, g, d);
    list := Children(goals, goals, g.id);
    kids := TreesOf(goals, list, d + 1);
  }

  // From a goal's child it is one more step up to the goal.
  lemma OneMoreUp(goals: seq<Goal>, g: Goal, c: Goal, h: Goal, k: nat)
    requires UniqueIds(goals) && g in goals && !IsRoot(goals, c) && c.parent == g.id
    requires Climb(goals, h, k) == At(c)
    ensures Climb(goals, h, k + 1) == At(g)
  {
    SameIdSameGoal(goals, ParentOf(goals, c), g);
    ClimbTwice(goals, h, k, 1);
    assert Climb(goals, c, 1) == Climb(goals, g, 0);
  }

  // Every goal of a tree hangs where its parent says, and is as deep as it hangs.
  ghost predicate Stands(goals: seq<Goal>, t: Tree, d: nat)
    decreases t
  {
    && t.goal in goals && Rooted(goals, t.goal, d)
    && (forall kid | kid in t.kids ::
          Stands(goals, kid, d + 1) && !IsRoot(goals, kid.goal) && kid.goal.parent == t.goal.id)
  }

  lemma {:induction false} TreeStands(goals: seq<Goal>, g: Goal, d: nat)
    requires UniqueIds(goals) && g in goals && Rooted(goals, g, d)
    ensures TreeOf(goals, g, d).goal == g && Stands(goals, TreeOf(goals, g, d), d)
    decreases |goals| - d, 0
  {
    var list, kids := KidsOf(goals, g, d);
    TreesStand(goals, list, d + 1);
    NodeStands(goals, g, list, kids, d);
  }

  lemma NodeStands(goals: seq<Goal>, g: Goal, list: seq<Goal>, kids: seq<Tree>, d: nat)
    requires g in goals && Rooted(goals, g, d) && list == Children(goals, goals, g.id)
    requires forall t | t in kids :: t.goal in list && Stands(goals, t, d + 1)
    ensures Stands(goals, Tree(g, kids), d)
  {
    forall kid | kid in kids ensures !IsRoot(goals, kid.goal) && kid.goal.parent == g.id {
      assert kid.goal in list;
    }
  }

  lemma {:induction false} TreesStand(goals: seq<Goal>, list: seq<Goal>, d: nat)
    requires UniqueIds(goals) && AllRooted(goals, list, d) && d <= |goals|
    ensures forall t | t in TreesOf(goals, list, d) :: t.goal in list && Stands(goals, t, d)
    decreases |goals| - d, 1 + |list|
  {
    if list != [] {
      TreeStands(goals, list[0], d);
      TreesStand(goals, list[1..], d);
    }
  }

  // Whoever is in one of several trees.
  lemma {:induction false} WhoseTree(trees: seq<Tree>, id: string) returns (t: Tree)
    requires id in IdsOfAll(trees)
    ensures t in trees && id in IdsOf(t)
  {
    if id in IdsOf(trees[0]) {
      t := trees[0];
    } else {
      t := WhoseTree(trees[1..], id);
    }
  }

  lemma {:induction false} StandingClimbs(goals: seq<Goal>, t: Tree, d: nat, id: string) returns (h: Goal, k: nat)
    requires UniqueIds(goals) && Stands(goals, t, d) && id in IdsOf(t)
    ensures h in goals && h.id == id && Climb(goals, h, k) == At(t.goal) && Rooted(goals, h, d + k)
    ensures k == 0 <==> id == t.goal.id
    decreases t
  {
    if id == t.goal.id {
      h, k := t.goal, 0;
    } else {
      var kid := WhoseTree(t.kids, id);
      var j;
      h, j := StandingClimbs(goals, kid, d + 1, id);
      OneMoreUp(goals, t.goal, kid.goal, h, j);
      k := j + 1;
    }
  }

  // Everything in a goal's tree climbs to that goal, and is as deep as it climbs.
  lemma TreeClimbs(goals: seq<Goal>, g: Goal, d: nat, id: string) returns (h: Goal, k: nat)
    requires UniqueIds(goals) && g in goals && Rooted(goals, g, d)
    requires id in IdsOf(TreeOf(goals, g, d))
    ensures h in goals && h.id == id && Climb(goals, h, k) == At(g) && Rooted(goals, h, d + k)
    ensures k == 0 <==> id == g.id
  {
    TreeStands(goals, g, d);
    h, k := StandingClimbs(goals, TreeOf(goals, g, d), d, id);
  }

  lemma TreesClimb(goals: seq<Goal>, list: seq<Goal>, d: nat, id: string) returns (h: Goal, c: Goal, k: nat)
    requires UniqueIds(goals) && AllRooted(goals, list, d) && d <= |goals|
    requires id in IdsOfAll(TreesOf(goals, list, d))
    ensures c in list && h in goals && h.id == id && Climb(goals, h, k) == At(c) && Rooted(goals, h, d + k)
  {
    TreesStand(goals, list, d);
    var t := WhoseTree(TreesOf(goals, list, d), id);
    c := t.goal;
    h, k := StandingClimbs(goals, t, d, id);
  }

  lemma {:induction false} ListedTreeIsIn(goals: seq<Goal>, list: seq<Goal>, d: nat, c: Goal)
    requires UniqueIds(goals) && AllRooted(goals, list, d) && d <= |goals| && c in list
    ensures IdsOf(TreeOf(goals, c, d)) <= IdsOfAll(TreesOf(goals, list, d))
  {
    if c != list[0] {
      ListedTreeIsIn(goals, list[1..], d, c);
    }
  }

  // Whoever climbs to a goal is in its tree.
  lemma {:induction false} ClimbersAreIn(goals: seq<Goal>, g: Goal, d: nat, h: Goal, k: nat)
    requires UniqueIds(goals) && g in goals && Rooted(goals, g, d)
    requires h in goals && Climb(goals, h, k) == At(g)
    ensures h.id in IdsOf(TreeOf(goals, g, d))
    decreases k
  {
    if k > 0 {
      var c := LastStep(goals, g, h, k);
      ChildrenRooted(goals, g, d);
      ClimbersAreIn(goals, c, d + 1, h, k - 1);
      ChildTreeIsIn(goals, g, d, c);
    }
  }

  lemma ChildTreeIsIn(goals: seq<Goal>, g: Goal, d: nat, c: Goal)
    requires UniqueIds(goals) && g in goals && Rooted(goals, g, d)
    requires c in Children(goals, goals, g.id)
    ensures Rooted(goals, c, d + 1)
    ensures IdsOf(TreeOf(goals, c, d + 1)) <= IdsOf(TreeOf(goals, g, d))
  {
    RootedDepthBound(goals, g, d);
    ChildrenRooted(goals, g, d);
    ListedTreeIsIn(goals, Children(goals, goals, g.id), d + 1, c);
  }

  lemma LastStep(goals: seq<Goal>, g: Goal, h: Goal, k: nat) returns (c: Goal)
    requires h in goals && k > 0 && Climb(goals, h, k) == At(g)
    ensures c in goals && Climb(goals, h, k - 1) == At(c)
    ensures c in Children(goals, goals, g.id)
  {
    ClimbPrefix(goals, h, k);
    c := Climb(goals, h, k - 1).goal;
    ClimbTwice(goals, h, k - 1, 1);
    assert Climb(goals, c, 1) == At(g);
  }

  lemma {:induction false} ClimbPrefix(goals: seq<Goal>, h: Goal, k: nat)
    requires k > 0 && Climb(goals, h, k).At?
    ensures Climb(goals, h, k - 1).At?
    decreases k
  {
    if k > 1 {
      ClimbPrefix(goals, ParentOf(goals, h), k - 1);
    }
  }

  // Two goals of one depth share nobody.
  lemma TreesApart(goals: seq<Goal>, a: Goal, b: Goal, d: nat)
    requires UniqueIds(goals) && a in goals && b in goals && a != b
    requires Rooted(goals, a, d) && Rooted(goals, b, d)
    ensures IdsOf(TreeOf(goals, a, d)) !! IdsOf(TreeOf(goals, b, d))
  {
    forall id | id in IdsOf(TreeOf(goals, a, d)) && id in IdsOf(TreeOf(goals, b, d)) ensures false {
      NobodyShared(goals, a, b, d, id);
    }
  }

  lemma NobodyShared(goals: seq<Goal>, a: Goal, b: Goal, d: nat, id: string)
    requires UniqueIds(goals) && a in goals && b in goals
    requires Rooted(goals, a, d) && Rooted(goals, b, d)
    requires id in IdsOf(TreeOf(goals, a, d)) && id in IdsOf(TreeOf(goals, b, d))
    ensures a == b
  {
    var h, j := TreeClimbs(goals, a, d, id);
    var i, k := TreeClimbs(goals, b, d, id);
    OneTop(goals, a, b, d, h, i, j, k);
  }

  lemma OneTop(goals: seq<Goal>, a: Goal, b: Goal, d: nat, h: Goal, i: Goal, j: nat, k: nat)
    requires UniqueIds(goals) && h in goals && i in goals && h.id == i.id
    requires Climb(goals, h, j) == At(a) && Climb(goals, i, k) == At(b)
    requires Rooted(goals, h, d + j) && Rooted(goals, i, d + k)
    ensures a == b
  {
    SameIdSameGoal(goals, h, i);
    DepthIsUnique(goals, h, d + j, d + k);
  }

  ghost predicate NoRepeats(list: seq<Goal>) {
    forall i, j | 0 <= i < j < |list| :: list[i] != list[j]
  }

  lemma {:induction false} FirstApartFromRest(goals: seq<Goal>, list: seq<Goal>, d: nat, a: Goal)
    requires UniqueIds(goals) && AllRooted(goals, list, d) && d <= |goals|
    requires a in goals && Rooted(goals, a, d) && a !in list
    ensures IdsOf(TreeOf(goals, a, d)) !! IdsOfAll(TreesOf(goals, list, d))
  {
    if list != [] {
      TreesApart(goals, a, list[0], d);
      FirstApartFromRest(goals, list[1..], d, a);
    }
  }

  // Nobody is in the trees of a list of deeper goals.
  lemma NotAmongDeeper(goals: seq<Goal>, list: seq<Goal>, g: Goal, d: nat, e: nat)
    requires UniqueIds(goals) && AllRooted(goals, list, e) && e <= |goals|
    requires g in goals && Rooted(goals, g, d) && d < e
    ensures g.id !in IdsOfAll(TreesOf(goals, list, e))
  {
    if g.id in IdsOfAll(TreesOf(goals, list, e)) {
      var h, c, k := TreesClimb(goals, list, e, g.id);
      SameIdSameGoal(goals, h, g);
      DepthIsUnique(goals, g, d, e + k);
    }
  }

  lemma {:induction false} ChildrenNoRepeats(list: seq<Goal>, goals: seq<Goal>, id: string)
    requires UniqueIds(list)
    ensures NoRepeats(Children(list, goals, id))
  {
    if list != [] {
      ChildrenNoRepeats(list[1..], goals, id);
      var rest := Children(list[1..], goals, id);
      assert forall j | 0 <= j < |rest| :: rest[j] in rest;
      assert list[0] !in list[1..];
    }
  }

  lemma {:induction false} RootsNoRepeats(list: seq<Goal>, goals: seq<Goal>)
    requires UniqueIds(list)
    ensures NoRepeats(Roots(list, goals))
  {
    if list != [] {
      RootsNoRepeats(list[1..], goals);
      var rest := Roots(list[1..], goals);
      assert forall j | 0 <= j < |rest| :: rest[j] in rest;
      assert list[0] !in list[1..];
    }
  }

  // ---- the rows of the whole set ----

  lemma RootsRooted(goals: seq<Goal>)
    ensures AllRooted(goals, Roots(goals, goals), 0)
  {
  }

  ghost function Forest(goals: seq<Goal>): seq<Tree>
    requires UniqueIds(goals)
  {
    RootsRooted(goals);
    TreesOf(goals, Roots(goals, goals), 0)
  }

  ghost function Rows(goals: seq<Goal>): seq<Row>
    requires UniqueIds(goals)
  {
    PreorderAll(Forest(goals), 0)
  }

  // The ids of the goal rows, in order.
  function GoalIds(rows: seq<Row>): (r: seq<string>)
    ensures forall id :: id in r <==> exists row :: row in rows && row.kind == GoalRow && row.id == id
  {
    if rows == [] then []
    else (if rows[0].kind == GoalRow then [rows[0].id] else []) + GoalIds(rows[1..])
  }

  lemma {:induction false} GoalIdsConcat(a: seq<Row>, b: seq<Row>)
    ensures GoalIds(a + b) == GoalIds(a) + GoalIds(b)
  {
    if a == [] {
      assert a + b == b;
    } else {
      assert (a + b)[0] == a[0] && (a + b)[1..] == a[1..] + b;
      GoalIdsConcat(a[1..], b);
    }
  }

  lemma {:induction false} KeyResultsAreNoGoals(goal: Goal, keyResults: seq<string>, depth: nat)
    ensures GoalIds(KeyResultRows(goal, keyResults, depth)) == []
  {
    if keyResults != [] {
      KeyResultsAreNoGoals(goal, keyResults[1..], depth);
      var first := Row(keyResults[0], KeyResultRow, depth + 1, goal.id);
      var rest := KeyResultRows(goal, keyResults[1..], depth);
      assert ([first] + rest)[0] == first && ([first] + rest)[1..] == rest;
    }
  }

  lemma GoalIdsOfRowsFor(goal: Goal, depth: nat)
    ensures GoalIds(RowsFor(goal, depth)) == [goal.id]
  {
    KeyResultsAreNoGoals(goal, goal.keyResults, depth);
    GoalIdsConcat([Row(goal.id, GoalRow, depth, goal.id)], KeyResultRows(goal, goal.keyResults, depth));
    assert [Row(goal.id, GoalRow, depth, goal.id)][1..] == [];
  }

  ghost predicate EachOnce(ids: seq<string>) { forall i, j | 0 <= i < j < |ids| :: ids[i] != ids[j] }

  lemma EachOnceConcat(a: seq<string>, b: seq<string>)
    requires EachOnce(a) && EachOnce(b) && forall id | id in a :: id !in b
    ensures EachOnce(a + b)
  {
    forall i, j | 0 <= i < j < |a + b| ensures (a + b)[i] != (a + b)[j] {
      if i < |a| <= j {
        assert (a + b)[i] in a && (a + b)[j] in b;
      }
    }
  }

  // No id twice anywhere in a tree.
  ghost predicate Apart(tree: Tree)
    decreases tree, 0
  {
    tree.goal.id !in IdsOfAll(tree.kids) && AllApart(tree.kids)
  }

  ghost predicate AllApart(trees: seq<Tree>)
    decreases trees, 1
  {
    trees != [] ==> Apart(trees[0]) && AllApart(trees[1..]) && IdsOf(trees[0]) !! IdsOfAll(trees[1..])
  }

  // Such a tree's rows name each of its ids once and no other.
  lemma {:induction false} TreeRowsExactly(tree: Tree, depth: nat)
    requires Apart(tree)
    ensures EachOnce(GoalIds(Preorder(tree, depth)))
    ensures forall id :: id in GoalIds(Preorder(tree, depth)) <==> id in IdsOf(tree)
    decreases tree, 0
  {
    TreesRowsExactly(tree.kids, depth + 1);
    var rest := PreorderAll(tree.kids, depth + 1);
    GoalIdsOfRowsFor(tree.goal, depth);
    GoalIdsConcat(RowsFor(tree.goal, depth), rest);
    EachOnceConcat([tree.goal.id], GoalIds(rest));
  }

  lemma {:induction false} TreesRowsExactly(trees: seq<Tree>, depth: nat)
    requires AllApart(trees)
    ensures EachOnce(GoalIds(PreorderAll(trees, depth)))
    ensures forall id :: id in GoalIds(PreorderAll(trees, depth)) <==> id in IdsOfAll(trees)
    decreases trees, 1
  {
    if trees != [] {
      TreeRowsExactly(trees[0], depth);
      TreesRowsExactly(trees[1..], depth);
      var first, rest := Preorder(trees[0], depth), PreorderAll(trees[1..], depth);
      GoalIdsConcat(first, rest);
      EachOnceConcat(GoalIds(first), GoalIds(rest));
    }
  }

  lemma {:induction false} TreeIsApart(goals: seq<Goal>, g: Goal, d: nat)
    requires UniqueIds(goals) && g in goals && Rooted(goals, g, d)
    ensures Apart(TreeOf(goals, g, d))
    decreases |goals| - d, 0
  {
    var list := ListOf(goals, g, d);
    TreesAreApart(goals, list, d + 1);
    ApartTree(goals, g, d, list);
  }

  lemma ListOf(goals: seq<Goal>, g: Goal, d: nat) returns (list: seq<Goal>)
    requires UniqueIds(goals) && g in goals && Rooted(goals, g, d)
    ensures list == Children(goals, goals, g.id) && AllRooted(goals, list, d + 1) && NoRepeats(list) && d < |goals|
  {
    RootedDepthBound(goals, g, d);
    ChildrenRooted(goals, g, d);
    ChildrenNoRepeats(goals, goals, g.id);
    list := Children(goals, goals, g.id);
  }

  lemma ApartTree(goals: seq<Goal>, g: Goal, d: nat, list: seq<Goal>)
    requires UniqueIds(goals) && g in goals && Rooted(goals, g, d) && list == Children(goals, goals, g.id)
    requires d < |goals| && AllRooted(goals, list, d + 1) && AllApart(TreesOf(goals, list, d + 1))
    ensures Apart(TreeOf(goals, g, d))
  {
    var _, kids := KidsOf(goals, g, d);
    NotAmongDeeper(goals, list, g, d, d + 1);
    ApartNode(g, kids);
  }

  lemma ApartNode(g: Goal, kids: seq<Tree>)
    requires g.id !in IdsOfAll(kids) && AllApart(kids)
    ensures Apart(Tree(g, kids))
  {
  }

  lemma {:induction false} TreesAreApart(goals: seq<Goal>, list: seq<Goal>, d: nat)
    requires UniqueIds(goals) && AllRooted(goals, list, d) && d <= |goals| && NoRepeats(list)
    ensures AllApart(TreesOf(goals, list, d))
    decreases |goals| - d, 1 + |list|
  {
    if list != [] {
      TreeIsApart(goals, list[0], d);
      TreesAreApart(goals, list[1..], d);
      FirstApartFromRest(goals, list[1..], d, list[0]);
      var trees := TreesOf(goals, list, d);
      assert trees[0] == TreeOf(goals, list[0], d) && trees[1..] == TreesOf(goals, list[1..], d);
    }
  }

  // With unique ids the goals drawn are exactly those whose parent chain ends
  // at a root, each once.
  lemma DrawnExactly(goals: seq<Goal>)
    requires UniqueIds(goals)
    ensures EachOnce(GoalIds(Rows(goals)))
    ensures forall g | g in goals :: g.id in GoalIds(Rows(goals)) <==> HasRoot(goals, g)
    ensures forall id | id in GoalIds(Rows(goals)) :: id in Ids(goals)
  {
    var roots := Roots(goals, goals);
    RootsRooted(goals);
    RootsNoRepeats(goals, goals);
    TreesAreApart(goals, roots, 0);
    TreesRowsExactly(Forest(goals), 0);
    forall id | id in GoalIds(Rows(goals)) ensures id in Ids(goals) && HasRoot(goals, Named(goals, id)) {
      var h, c, k := TreesClimb(goals, roots, 0, id);
      SameIdSameGoal(goals, h, Named(goals, id));
    }
    forall g | g in goals ensures g.id in GoalIds(Rows(goals)) <==> HasRoot(goals, g) {
      SameIdSameGoal(goals, Named(goals, g.id), g);
      if HasRoot(goals, g) {
        RootedIsDrawn(goals, g);
      }
    }
  }

  lemma RootedIsDrawn(goals: seq<Goal>, g: Goal)
    requires UniqueIds(goals) && g in goals && HasRoot(goals, g)
    ensures g.id in IdsOfAll(Forest(goals))
  {
    var d: nat :| Rooted(goals, g, d);
    ClimbRooted(goals, g, d, d);
    var r := Climb(goals, g, d).goal;
    RootsRooted(goals);
    ClimbersAreIn(goals, r, 0, g, d);
    ListedTreeIsIn(goals, Roots(goals, goals), 0, r);
  }

  // A goal is left out exactly when its parents run into a cycle.
  lemma LeftOutExactly(goals: seq<Goal>, g: Goal)
    requires UniqueIds(goals) && g in goals
    ensures g.id !in GoalIds(Rows(goals)) <==> ReachesCycle(goals, g)
  {
    DrawnExactly(goals);
    RootedUnlessCyclic(goals, g);
  }

  // Two goals that are each other's parent: both are in the list, and no row is.
  lemma TwoGoalsInACycle(a: Goal, b: Goal)
    requires a.id != b.id && a.parent == b.id != "" && b.parent == a.id != ""
    ensures UniqueIds([a, b]) && Rows([a, b]) == []
  {
    var goals := [a, b];
    assert a in goals && b in goals;
    assert !IsRoot(goals, a) && !IsRoot(goals, b);
    assert Roots(goals, goals) != [] ==> Roots(goals, goals)[0] in Roots(goals, goals);
  }

  function IdList(goals: seq<Goal>): (r: seq<string>)
    ensures |r| == |goals| && forall i | 0 <= i < |r| :: r[i] == goals[i].id
  {
    seq(|goals|, i requires 0 <= i < |goals| => goals[i].id)
  }

  lemma {:induction false} EachOnceCounts(ids: seq<string>, id: string)
    requires EachOnce(ids)
    ensures multiset(ids)[id] == if id in ids then 1 else 0
  {
    if ids != [] {
      assert ids == [ids[0]] + ids[1..];
      EachOnceCounts(ids[1..], id);
      if ids[0] == id {
        assert id !in ids[1..];
      }
    }
  }

  // Without cycles every goal is drawn: the drawn ids are a permutation of all.
  lemma AcyclicDrawsAll(goals: seq<Goal>)
    requires UniqueIds(goals) && forall g | g in goals :: !OnCycle(goals, g)
    ensures multiset(GoalIds(Rows(goals))) == multiset(IdList(goals))
  {
    DrawnExactly(goals);
    var drawn, ids := GoalIds(Rows(goals)), IdList(goals);
    forall id ensures id in drawn <==> id in ids {
      if id in ids {
        var i :| 0 <= i < |ids| && ids[i] == id;
        RootedUnlessCyclic(goals, goals[i]);
      }
      if id in drawn {
        var g :| g in goals && g.id == id;
        var i :| 0 <= i < |goals| && goals[i] == g;
        assert ids[i] == id;
      }
    }
    forall id ensures multiset(drawn)[id] == multiset(ids)[id] {
      EachOnceCounts(drawn, id);
      EachOnceCounts(ids, id);
    }
  }

  // ---- depth and order ----

  ghost predicate AtItsDepth(goals: seq<Goal>, row: Row) {
    exists g :: g in goals && g.id == row.goalId &&
      Rooted(goals, g, if row.kind == GoalRow || row.depth == 0 then row.depth else row.depth - 1)
      && (if row.kind == GoalRow then row.id == g.id else row.depth > 0 && row.id in g.keyResults)
  }

  ghost predicate AllAtDepth(goals: seq<Goal>, rows: seq<Row>) { forall row | row in rows :: AtItsDepth(goals, row) }

  lemma {:induction false} KeyResultsAtDepth(goals: seq<Goal>, g: Goal, keyResults: seq<string>, d: nat)
    requires g in goals && Rooted(goals, g, d) && forall k | k in keyResults :: k in g.keyResults
    ensures AllAtDepth(goals, KeyResultRows(g, keyResults, d))
  {
    if keyResults != [] {
      KeyResultsAtDepth(goals, g, keyResults[1..], d);
    }
  }

  lemma {:induction false} TreeAtDepth(goals: seq<Goal>, g: Goal, d: nat)
    requires UniqueIds(goals) && g in goals && Rooted(goals, g, d)
    ensures AllAtDepth(goals, Preorder(TreeOf(goals, g, d), d))
    decreases |goals| - d, 0
  {
    var list, kids := KidsOf(goals, g, d);
    RowsForAtDepth(goals, g, d);
    TreesAtDepth(goals, list, d + 1);
    NodeAtDepth(goals, g, kids, d);
  }

  lemma RowsForAtDepth(goals: seq<Goal>, g: Goal, d: nat)
    requires g in goals && Rooted(goals, g, d)
    ensures AllAtDepth(goals, RowsFor(g, d))
  {
    KeyResultsAtDepth(goals, g, g.keyResults, d);
  }

  lemma NodeAtDepth(goals: seq<Goal>, g: Goal, kids: seq<Tree>, d: nat)
    requires AllAtDepth(goals, RowsFor(g, d))
    requires AllAtDepth(goals, PreorderAll(kids, d + 1))
    ensures AllAtDepth(goals, Preorder(Tree(g, kids), d))
  {
    forall row | row in Preorder(Tree(g, kids), d) ensures AtItsDepth(goals, row) {
      assert row in RowsFor(g, d) || row in PreorderAll(kids, d + 1);
    }
  }

  lemma {:induction false} TreesAtDepth(goals: seq<Goal>, list: seq<Goal>, d: nat)
    requires UniqueIds(goals) && AllRooted(goals, list, d) && d <= |goals|
    ensures AllAtDepth(goals, PreorderAll(TreesOf(goals, list, d), d))
    decreases |goals| - d, 1 + |list|
  {
    if list != [] {
      TreeAtDepth(goals, list[0], d);
      TreesAtDepth(goals, list[1..], d);
    }
  }

  // Every goal row sits at the length of its goal's parent chain, every key
  // result row one deeper than its goal.
  lemma RowsAtTheirDepth(goals: seq<Goal>)
    requires UniqueIds(goals)
    ensures forall row | row in Rows(goals) :: AtItsDepth(goals, row)
  {
    RootsRooted(goals);
    TreesAtDepth(goals, Roots(goals, goals), 0);
  }

  lemma {:induction false} ListedTreeIsBlock(goals: seq<Goal>, list: seq<Goal>, d: nat, c: Goal)
    returns (before: seq<Row>, after: seq<Row>)
    requires UniqueIds(goals) && AllRooted(goals, list, d) && d <= |goals| && c in list
    ensures PreorderAll(TreesOf(goals, list, d), d) == before + Preorder(TreeOf(goals, c, d), d) + after
  {
    var head, rest := Preorder(TreeOf(goals, list[0], d), d), PreorderAll(TreesOf(goals, list[1..], d), d);
    if c == list[0] {
      before, after := [], rest;
      assert [] + head == head;
    } else {
      before, after := ListedTreeIsBlock(goals, list[1..], d, c);
      var block := Preorder(TreeOf(goals, c, d), d);
      Regroup(head, before + block, after);
      Regroup(head, before, block);
      before := head + before;
    }
  }

  // Every drawn goal's subtree is one unbroken block of rows, its own row and
  // key results first, then its children's blocks in input order.
  lemma SubtreeIsBlock(goals: seq<Goal>, g: Goal, d: nat) returns (before: seq<Row>, after: seq<Row>)
    requires UniqueIds(goals) && g in goals && Rooted(goals, g, d)
    ensures Rows(goals) == before + Preorder(TreeOf(goals, g, d), d) + after
    ensures AllRooted(goals, Children(goals, goals, g.id), d + 1) && d < |goals|
    ensures Preorder(TreeOf(goals, g, d), d)
         == RowsFor(g, d) + PreorderAll(TreesOf(goals, Children(goals, goals, g.id), d + 1), d + 1)
    ensures forall h | h in goals :: h.id in IdsOf(TreeOf(goals, g, d)) <==> Descends(goals, h, g)
  {
    var list, kids := KidsOf(goals, g, d);
    TreeHoldsDescendants(goals, g, d);
    before, after := BlockOf(goals, g, d);
  }

  lemma {:induction false} BlockOf(goals: seq<Goal>, g: Goal, d: nat) returns (before: seq<Row>, after: seq<Row>)
    requires UniqueIds(goals) && g in goals && Rooted(goals, g, d)
    ensures Rows(goals) == before + Preorder(TreeOf(goals, g, d), d) + after
    decreases d
  {
    RootsRooted(goals);
    if d == 0 {
      before, after := ListedTreeIsBlock(goals, Roots(goals, goals), 0, g);
    } else {
      var p := ParentOf(goals, g);
      var outerBefore, outerAfter := BlockOf(goals, p, d - 1);
      var list, kids := KidsOf(goals, p, d - 1);
      var innerBefore, innerAfter := ListedTreeIsBlock(goals, list, d, g);
      var block := Preorder(TreeOf(goals, g, d), d);
      assert PreorderAll(kids, d) == innerBefore + block + innerAfter;
      assert Preorder(Tree(p, kids), d - 1) == RowsFor(p, d - 1) + PreorderAll(kids, d);
      before, after := BlockInBlock(outerBefore, RowsFor(p, d - 1), innerBefore, block, innerAfter, outerAfter);
    }
  }

  lemma BlockInBlock(a: seq<Row>, b: seq<Row>, c: seq<Row>, block: seq<Row>, d: seq<Row>, e: seq<Row>)
    returns (before: seq<Row>, after: seq<Row>)
    ensures a + (b + (c + block + d)) + e == before + block + after
  {
    before, after := a + b + c, d + e;
  }

  // The goal itself, or a goal it is an ancestor of.
  ghost predicate Descends(goals: seq<Goal>, h: Goal, g: Goal) {
    exists k: nat :: Climb(goals, h, k) == At(g)
  }

  lemma TreeHoldsDescendants(goals: seq<Goal>, g: Goal, d: nat)
    requires UniqueIds(goals) && g in goals && Rooted(goals, g, d)
    ensures forall h | h in goals :: h.id in IdsOf(TreeOf(goals, g, d)) <==> Descends(goals, h, g)
  {
    forall h | h in goals
      ensures h.id in IdsOf(TreeOf(goals, g, d)) <==> Descends(goals, h, g)
    {
      if h.id in IdsOf(TreeOf(goals, g, d)) {
        var i, k := TreeClimbs(goals, g, d, h.id);
        SameIdSameGoal(goals, h, i);
      }
      if Descends(goals, h, g) {
        var k: nat :| Climb(goals, h, k) == At(g);
        ClimbersAreIn(goals, g, d, h, k);
      }
    }
  }
}
