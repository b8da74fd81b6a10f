// The flattening as it runs: two indexes filled from the list, then a walk that
// pushes rows and guards against coming back (apps/web/app/goal-nodes.ts).
module GoalTable {
  import opened Text
  import opened GoalForest
  import opened GoalRows

  function Siblings(index: map<string, seq<Goal>>, id: string): seq<Goal> {
    if id in index then index[id] else []
  }

  // The children index says of every goal exactly its children, in order.
  ghost predicate Indexed(goals: seq<Goal>, index: map<string, seq<Goal>>) {
    forall id :: Siblings(index, id) == Children(goals, goals, id)
  }

  lemma {:induction false} ChildrenSnoc(list: seq<Goal>, g: Goal, all: seq<Goal>, id: string)
    ensures Children(list + [g], all, id)
         == Children(list, all, id) + if !IsRoot(all, g) && g.parent == id then [g] else []
  {
    if list == [] {
      assert (list + [g])[1..] == [];
    } else {
      assert (list + [g])[0] == list[0] && (list + [g])[1..] == list[1..] + [g];
      ChildrenSnoc(list[1..], g, all, id);
    }
  }

  lemma {:induction false} RootsSnoc(list: seq<Goal>, g: Goal, all: seq<Goal>)
    ensures Roots(list + [g], all) == Roots(list, all) + if IsRoot(all, g) then [g] else []
  {
    if list == [] {
      assert (list + [g])[1..] == [];
    } else {
      assert (list + [g])[0] == list[0] && (list + [g])[1..] == list[1..] + [g];
      RootsSnoc(list[1..], g, all);
      Regroup(if IsRoot(all, list[0]) then [list[0]] else [], Roots(list[1..], all),
              if IsRoot(all, g) then [g] else []);
    }
  }

  function Filed(index: map<string, seq<Goal>>, goal: Goal): map<string, seq<Goal>> {
    index[goal.parent := Siblings(index, goal.parent) + [goal]]
  }

  lemma FiledNext(list: seq<Goal>, goal: Goal, all: seq<Goal>, index: map<string, seq<Goal>>)
    requires forall id :: Siblings(index, id) == Children(list, all, id)
    ensures forall id ::
              Siblings(if IsRoot(all, goal) then index else Filed(index, goal), id) == Children(list + [goal], all, id)
  {
    forall id
      ensures Siblings(if IsRoot(all, goal) then index else Filed(index, goal), id) == Children(list + [goal], all, id)
    {
      ChildrenSnoc(list, goal, all, id);
    }
  }

  class Flattening {
    const goals: seq<Goal>
    var childrenOf: map<string, seq<Goal>>
    var roots: seq<Goal>
    var out: seq<Row>
    var seen: set<string>

    constructor (goals: seq<Goal>)
      ensures this.goals == goals && childrenOf == map[] && roots == [] && out == [] && seen == {}
    {
      this.goals := goals;
      childrenOf, roots, out, seen := map[], [], [], {};
    }

    // One goal put under its parent, or among the roots.
    method FileOne(goal: Goal, present: set<string>)
      requires present == Ids(goals)
      modifies this`childrenOf, this`roots
      ensures childrenOf == if IsRoot(goals, goal) then old(childrenOf) else Filed(old(childrenOf), goal)
      ensures roots == old(roots) + if IsRoot(goals, goal) then [goal] else []
    {
      if goal.parent != "" && goal.parent in present {
        if goal.parent in childrenOf {
          childrenOf := childrenOf[goal.parent := childrenOf[goal.parent] + [goal]];
        } else {
          assert [] + [goal] == [goal];
          childrenOf := childrenOf[goal.parent := [goal]];
        }
      } else {
        roots := roots + [goal];
      }
    }

    // Every goal filed under its parent, or among the roots.
    method File()
      requires childrenOf == map[] && roots == []
      modifies this`childrenOf, this`roots
      ensures Indexed(goals, childrenOf) && roots == Roots(goals, goals)
    {
      var present := Ids(goals);
      var i := 0;
      while i < |goals|
        invariant 0 <= i <= |goals|
        invariant forall id :: Siblings(childrenOf, id) == Children(goals[..i], goals, id)
        invariant roots == Roots(goals[..i], goals)
      {
        assert goals[..i + 1] == goals[..i] + [goals[i]];
        RootsSnoc(goals[..i], goals[i], goals);
        FiledNext(goals[..i], goals[i], goals, childrenOf);
        FileOne(goals[i], present);
        i := i + 1;
      }
      assert goals[..i] == goals;
    }

    // Whatever the list, no goal has been drawn twice and `seen` is what was drawn.
    ghost predicate Once()
      reads this
    {
      && seen <= Ids(goals)
      && EachOnce(GoalIds(out)) && forall id :: id in GoalIds(out) <==> id in seen
    }

    // One goal and everything under it. With unique ids and nothing of its tree
    // drawn yet, the rows added are its tree's, and the guard never fires.
    method Walk(goal: Goal, depth: nat, ghost unique: bool, ghost tree: Tree)
      requires Indexed(goals, childrenOf) && Once() && goal in goals
      requires unique ==> IsTreeOf(goals, goal, depth, tree) && seen !! IdsOf(tree)
      modifies this`out, this`seen
      ensures Once() && old(seen) <= seen
      ensures unique ==> out == old(out) + Preorder(tree, depth) && seen == old(seen) + IdsOf(tree)
      decreases Ids(goals) - seen, 1
    {
      if goal.id in seen {
        return;
      }
      GoalThenMore(out, goal, depth);
      seen := seen + {goal.id};
      out := out + RowsFor(goal, depth);
      var list := Siblings(childrenOf, goal.id);
      if unique {
        UnderGoal(goals, goal, list, depth, tree);
      }
      WalkAll(list, depth + 1, unique, tree.kids);
      if unique {
        Regroup(old(out), RowsFor(goal, depth), PreorderAll(tree.kids, depth + 1));
      }
    }

    // Goals of one level, one after another.
    // One turn of the loop over a level.
    method WalkNext(list: seq<Goal>, i: nat, depth: nat, ghost unique: bool, ghost rest: seq<Tree>,
                    ghost rows: seq<Row>, ghost ids: set<string>)
      requires Indexed(goals, childrenOf) && Once() && i < |list| && list[i] in goals
      requires unique ==> Level(goals, list[i..], depth, rest, out, seen, rows, ids)
      modifies this`out, this`seen
      ensures Once() && old(seen) <= seen
      ensures unique ==> rest != [] && Level(goals, list[i + 1..], depth, rest[1..], out, seen, rows, ids)
      decreases Ids(goals) - seen, 2
    {
      if unique {
        NextOfLevel(goals, list, i, depth, rest);
        Regroup(out, Preorder(rest[0], depth), PreorderAll(rest[1..], depth));
      }
      Walk(list[i], depth, unique, if unique then rest[0] else Tree(list[i], []));
    }

    method WalkAll(list: seq<Goal>, depth: nat, ghost unique: bool, ghost trees: seq<Tree>)
      requires Indexed(goals, childrenOf) && Once() && forall g | g in list :: g in goals
      requires unique ==> AreTreesOf(goals, list, depth, trees) && seen !! IdsOfAll(trees)
      modifies this`out, this`seen
      ensures Once() && old(seen) <= seen
      ensures unique ==> out == old(out) + PreorderAll(trees, depth) && seen == old(seen) + IdsOfAll(trees)
      decreases Ids(goals) - seen, 3
    {
      ghost var rest, rows, ids := trees, out + PreorderAll(trees, depth), seen + IdsOfAll(trees);
      var i := 0;
      assert list[0..] == list;
      while i < |list|
        invariant 0 <= i <= |list|
        invariant Once() && old(seen) <= seen
        invariant unique ==> Level(goals, list[i..], depth, rest, out, seen, rows, ids)
      {
        WalkNext(list, i, depth, unique, rest, rows, ids);
        rest := if unique then rest[1..] else [];
        i := i + 1;
      }
      if unique {
        LevelDone(goals, list[i..], depth, rest, out, seen, rows, ids);
      }
    }

    // The whole table.
    method Flatten() returns (rows: seq<Row>)
      requires childrenOf == map[] && roots == [] && out == [] && seen == {}
      modifies this
      ensures EachOnce(GoalIds(rows)) && forall id | id in GoalIds(rows) :: id in Ids(goals)
      ensures UniqueIds(goals) ==> rows == Rows(goals)
    {
      File();
      ghost var unique := UniqueIds(goals);
      ghost var forest := if unique then Forest(goals) else [];
      RootsRooted(goals);
      if unique {
        RootsNoRepeats(goals, goals);
      }
      WalkAll(roots, 0, unique, forest);
      rows := out;
      assert [] + PreorderAll(forest, 0) == PreorderAll(forest, 0);
    }
  }

  ghost predicate IsTreeOf(goals: seq<Goal>, goal: Goal, depth: nat, tree: Tree) {
    UniqueIds(goals) && goal in goals && Rooted(goals, goal, depth) && tree == TreeOf(goals, goal, depth)
  }

  // What is left of a level brings the rows and the ids to their end.
  ghost predicate Level(goals: seq<Goal>, list: seq<Goal>, depth: nat, rest: seq<Tree>, out: seq<Row>,
                        seen: set<string>, rows: seq<Row>, ids: set<string>) {
    && AreTreesOf(goals, list, depth, rest) && seen !! IdsOfAll(rest)
    && out + PreorderAll(rest, depth) == rows && seen + IdsOfAll(rest) == ids
  }

  lemma LevelDone(goals: seq<Goal>, list: seq<Goal>, depth: nat, rest: seq<Tree>, out: seq<Row>, seen: set<string>,
                  rows: seq<Row>, ids: set<string>)
    requires list == [] && Level(goals, list, depth, rest, out, seen, rows, ids)
    ensures out == rows && seen == ids
  {
  }

  ghost predicate AreTreesOf(goals: seq<Goal>, list: seq<Goal>, depth: nat, trees: seq<Tree>) {
    && UniqueIds(goals) && depth <= |goals| && AllRooted(goals, list, depth) && NoRepeats(list)
    && trees == TreesOf(goals, list, depth)
  }

  lemma NextOfLevel(goals: seq<Goal>, list: seq<Goal>, i: nat, depth: nat, trees: seq<Tree>)
    requires i < |list| && AreTreesOf(goals, list[i..], depth, trees)
    ensures trees != [] && IsTreeOf(goals, list[i], depth, trees[0])
    ensures AreTreesOf(goals, list[i + 1..], depth, trees[1..])
    ensures IdsOf(trees[0]) !! IdsOfAll(trees[1..])
  {
    var rest := list[i..];
    assert rest[0] == list[i] && rest[1..] == list[i + 1..] && list[i] in rest;
    NoRepeatsTail(rest);
    FirstApartFromRest(goals, list[i + 1..], depth, list[i]);
  }

  lemma NoRepeatsTail(list: seq<Goal>)
    requires list != [] && NoRepeats(list)
    ensures NoRepeats(list[1..]) && list[0] !in list[1..]
  {
  }

  lemma UnderGoal(goals: seq<Goal>, goal: Goal, list: seq<Goal>, depth: nat, tree: Tree)
    requires IsTreeOf(goals, goal, depth, tree) && list == Children(goals, goals, goal.id)
    ensures tree.goal == goal && AreTreesOf(goals, list, depth + 1, tree.kids)
    ensures goal.id !in IdsOfAll(tree.kids)
  {
    var list, kids := KidsOf(goals, goal, depth);
    ChildrenNoRepeats(goals, goals, goal.id);
    NotAmongDeeper(goals, list, goal, depth, depth + 1);
  }

  lemma GoalThenMore(out: seq<Row>, goal: Goal, depth: nat)
    requires EachOnce(GoalIds(out)) && goal.id !in GoalIds(out)
    ensures EachOnce(GoalIds(out + RowsFor(goal, depth)))
    ensures forall id :: id in GoalIds(out + RowsFor(goal, depth)) <==> id == goal.id || id in GoalIds(out)
  {
    GoalIdsOfRowsFor(goal, depth);
    GoalIdsConcat(out, RowsFor(goal, depth));
    EachOnceConcat(GoalIds(out), [goal.id]);
  }
}
