// A list of children in its tree: its runs are found, and what belongs to no
// run is still there when the runs have been replaced
// (scripts/recombine-messages.ts, visit and the splice loop).
module ChildLists {
  import opened Text
  import opened JsxTree
  import opened RunScanner
  import opened Runs
  import opened Splice

  // ---- where a list sits ----

  // The children of some element in the tree.
  ghost predicate HasList(node: Node, children: seq<Node>)
    decreases node
  {
    (node.Element? && node.children == children) || exists n | n in Under(node) :: HasList(n, children)
  }

  lemma {:induction false} ListIsWellFormed(node: Node, children: seq<Node>)
    requires WellFormed(node) && HasList(node, children)
    ensures forall n | n in children :: WellFormed(n)
    decreases node
  {
    if node.Element? && node.children == children {
      assert forall n | n in children :: n in Under(node);
    } else {
      var n :| n in Under(node) && HasList(n, children);
      ListIsWellFormed(n, children);
    }
  }

  lemma {:induction false} ListRunsAreFound(node: Node, children: seq<Node>)
    requires HasList(node, children)
    ensures forall run | run in OwnRuns(children) :: run in RunsOf(node)
    decreases node
  {
    if !(node.Element? && node.children == children) {
      var n :| n in Under(node) && HasList(n, children);
      ListRunsAreFound(n, children);
      match node
      case JsxText(_, _, _, _) =>
      case Braces(_, _, inner, _, _) => RunsOfOne(inner, n);
      case Other(_, inner, _, _) => RunsOfOne(inner, n);
      case Element(attributes, inner, _, _) =>
        if n in attributes {
          RunsOfOne(attributes, n);
        } else {
          RunsOfOne(inner, n);
        }
    }
  }

  lemma {:induction false} RunsOfOne(nodes: seq<Node>, n: Node)
    requires n in nodes
    ensures forall run | run in RunsOf(n) :: run in RunsIn(nodes)
  {
    if n != nodes[0] {
      RunsOfOne(nodes[1..], n);
    }
  }

  // ---- what belongs to no run ----

  // The child in place k belongs to no run.
  predicate Outside(ranges: seq<Range>, k: nat) { forall r | r in ranges :: k < r.lo || r.hi <= k }

  lemma {:induction false} ListIsMarkup(node: Node, children: seq<Node>)
    requires HasList(node, children)
    ensures HasMarkup(node)
    decreases node
  {
    if !node.Element? {
      var n :| n in Under(node) && HasList(n, children);
      ListIsMarkup(n, children);
    }
  }

  // A span beside every run.
  ghost predicate Beside(one: Run, runs: seq<Run>) { forall run | run in runs :: Apart(one, run) }

  lemma {:induction false} RunsInAt(nodes: seq<Node>, run: Run) returns (k: nat)
    requires run in RunsIn(nodes)
    ensures k < |nodes| && run in RunsOf(nodes[k])
  {
    if run in RunsOf(nodes[0]) {
      k := 0;
    } else {
      k := RunsInAt(nodes[1..], run);
      k := k + 1;
    }
  }

  // A span in one of the nodes and beside its runs is beside those of all.
  lemma BesideInNodes(nodes: seq<Node>, lo: nat, hi: nat, i: nat, one: Run)
    requires Ordered(nodes, lo, hi) && forall n | n in nodes :: WellFormed(n)
    requires i < |nodes| && HasMarkup(nodes[i]) && Inside(one, nodes[i].lo, nodes[i].hi)
        && Beside(one, RunsOf(nodes[i]))
    ensures Beside(one, RunsIn(nodes)) && HeldBy(one, nodes) && Inside(one, lo, hi)
  {
    forall run | run in RunsIn(nodes) ensures Apart(one, run) {
      var j := RunsInAt(nodes, run);
      RunsApart(nodes[j]);
      if i < j {
        assert nodes[i].hi <= nodes[j].lo;
      } else if j < i {
        assert nodes[j].hi <= nodes[i].lo;
      }
    }
  }

  lemma OrderedParts(attributes: seq<Node>, children: seq<Node>, lo: nat, hi: nat)
    requires Ordered(attributes + children, lo, hi)
    ensures Ordered(attributes, lo, hi) && Ordered(children, lo, hi)
  {
    var all := attributes + children;
    assert forall i | 0 <= i < |attributes| :: attributes[i] == all[i];
    assert forall i | 0 <= i < |children| :: children[i] == all[|attributes| + i];
  }

  // A child of the element itself.
  lemma BesideOwn(attributes: seq<Node>, children: seq<Node>, lo: nat, hi: nat, k: nat, one: Run)
    requires Ordered(attributes + children, lo, hi) && forall n | n in attributes + children :: WellFormed(n)
    requires k < |children| && one == [children[k]] && !HasMarkup(children[k]) && children[k].lo < children[k].hi
    requires Outside(Ranges(Kinds(children)), k)
    ensures Beside(one, OwnRuns(children)) && Beside(one, RunsIn(attributes)) && Beside(one, RunsIn(children))
  {
    OrderedParts(attributes, children, lo, hi);
    forall run | run in OwnRuns(children) ensures Apart(one, run) {
      BesideOwnRun(children, lo, hi, k, run);
    }
    assert forall n | n in children || n in attributes :: n in attributes + children;
    BesideInside(attributes, children, lo, hi, k, one);
  }

  lemma BesideInside(attributes: seq<Node>, children: seq<Node>, lo: nat, hi: nat, k: nat, one: Run)
    requires Ordered(attributes + children, lo, hi) && Ordered(attributes, lo, hi) && Ordered(children, lo, hi)
    requires forall n | n in children || n in attributes :: WellFormed(n)
    requires k < |children| && one == [children[k]] && !HasMarkup(children[k])
    ensures Beside(one, RunsIn(attributes)) && Beside(one, RunsIn(children))
  {
    var here := Range(k, k + 1);
    assert children[k..k + 1] == one;
    RunsInApart(attributes, lo, hi);
    RunsInApart(children, lo, hi);
    forall run | run in RunsIn(attributes) ensures Apart(one, run) {
      SliceBehindAttributes(attributes, children, lo, hi, here, run);
    }
    forall run | run in RunsIn(children) ensures Apart(one, run) {
      var j :| 0 <= j < |children| && HasMarkup(children[j]) && Inside(run, children[j].lo, children[j].hi);
      SliceBesideChild(children, lo, hi, here, j, run);
    }
  }

  lemma BesideOwnRun(children: seq<Node>, lo: nat, hi: nat, k: nat, run: Run)
    requires Ordered(children, lo, hi) && k < |children| && run in OwnRuns(children)
    requires Outside(Ranges(Kinds(children)), k)
    ensures Apart([children[k]], run)
  {
    var ranges := Ranges(Kinds(children));
    assert forall r | r in ranges :: r.lo < r.hi <= |children|;
    var i := SliceAt(children, ranges, run);
    assert ranges[i] in ranges;
    BesideSlice(children, lo, hi, k, ranges[i]);
  }

  lemma SliceAt(children: seq<Node>, ranges: seq<Range>, run: Run) returns (i: nat)
    requires forall r | r in ranges :: r.lo < r.hi <= |children|
    requires run in Slices(children, ranges)
    ensures i < |ranges| && ranges[i].lo < ranges[i].hi <= |children| && run == children[ranges[i].lo..ranges[i].hi]
  {
    i :| i < |Slices(children, ranges)| && Slices(children, ranges)[i] == run;
    assert ranges[i] in ranges;
  }

  lemma BesideSlice(children: seq<Node>, lo: nat, hi: nat, k: nat, r: Range)
    requires Ordered(children, lo, hi) && k < |children| && r.lo < r.hi <= |children| && (k < r.lo || r.hi <= k)
    ensures Apart([children[k]], children[r.lo..r.hi])
  {
    assert children[k..k + 1] == [children[k]];
    if k < r.lo {
      SlicesApart(children, lo, hi, Range(k, k + 1), r);
    } else {
      SlicesApart(children, lo, hi, r, Range(k, k + 1));
    }
  }

  // The span of a child that belongs to no run lies beside every run there is.
  lemma {:induction false} ChildIsSpared(node: Node, children: seq<Node>, k: nat)
    requires WellFormed(node) && HasList(node, children) && k < |children|
    requires !HasMarkup(children[k]) && children[k].lo < children[k].hi && Outside(Ranges(Kinds(children)), k)
    ensures Inside([children[k]], node.lo, node.hi) && Beside([children[k]], RunsOf(node))
    decreases node
  {
    var one := [children[k]];
    if node.Element? && node.children == children {
      assert Under(node) == node.attributes + children;
      BesideOwn(node.attributes, children, node.lo, node.hi, k, one);
      assert Under(node)[|node.attributes| + k] == children[k];
    } else {
      var n :| n in Under(node) && HasList(n, children);
      ListIsMarkup(n, children);
      ChildIsSpared(n, children, k);
      match node
      case Braces(_, _, inner, lo, hi) => BesideIn(inner, lo, hi, n, one);
      case Other(_, inner, lo, hi) => BesideIn(inner, lo, hi, n, one);
      case Element(attributes, inner, lo, hi) => BesideDeeper(attributes, inner, lo, hi, n, one);
    }
  }

  lemma BesideIn(nodes: seq<Node>, lo: nat, hi: nat, n: Node, one: Run)
    requires Ordered(nodes, lo, hi) && forall x | x in nodes :: WellFormed(x)
    requires n in nodes && HasMarkup(n) && Inside(one, n.lo, n.hi) && Beside(one, RunsOf(n))
    ensures Beside(one, RunsIn(nodes)) && HeldBy(one, nodes) && Inside(one, lo, hi)
  {
    var i :| 0 <= i < |nodes| && nodes[i] == n;
    BesideInNodes(nodes, lo, hi, i, one);
  }

  // A span somewhere under an element, and not among its own children.
  lemma BesideDeeper(attributes: seq<Node>, children: seq<Node>, lo: nat, hi: nat, n: Node, one: Run)
    requires Ordered(attributes + children, lo, hi) && forall x | x in attributes + children :: WellFormed(x)
    requires n in attributes + children && HasMarkup(n) && Inside(one, n.lo, n.hi) && Beside(one, RunsOf(n))
    ensures Inside(one, lo, hi) && Beside(one, OwnRuns(children) + (RunsIn(attributes) + RunsIn(children)))
  {
    var all := attributes + children;
    assert forall x | x in attributes || x in children :: x in all;
    OrderedParts(attributes, children, lo, hi);
    BesideIn(all, lo, hi, n, one);
    RunsInBoth(attributes, children);
    HeldInEither(attributes, children, one);
    forall own | own in OwnRuns(children) ensures Apart(one, own) {
      OwnRunsClear(attributes, children, lo, hi, own, one);
    }
  }

  lemma HeldInEither(attributes: seq<Node>, children: seq<Node>, one: Run)
    requires HeldBy(one, attributes + children)
    ensures HeldBy(one, attributes) || HeldBy(one, children)
  {
    var all := attributes + children;
    var k :| 0 <= k < |all| && HasMarkup(all[k]) && Inside(one, all[k].lo, all[k].hi);
    if k < |attributes| {
      assert attributes[k] == all[k];
    } else {
      assert children[k - |attributes|] == all[k];
    }
  }

  lemma {:induction false} RunsInBoth(left: seq<Node>, right: seq<Node>)
    ensures forall run | run in RunsIn(left) || run in RunsIn(right) :: run in RunsIn(left + right)
  {
    var all := left + right;
    if left == [] {
      assert all == right;
    } else {
      assert all[0] == left[0] && all[1..] == left[1..] + right;
      RunsInBoth(left[1..], right);
    }
  }

  // ---- after the splice ----

  // What lies beside every edit is in the new text as it was.
  lemma {:induction false} SparedSurvives(source: string, edits: seq<Edit>, from: nat, lo: nat, hi: nat, word: string)
    requires from <= lo < hi <= |source| && Fitting(edits, |source|)
    requires forall e | e in edits :: e.hi <= lo || hi <= e.lo
    requires Contains(source[lo..hi], word)
    ensures Contains(Replaced(source, edits, from), word)
    decreases lo - from
  {
    if from == lo {
      CopiedUntil(source, edits, lo, hi);
      Surrounded("", source[lo..hi], Replaced(source, edits, hi), word);
    } else {
      var k := EditAt(edits, from);
      if k < |edits| {
        assert edits[k] in edits;
        SparedSurvives(source, edits, edits[k].hi, lo, hi, word);
        Surrounded(edits[k].text, Replaced(source, edits, edits[k].hi), "", word);
      } else {
        SparedSurvives(source, edits, from + 1, lo, hi, word);
        Surrounded([source[from]], Replaced(source, edits, from + 1), "", word);
      }
    }
  }

  lemma Surrounded(before: string, s: string, after: string, word: string)
    requires Contains(s, word)
    ensures Contains(before + s + after, word) && (after == "" ==> Contains(before + s, word))
    ensures before == "" ==> Contains(s + after, word)
  {
    ContainsWithin(before, s, after, word);
    assert after == "" ==> before + s + after == before + s;
    assert before == "" ==> before + s + after == s + after;
  }
}
