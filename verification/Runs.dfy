// Every run of a whole file, outer elements before the ones inside them, and
// why their spans never overlap (scripts/recombine-messages.ts, visit).
module Runs {
  import opened Text
  import opened Messages
  import opened JsxTree
  import opened RunScanner

  type Run = seq<Node>

  function PartsOf(run: Run): (r: seq<Part>)
    ensures |r| == |run|
    ensures forall i | 0 <= i < |run| :: r[i] == PartOf(run[i])
  {
    seq(|run|, i requires 0 <= i < |run| => PartOf(run[i]))
  }

  function Slices(children: seq<Node>, ranges: seq<Range>): (r: seq<Run>)
    requires forall range | range in ranges :: range.lo < range.hi <= |children|
    ensures |r| == |ranges|
    ensures forall i | 0 <= i < |r| :: r[i] == children[ranges[i].lo..ranges[i].hi]
  {
    if ranges == [] then []
    else [children[ranges[0].lo..ranges[0].hi]] + Slices(children, ranges[1..])
  }

  // The runs of one element's own children.
  function OwnRuns(children: seq<Node>): seq<Run> {
    Slices(children, Ranges(Kinds(children)))
  }

  // The runs of a node, in the order the walk meets them.
  function RunsOf(node: Node): seq<Run>
    decreases node
  {
    match node
    case JsxText(_, _, _, _) => []
    case Braces(_, _, inner, _, _) => RunsIn(inner)
    case Element(attributes, children, _, _) => OwnRuns(children) + (RunsIn(attributes) + RunsIn(children))
    case Other(_, inner, _, _) => RunsIn(inner)
  }

  function RunsIn(nodes: seq<Node>): seq<Run>
    decreases nodes
  {
    if nodes == [] then [] else RunsOf(nodes[0]) + RunsIn(nodes[1..])
  }

  // ---- spans ----

  function Start(run: Run): nat requires run != [] { run[0].lo }

  function End(run: Run): nat requires run != [] { run[|run| - 1].hi }

  predicate Inside(run: Run, lo: nat, hi: nat) {
    run != [] && lo <= Start(run) < End(run) <= hi
  }

  predicate Apart(a: Run, b: Run) {
    a != [] && b != [] && (End(a) <= Start(b) || End(b) <= Start(a))
  }

  ghost predicate AllApart(runs: seq<Run>) {
    && (forall run | run in runs :: run != [])
    && (forall i, j | 0 <= i < j < |runs| :: Apart(runs[i], runs[j]))
  }

  lemma AllApartConcat(left: seq<Run>, right: seq<Run>)
    requires AllApart(left) && AllApart(right)
    requires forall a, b | a in left && b in right :: Apart(a, b)
    ensures AllApart(left + right)
  {
    var runs := left + right;
    forall i, j | 0 <= i < j < |runs| ensures Apart(runs[i], runs[j]) {
      if i < |left| <= j {
        assert runs[i] in left && runs[j] in right;
      }
    }
  }

  // ---- no markup, no runs ----

  lemma {:induction false} NoMarkupNoRuns(node: Node)
    requires !HasMarkup(node)
    ensures RunsOf(node) == []
    decreases node
  {
    match node
    case JsxText(_, _, _, _) =>
    case Braces(_, _, inner, _, _) => NoneMarkupNoRuns(inner);
    case Element(_, _, _, _) =>
    case Other(_, inner, _, _) => NoneMarkupNoRuns(inner);
  }

  lemma {:induction false} NoneMarkupNoRuns(nodes: seq<Node>)
    requires forall n | n in nodes :: !HasMarkup(n)
    ensures RunsIn(nodes) == []
    decreases nodes
  {
    if nodes != [] {
      NoMarkupNoRuns(nodes[0]);
      NoneMarkupNoRuns(nodes[1..]);
    }
  }

  // What a run is made of holds no markup, so nothing inside it is rewritten too.
  lemma TakenHasNoMarkup(child: Node)
    requires WellFormed(child) && !KindOf(child).BarrierKind?
    ensures !HasMarkup(child)
  {
  }

  lemma MessageIsWide(child: Node)
    requires WellFormed(child) && KindOf(child).MessageKind?
    ensures child.lo < child.hi
  {
  }

  // ---- one element's own runs ----

  lemma OwnRunsInside(children: seq<Node>, lo: nat, hi: nat)
    requires Ordered(children, lo, hi)
    requires forall n | n in children :: WellFormed(n)
    ensures forall run | run in OwnRuns(children) :: Inside(run, lo, hi)
    ensures AllApart(OwnRuns(children))
  {
    var kinds := Kinds(children);
    var ranges := Ranges(kinds);
    var runs := OwnRuns(children);
    CandidatesInOrder(kinds, 0);
    OnlyMixedInOrder(kinds, CandidatesFrom(kinds, 0));
    forall i | 0 <= i < |runs| ensures Inside(runs[i], lo, hi) {
      assert ranges[i] in ranges;
      OwnRunIsWide(children, lo, hi, ranges[i]);
    }
    forall i, j | 0 <= i < j < |runs| ensures Apart(runs[i], runs[j]) {
      SlicesApart(children, lo, hi, ranges[i], ranges[j]);
    }
  }

  lemma SlicesApart(children: seq<Node>, lo: nat, hi: nat, a: Range, b: Range)
    requires Ordered(children, lo, hi)
    requires a.lo < a.hi <= b.lo < b.hi <= |children|
    ensures Apart(children[a.lo..a.hi], children[b.lo..b.hi])
  {
    var left, right := children[a.lo..a.hi], children[b.lo..b.hi];
    assert left[|left| - 1] == children[a.hi - 1] && right[0] == children[b.lo];
  }

  lemma OwnRunIsWide(children: seq<Node>, lo: nat, hi: nat, range: Range)
    requires Ordered(children, lo, hi)
    requires forall n | n in children :: WellFormed(n)
    requires Mixed(Kinds(children), range) && range.lo < range.hi
    ensures Inside(children[range.lo..range.hi], lo, hi)
  {
    var kinds := Kinds(children);
    var k := MessageIn(kinds, range);
    assert kinds[k] == KindOf(children[k]);
    MessageIsWide(children[k]);
    SliceIsWide(children, lo, hi, range, k);
  }

  lemma SliceIsWide(children: seq<Node>, lo: nat, hi: nat, range: Range, k: nat)
    requires Ordered(children, lo, hi)
    requires range.lo <= k < range.hi <= |children| && children[k].lo < children[k].hi
    ensures Inside(children[range.lo..range.hi], lo, hi)
  {
    var run := children[range.lo..range.hi];
    assert run[0] == children[range.lo] && run[|run| - 1] == children[range.hi - 1];
    assert range.lo < k ==> children[range.lo].hi <= children[k].lo;
    assert k < range.hi - 1 ==> children[k].hi <= children[range.hi - 1].lo;
  }

  lemma MessageIn(kinds: seq<Kind>, range: Range) returns (k: nat)
    requires Mixed(kinds, range)
    ensures range.lo <= k < range.hi && kinds[k].MessageKind?
  {
    var slice := kinds[range.lo..range.hi];
    var i :| 0 <= i < |slice| && slice[i] == MessageKind;
    k := range.lo + i;
  }

  // ---- a whole tree ----

  // The span of a run found under some node that holds markup.
  ghost predicate HeldBy(run: Run, nodes: seq<Node>) {
    exists k :: 0 <= k < |nodes| && HasMarkup(nodes[k]) && Inside(run, nodes[k].lo, nodes[k].hi)
  }

  lemma {:induction false} RunsInApart(nodes: seq<Node>, lo: nat, hi: nat)
    requires Ordered(nodes, lo, hi)
    requires forall n | n in nodes :: WellFormed(n)
    ensures AllApart(RunsIn(nodes))
    ensures forall run | run in RunsIn(nodes) :: HeldBy(run, nodes) && Inside(run, lo, hi)
    decreases nodes
  {
    if nodes != [] {
      var rest := nodes[1..];
      assert Ordered(rest, nodes[0].hi, hi) by {
        forall i | 0 <= i < |rest| ensures nodes[0].hi <= rest[i].lo <= rest[i].hi <= hi {
          assert rest[i] == nodes[i + 1];
        }
      }
      RunsApart(nodes[0]);
      RunsInApart(rest, nodes[0].hi, hi);
      forall run | run in RunsOf(nodes[0]) ensures HeldBy(run, nodes) {
        if !HasMarkup(nodes[0]) {
          NoMarkupNoRuns(nodes[0]);
        }
      }
      forall run | run in RunsIn(rest) ensures HeldBy(run, nodes) {
        var k :| 0 <= k < |rest| && HasMarkup(rest[k]) && Inside(run, rest[k].lo, rest[k].hi);
        assert nodes[k + 1] == rest[k];
      }
      AllApartConcat(RunsOf(nodes[0]), RunsIn(rest));
    }
  }

  // An element's own runs stay clear of everything found deeper.
  lemma OwnRunsClear(attributes: seq<Node>, children: seq<Node>, lo: nat, hi: nat, own: Run, deeper: Run)
    requires Ordered(attributes + children, lo, hi) && Ordered(children, lo, hi)
    requires forall n | n in children :: WellFormed(n)
    requires own in OwnRuns(children)
    requires HeldBy(deeper, attributes) || HeldBy(deeper, children)
    ensures own != [] && deeper != [] && Apart(own, deeper)
  {
    var range := OwnRange(children, own);
    OwnRunIsWide(children, lo, hi, range);
    if HeldBy(deeper, attributes) {
      SliceBehindAttributes(attributes, children, lo, hi, range, deeper);
    } else {
      var k :| 0 <= k < |children| && HasMarkup(children[k]) && Inside(deeper, children[k].lo, children[k].hi);
      if range.lo <= k < range.hi {
        TakenHasNoMarkup(children[k]);
        assert false;
      }
      SliceBesideChild(children, lo, hi, range, k, deeper);
    }
  }

  lemma SliceBehindAttributes(attributes: seq<Node>, children: seq<Node>, lo: nat, hi: nat, range: Range, deeper: Run)
    requires Ordered(attributes + children, lo, hi)
    requires range.lo < range.hi <= |children| && HeldBy(deeper, attributes)
    ensures Apart(children[range.lo..range.hi], deeper)
  {
    var k :| 0 <= k < |attributes| && HasMarkup(attributes[k]) && Inside(deeper, attributes[k].lo, attributes[k].hi);
    var all := attributes + children;
    assert all[k] == attributes[k] && all[|attributes| + range.lo] == children[range.lo];
    assert all[k].hi <= all[|attributes| + range.lo].lo;
  }

  lemma SliceBesideChild(children: seq<Node>, lo: nat, hi: nat, range: Range, k: nat, deeper: Run)
    requires Ordered(children, lo, hi)
    requires range.lo < range.hi <= |children| && k < |children| && !(range.lo <= k < range.hi)
    requires Inside(deeper, children[k].lo, children[k].hi)
    ensures Apart(children[range.lo..range.hi], deeper)
  {
    var run := children[range.lo..range.hi];
    assert run[0] == children[range.lo] && run[|run| - 1] == children[range.hi - 1];
  }

  // The range an own run was cut from, and that it holds no barrier.
  lemma OwnRange(children: seq<Node>, own: Run) returns (range: Range)
    requires own in OwnRuns(children)
    ensures range.lo < range.hi <= |children| && own == children[range.lo..range.hi]
    ensures Mixed(Kinds(children), range)
    ensures forall k | range.lo <= k < range.hi :: !KindOf(children[k]).BarrierKind?
  {
    var kinds := Kinds(children);
    var i :| 0 <= i < |OwnRuns(children)| && OwnRuns(children)[i] == own;
    range := Ranges(kinds)[i];
    assert range in Ranges(kinds);
    RangesAreExact(kinds, range);
    var from: nat, to: nat :| IsSegment(kinds, from, to) && Fits(kinds, range, from, to);
    forall k | range.lo <= k < range.hi ensures !KindOf(children[k]).BarrierKind? {
      assert !BarrierAt(kinds, k);
      assert kinds[k] == KindOf(children[k]);
    }
  }

  // Across a whole well-formed tree the runs' spans are pairwise disjoint.
  lemma {:induction false} RunsApart(node: Node)
    requires WellFormed(node)
    ensures AllApart(RunsOf(node))
    ensures forall run | run in RunsOf(node) :: Inside(run, node.lo, node.hi)
    decreases node
  {
    match node
    case JsxText(_, _, _, _) =>
    case Braces(_, _, inner, lo, hi) => RunsInApart(inner, lo, hi);
    case Other(_, inner, lo, hi) => RunsInApart(inner, lo, hi);
    case Element(attributes, children, lo, hi) =>
      var all := attributes + children;
      assert Under(node) == all;
      assert Ordered(attributes, lo, hi) by {
        assert forall i | 0 <= i < |attributes| :: attributes[i] == all[i];
      }
      assert Ordered(children, lo, hi) by {
        assert forall i | 0 <= i < |children| :: children[i] == all[|attributes| + i];
      }
      RunsInApart(attributes, lo, hi);
      RunsInApart(children, lo, hi);
      OwnRunsInside(children, lo, hi);
      AttributesFirst(attributes, children, lo, hi);
      var deeper := RunsIn(attributes) + RunsIn(children);
      AllApartConcat(RunsIn(attributes), RunsIn(children));
      forall a, b | a in OwnRuns(children) && b in deeper ensures Apart(a, b) {
        OwnRunsClear(attributes, children, lo, hi, a, b);
      }
      AllApartConcat(OwnRuns(children), deeper);
  }

  lemma AttributesFirst(attributes: seq<Node>, children: seq<Node>, lo: nat, hi: nat)
    requires Ordered(attributes + children, lo, hi)
    requires AllApart(RunsIn(attributes)) && AllApart(RunsIn(children))
    requires forall run | run in RunsIn(attributes) :: HeldBy(run, attributes)
    requires forall run | run in RunsIn(children) :: HeldBy(run, children)
    ensures forall a, b | a in RunsIn(attributes) && b in RunsIn(children) :: Apart(a, b)
  {
    var all := attributes + children;
    forall a, b | a in RunsIn(attributes) && b in RunsIn(children) ensures Apart(a, b) {
      var i :| 0 <= i < |attributes| && HasMarkup(attributes[i]) && Inside(a, attributes[i].lo, attributes[i].hi);
      var j :| 0 <= j < |children| && HasMarkup(children[j]) && Inside(b, children[j].lo, children[j].hi);
      assert all[i] == attributes[i] && all[|attributes| + j] == children[j];
      assert all[i].hi <= all[|attributes| + j].lo;
    }
  }
}
