// Finding the runs of children that read as one sentence
// (scripts/recombine-messages.ts, the scan inside rewritesFor).
module RunScanner {
  import opened Text
  import opened JsxTree

  // The children from lo up to, not including, hi.
  datatype Range = Range(lo: nat, hi: nat)

  predicate IsLiteral(kind: Kind) { kind.Gap? || kind.Wording? }

  predicate BarrierAt(children: seq<Kind>, i: int) {
    0 <= i < |children| && children[i].BarrierKind?
  }

  // ---- what the scan looks for ----

  // A maximal stretch of children with no barrier in it.
  predicate IsSegment(children: seq<Kind>, from: nat, to: nat) {
    && from <= to <= |children|
    && (forall i | from <= i < to :: !BarrierAt(children, i))
    && (from == 0 || BarrierAt(children, from - 1))
    && (to == |children| || BarrierAt(children, to))
  }

  // The range is a whole segment but for leading literals and trailing gaps.
  predicate Fits(children: seq<Kind>, range: Range, from: nat, to: nat) {
    && from <= range.lo < range.hi <= to <= |children|
    && (forall i | from <= i < range.lo :: IsLiteral(children[i]))
    && !IsLiteral(children[range.lo])
    && (forall i | range.hi <= i < to :: children[i].Gap?)
    && !children[range.hi - 1].Gap?
  }

  // A candidate: a maximal segment, stripped.
  ghost predicate IsCandidate(children: seq<Kind>, range: Range) {
    exists from: nat, to: nat :: IsSegment(children, from, to) && Fits(children, range, from, to)
  }

  // A run worth rewriting holds a message and a value.
  predicate Mixed(children: seq<Kind>, range: Range) {
    && range.lo <= range.hi <= |children|
    && MessageKind in children[range.lo..range.hi]
    && ValueKind in children[range.lo..range.hi]
  }

  // ---- the scan as a function ----

  function FirstSubject(children: seq<Kind>, i: nat): (r: nat)
    requires i <= |children|
    ensures i <= r <= |children|
    ensures forall j | i <= j < r :: IsLiteral(children[j])
    ensures r < |children| ==> !IsLiteral(children[r])
    decreases |children| - i
  {
    if i < |children| && IsLiteral(children[i]) then FirstSubject(children, i + 1) else i
  }

  function SegmentEnd(children: seq<Kind>, i: nat): (r: nat)
    requires i <= |children|
    ensures i <= r <= |children|
    ensures forall j | i <= j < r :: !BarrierAt(children, j)
    ensures r == |children| || BarrierAt(children, r)
    decreases |children| - i
  {
    if i < |children| && !BarrierAt(children, i) then SegmentEnd(children, i + 1) else i
  }

  function KeptEnd(children: seq<Kind>, lo: nat, hi: nat): (r: nat)
    requires lo <= hi <= |children|
    ensures lo <= r <= hi
    ensures forall j | r <= j < hi :: children[j].Gap?
    ensures r > lo ==> !children[r - 1].Gap?
  {
    if lo < hi && children[hi - 1].Gap? then KeptEnd(children, lo, hi - 1) else hi
  }

  // Where the scan goes on after reading the run that starts at or after i.
  function Next(children: seq<Kind>, i: nat): (r: nat)
    requires i < |children|
    ensures i < r <= |children| + 1
    ensures AtBoundary(children, r)
  {
    var lo := FirstSubject(children, i);
    var end := SegmentEnd(children, lo);
    if end == lo then lo + 1 else end
  }

  // The candidate read from i, if the literals before it leave one.
  function CandidateAt(children: seq<Kind>, i: nat): (r: seq<Range>)
    requires i < |children|
    ensures forall range | range in r :: i <= range.lo < range.hi <= Next(children, i) && range.hi <= |children|
  {
    var lo := FirstSubject(children, i);
    var end := SegmentEnd(children, lo);
    if end == lo then []
    else
      assert !children[lo].Gap?;
      [Range(lo, KeptEnd(children, lo, end))]
  }

  // The candidates from child i on, in order.
  function CandidatesFrom(children: seq<Kind>, i: nat): (r: seq<Range>)
    ensures forall range | range in r :: i <= range.lo < range.hi <= |children|
    decreases |children| - i
  {
    if i >= |children| then []
    else CandidateAt(children, i) + CandidatesFrom(children, Next(children, i))
  }

  predicate AtBoundary(children: seq<Kind>, i: int) {
    i == 0 || i >= |children| || BarrierAt(children, i) || BarrierAt(children, i - 1)
  }

  function OnlyMixed(children: seq<Kind>, ranges: seq<Range>): (r: seq<Range>)
    ensures forall range :: range in r <==> range in ranges && Mixed(children, range)
  {
    if ranges == [] then []
    else (if Mixed(children, ranges[0]) then [ranges[0]] else []) + OnlyMixed(children, ranges[1..])
  }

  // Every run of one element's children that is rewritten.
  function Ranges(children: seq<Kind>): seq<Range> {
    OnlyMixed(children, CandidatesFrom(children, 0))
  }

  // ---- the scan is exact ----

  lemma {:induction false} CandidateFits(children: seq<Kind>, i: nat, range: Range)
    requires AtBoundary(children, i)
    requires range in CandidatesFrom(children, i)
    ensures IsCandidate(children, range)
    decreases |children| - i
  {
    if range in CandidateAt(children, i) {
      FirstIsCandidate(children, i);
    } else {
      CandidateFits(children, Next(children, i), range);
    }
  }

  lemma FirstIsCandidate(children: seq<Kind>, i: nat)
    requires i < |children| && AtBoundary(children, i)
    ensures forall range | range in CandidateAt(children, i) :: IsCandidate(children, range)
  {
    var lo := FirstSubject(children, i);
    var end := SegmentEnd(children, lo);
    if lo < end {
      assert !BarrierAt(children, i);
      assert IsSegment(children, i, end);
      assert Fits(children, Range(lo, KeptEnd(children, lo, end)), i, end);
    }
  }

  lemma {:induction false} CandidateFound(children: seq<Kind>, i: nat, range: Range, from: nat, to: nat)
    requires AtBoundary(children, i)
    requires IsSegment(children, from, to) && Fits(children, range, from, to) && i <= range.lo
    ensures range in CandidatesFrom(children, i)
    decreases |children| - i
  {
    if range.lo >= Next(children, i) {
      CandidateFound(children, Next(children, i), range, from, to);
    } else {
      CandidateIsFirst(children, i, range, from, to);
    }
  }

  lemma CandidateIsFirst(children: seq<Kind>, i: nat, range: Range, from: nat, to: nat)
    requires i < |children| && AtBoundary(children, i)
    requires IsSegment(children, from, to) && Fits(children, range, from, to)
    requires i <= range.lo < Next(children, i)
    ensures CandidateAt(children, i) == [range]
  {
    var lo := FirstSubject(children, i);
    var end := SegmentEnd(children, lo);
    assert !BarrierAt(children, range.lo);
    assert lo <= range.lo < end;
    assert !BarrierAt(children, from - 1) || from <= i || from - 1 < lo;
    assert BarrierAt(children, to) || to == |children|;
    assert BarrierAt(children, end) || end == |children|;
    assert to == end;
    assert from <= lo;
    assert range.lo == lo;
    assert range.hi == KeptEnd(children, lo, end);
  }

  // The runs rewritten are exactly the stripped maximal segments that hold a
  // message and a value, both ways.
  lemma RangesAreExact(children: seq<Kind>, range: Range)
    ensures range in Ranges(children) <==> IsCandidate(children, range) && Mixed(children, range)
  {
    CandidatesAreExact(children, range);
  }

  // The candidates found are exactly the stripped maximal segments, both ways.
  lemma CandidatesAreExact(children: seq<Kind>, range: Range)
    ensures range in CandidatesFrom(children, 0) <==> IsCandidate(children, range)
  {
    if range in CandidatesFrom(children, 0) {
      CandidateFits(children, 0, range);
    }
    if IsCandidate(children, range) {
      var from: nat, to: nat :| IsSegment(children, from, to) && Fits(children, range, from, to);
      CandidateFound(children, 0, range, from, to);
    }
  }

  ghost predicate InOrder(ranges: seq<Range>) {
    forall a, b | 0 <= a < b < |ranges| :: ranges[a].hi <= ranges[b].lo
  }

  lemma {:induction false} CandidatesInOrder(children: seq<Kind>, i: nat)
    ensures InOrder(CandidatesFrom(children, i))
    decreases |children| - i
  {
    if i < |children| {
      CandidatesInOrder(children, Next(children, i));
      var rest := CandidatesFrom(children, Next(children, i));
      assert forall b | 0 <= b < |rest| :: rest[b] in rest;
      assert forall a | 0 <= a < |CandidateAt(children, i)| :: CandidateAt(children, i)[a] in CandidateAt(children, i);
    }
  }

  lemma {:induction false} OnlyMixedInOrder(children: seq<Kind>, ranges: seq<Range>)
    requires InOrder(ranges)
    ensures InOrder(OnlyMixed(children, ranges))
  {
    if ranges != [] {
      OnlyMixedInOrder(children, ranges[1..]);
      var rest := OnlyMixed(children, ranges[1..]);
      forall b | 0 <= b < |rest| ensures ranges[0].hi <= rest[b].lo {
        assert rest[b] in ranges[1..];
      }
    }
  }

  // ---- the scan as the script runs it ----

  // The run being read, as the scan's variables hold it: its first child is at
  // `index`, and it ends before `cursor`.
  datatype Reading = Reading(index: nat, cursor: nat, messages: nat, values: nat, readable: bool)

  predicate Reads(children: seq<Kind>, start: nat, r: Reading) {
    && start <= r.index <= r.cursor <= |children|
    && (r.messages > 0 <==> MessageKind in children[r.index..r.cursor])
    && (r.values > 0 <==> ValueKind in children[r.index..r.cursor])
    && r.readable
    && FirstSubject(children, start) == FirstSubject(children, r.index)
    && (r.index < r.cursor ==> FirstSubject(children, r.index) == r.index)
    && SegmentEnd(children, r.index) == SegmentEnd(children, r.cursor)
  }

  // One run read from `start`: literals before it are passed over, and it ends
  // at a barrier or at the last child.
  method ReadRun(children: seq<Kind>, start: nat) returns (r: Reading)
    requires start <= |children|
    ensures Reads(children, start, r)
    ensures r.cursor == SegmentEnd(children, r.index)
    ensures r.index == FirstSubject(children, start)
  {
    r := Reading(start, start, 0, 0, true);
    while r.cursor < |children|
      invariant Reads(children, start, r)
      decreases |children| - r.cursor
    {
      var child := children[r.cursor];
      assert children[r.index..r.cursor + 1] == children[r.index..r.cursor] + [child];
      if IsLiteral(child) {
        if r.index == r.cursor {
          r := r.(index := r.cursor + 1, cursor := r.cursor + 1);
        } else {
          r := r.(cursor := r.cursor + 1);
        }
      } else if child.MessageKind? {
        r := r.(messages := r.messages + 1, cursor := r.cursor + 1);
      } else if child.ValueKind? {
        r := r.(values := r.values + 1, cursor := r.cursor + 1);
      } else {
        if !(r.messages > 0 && r.values > 0) {
          r := r.(readable := r.messages == 0 || r.values == 0);
        }
        return;
      }
    }
  }

  // Where the run ends once its trailing gaps are left to the markup. A leading
  // gap was never taken in, so the script's matching loop at the front does
  // nothing.
  method StripTrailingGaps(children: seq<Kind>, lo: nat, hi: nat) returns (end: nat)
    requires lo <= hi <= |children|
    ensures end == KeptEnd(children, lo, hi)
    ensures MessageKind in children[lo..end] <==> MessageKind in children[lo..hi]
    ensures ValueKind in children[lo..end] <==> ValueKind in children[lo..hi]
  {
    end := hi;
    while end > lo && children[end - 1].Gap?
      invariant lo <= end <= hi
      invariant KeptEnd(children, lo, end) == KeptEnd(children, lo, hi)
      invariant MessageKind in children[lo..end] <==> MessageKind in children[lo..hi]
      invariant ValueKind in children[lo..end] <==> ValueKind in children[lo..hi]
    {
      assert children[lo..end] == children[lo..end - 1] + [children[end - 1]];
      end := end - 1;
    }
  }

  // One turn of the scan: the run it reads, if that is worth rewriting, and
  // where the next turn starts.
  method ScanTurn(children: seq<Kind>, index: nat) returns (found: seq<Range>, skipped: seq<Range>, next: nat)
    requires index < |children|
    ensures found == OnlyMixed(children, CandidateAt(children, index))
    ensures skipped == []
    ensures next == Next(children, index)
  {
    found, skipped := [], [];
    var r := ReadRun(children, index);
    var end := StripTrailingGaps(children, r.index, r.cursor);
    var range := Range(r.index, end);
    if r.messages >= 1 && r.values >= 1 && end - r.index >= 2 {
      if !r.readable {
        skipped := skipped + [range];
      } else {
        found := [range];
      }
    }
    MixedIsLong(children, range);
    next := if r.cursor > r.index then r.cursor else r.index + 1;
  }

  // One element's children scanned in a single pass. `skipped` is the script's
  // list of runs it would not touch: it is always empty.
  method Scan(children: seq<Kind>) returns (ranges: seq<Range>, skipped: seq<Range>)
    ensures ranges == Ranges(children)
    ensures skipped == []
  {
    ranges, skipped := [], [];
    var index := 0;
    while index < |children|
      invariant 0 <= index
      invariant skipped == []
      invariant Ranges(children) == ranges + OnlyMixed(children, CandidatesFrom(children, index))
    {
      var found, unread, next := ScanTurn(children, index);
      MixedFrom(children, index);
      Regroup(ranges, found, OnlyMixed(children, CandidatesFrom(children, next)));
      ranges, skipped, index := ranges + found, skipped + unread, next;
    }
  }

  lemma MixedFrom(children: seq<Kind>, i: nat)
    requires i < |children|
    ensures OnlyMixed(children, CandidatesFrom(children, i))
         == OnlyMixed(children, CandidateAt(children, i))
             + OnlyMixed(children, CandidatesFrom(children, Next(children, i)))
  {
    OnlyMixedConcat(children, CandidateAt(children, i), CandidatesFrom(children, Next(children, i)));
  }

  lemma {:induction false} OnlyMixedConcat(children: seq<Kind>, left: seq<Range>, right: seq<Range>)
    ensures OnlyMixed(children, left + right) == OnlyMixed(children, left) + OnlyMixed(children, right)
  {
    if left == [] {
      assert left + right == right;
    } else {
      assert (left + right)[1..] == left[1..] + right;
      OnlyMixedConcat(children, left[1..], right);
    }
  }

  lemma MixedIsLong(children: seq<Kind>, range: Range)
    ensures Mixed(children, range) ==> range.hi - range.lo >= 2
  {
    if Mixed(children, range) {
      var run := children[range.lo..range.hi];
      var i :| 0 <= i < |run| && run[i] == MessageKind;
      var j :| 0 <= j < |run| && run[j] == ValueKind;
    }
  }
}
