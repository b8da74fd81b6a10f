// Editing a source text in several places at once
// (scripts/recombine-messages.ts, the splice loop in main).
module Splice {
  import opened Text

  // Everything from lo up to, not including, hi gives way to the text.
  datatype Edit = Edit(lo: nat, hi: nat, text: string)

  ghost predicate Fitting(edits: seq<Edit>, length: nat) {
    forall e | e in edits :: e.lo < e.hi <= length
  }

  predicate Clear(a: Edit, b: Edit) { a.hi <= b.lo || b.hi <= a.lo }

  ghost predicate AllClear(edits: seq<Edit>) {
    forall i, j | 0 <= i < j < |edits| :: Clear(edits[i], edits[j])
  }

  // ---- all edits at once ----

  // The edit that starts at a position, if any: its index, or the length.
  function EditAt(edits: seq<Edit>, position: nat): (k: nat)
    ensures k <= |edits|
    ensures k < |edits| ==> edits[k].lo == position
    ensures k == |edits| ==> forall e | e in edits :: e.lo != position
  {
    if edits == [] then 0
    else if edits[0].lo == position then 0
    else 1 + EditAt(edits[1..], position)
  }

  // The source read left to right: an edited span gives its new text, and every
  // other character is copied. The order of the edits plays no part.
  function Replaced(source: string, edits: seq<Edit>, from: nat): string
    requires from <= |source| && Fitting(edits, |source|)
    decreases |source| - from
  {
    if from == |source| then ""
    else
      var k := EditAt(edits, from);
      if k < |edits| then
        assert edits[k] in edits;
        edits[k].text + Replaced(source, edits, edits[k].hi)
      else [source[from]] + Replaced(source, edits, from + 1)
  }

  lemma {:induction false} NoEditAt(edits: seq<Edit>, position: nat)
    requires forall e | e in edits :: e.lo != position
    ensures EditAt(edits, position) == |edits|
  {
    if edits != [] {
      assert edits[0] in edits;
      NoEditAt(edits[1..], position);
    }
  }

  lemma {:induction false} CopiedUntil(source: string, edits: seq<Edit>, from: nat, to: nat)
    requires from <= to <= |source| && Fitting(edits, |source|)
    requires forall e | e in edits :: !(from <= e.lo < to)
    ensures Replaced(source, edits, from) == source[from..to] + Replaced(source, edits, to)
    decreases |source| - from
  {
    if from < to {
      NoEditAt(edits, from);
      CopiedUntil(source, edits, from + 1, to);
      assert source[from..to] == [source[from]] + source[from + 1..to];
      Regroup([source[from]], source[from + 1..to], Replaced(source, edits, to));
    }
  }

  // Two clear edits that start together are one.
  lemma EditAtIs(edits: seq<Edit>, edit: Edit, length: nat)
    requires AllClear(edits) && Fitting(edits, length) && edit in edits
    ensures EditAt(edits, edit.lo) < |edits| && edits[EditAt(edits, edit.lo)] == edit
  {
    var k := EditAt(edits, edit.lo);
    var i :| 0 <= i < |edits| && edits[i] == edit;
    assert edits[k] in edits;
    assert k < i ==> Clear(edits[k], edits[i]);
    assert i < k ==> Clear(edits[i], edits[k]);
  }

  // Every new text is there afterwards.
  lemma {:induction false} ReplacedHolds(source: string, edits: seq<Edit>, from: nat, edit: Edit)
    requires from <= |source| && Fitting(edits, |source|) && AllClear(edits)
    requires edit in edits && from <= edit.lo
    ensures Contains(Replaced(source, edits, from), edit.text)
    decreases |source| - from
  {
    var k := EditAt(edits, from);
    if k < |edits| {
      assert edits[k] in edits;
      var rest := Replaced(source, edits, edits[k].hi);
      EditAtIs(edits, edits[k], |source|);
      if edits[k] == edit {
        assert edit.text + rest == "" + edit.text + rest;
      } else {
        StartsLater(edits, edits[k], edit);
        ReplacedHolds(source, edits, edits[k].hi, edit);
        ContainsWithin(edits[k].text, rest, "", edit.text);
        assert edits[k].text + rest == edits[k].text + rest + "";
      }
    } else {
      ReplacedHolds(source, edits, from + 1, edit);
      var rest := Replaced(source, edits, from + 1);
      ContainsWithin([source[from]], rest, "", edit.text);
      assert [source[from]] + rest == [source[from]] + rest + "";
    }
  }

  lemma StartsLater(edits: seq<Edit>, a: Edit, b: Edit)
    requires AllClear(edits) && a in edits && b in edits && a != b
    requires a.lo < a.hi && b.lo < b.hi && a.lo <= b.lo
    ensures a.hi <= b.lo
  {
    var i :| 0 <= i < |edits| && edits[i] == a;
    var j :| 0 <= j < |edits| && edits[j] == b;
    assert i < j ==> Clear(edits[i], edits[j]);
    assert j < i ==> Clear(edits[j], edits[i]);
  }

  // ---- right to left ----

  // Each edit ends before the one in front of it starts.
  ghost predicate Down(edits: seq<Edit>) {
    forall i, j | 0 <= i < j < |edits| :: edits[j].hi <= edits[i].lo
  }

  // The edits from the last start to the first.
  function SortedDown(edits: seq<Edit>): (r: seq<Edit>)
    requires AllClear(edits) && forall e | e in edits :: e.lo < e.hi
    ensures Down(r)
    ensures forall e :: e in r <==> e in edits
  {
    if edits == [] then []
    else
      assert forall j | 0 < j < |edits| :: Clear(edits[0], edits[j]);
      InsertDown(edits[0], SortedDown(edits[1..]))
  }

  function InsertDown(edit: Edit, sorted: seq<Edit>): (r: seq<Edit>)
    requires Down(sorted) && edit.lo < edit.hi
    requires forall e | e in sorted :: e.lo < e.hi && Clear(edit, e)
    ensures Down(r)
    ensures r != [] && (r[0] == edit || (sorted != [] && r[0] == sorted[0]))
    ensures forall e :: e in r <==> e == edit || e in sorted
  {
    if sorted == [] then [edit]
    else if edit.lo >= sorted[0].lo then
      DownInFront(edit, sorted);
      [edit] + sorted
    else
      assert sorted[0] in sorted;
      var rest := InsertDown(edit, sorted[1..]);
      RestIsClear(edit, sorted);
      DownInFront(sorted[0], rest);
      [sorted[0]] + rest
  }

  lemma RestIsClear(edit: Edit, sorted: seq<Edit>)
    requires Down(sorted) && sorted != [] && edit.lo < edit.hi
    requires forall e | e in sorted :: e.lo < e.hi && Clear(edit, e)
    ensures forall e | e == edit || e in sorted[1..] :: e.lo < e.hi && Clear(sorted[0], e)
  {
    forall e | e in sorted[1..] ensures e.lo < e.hi && Clear(sorted[0], e) {
      var j :| 0 < j < |sorted| && sorted[j] == e;
      assert e in sorted;
    }
    assert sorted[0] in sorted;
  }

  lemma DownInFront(first: Edit, rest: seq<Edit>)
    requires Down(rest)
    requires forall e | e in rest :: e.lo < e.hi && Clear(first, e)
    requires first.lo < first.hi && (rest != [] ==> rest[0].lo <= first.lo)
    ensures Down([first] + rest)
  {
    var all := [first] + rest;
    forall i, j | 0 <= i < j < |all| ensures all[j].hi <= all[i].lo {
      if i == 0 {
        assert rest[0] in rest && rest[0].hi <= first.lo;
        assert j > 1 ==> rest[j - 1].hi <= rest[0].lo;
      } else {
        assert all[i] == rest[i - 1] && all[j] == rest[j - 1];
      }
    }
  }

  // Splicing from the right, each edit against the text as it then stands, is
  // replacing every span of the original at once.
  method SpliceFromRight(source: string, edits: seq<Edit>) returns (next: string)
    requires Fitting(edits, |source|) && AllClear(edits)
    ensures next == Replaced(source, edits, 0)
  {
    next := source;
    var down := SortedDown(edits);
    ghost var edge := |source|;
    assert source[..edge] + "" == source;
    var i := 0;
    while i < |down|
      invariant 0 <= i <= |down| && 0 <= edge <= |source|
      invariant next == source[..edge] + Replaced(source, edits, edge)
      invariant Parted(down, i, edge)
    {
      var edit := down[i];
      assert edit in down;
      NothingBetween(edits, down, i, edge);
      SpliceStep(source, edits, edit, edge, next);
      next := next[..edit.lo] + edit.text + next[edit.hi..];
      edge := edit.lo;
      i := i + 1;
    }
    NothingBefore(source, edits, down, edge);
  }

  // The first i edits lie behind the edge, the others before it.
  ghost predicate Parted(down: seq<Edit>, i: nat, edge: nat) {
    && i <= |down|
    && (forall j | 0 <= j < i :: down[j].lo >= edge)
    && (forall j | i <= j < |down| :: down[j].hi <= edge)
  }

  lemma NothingBefore(source: string, edits: seq<Edit>, down: seq<Edit>, edge: nat)
    requires Fitting(edits, |source|) && edge <= |source|
    requires forall e :: e in down <==> e in edits
    requires Parted(down, |down|, edge)
    ensures Replaced(source, edits, 0) == source[..edge] + Replaced(source, edits, edge)
  {
    forall e | e in edits ensures e.lo >= edge {
      assert e in down;
    }
    CopiedUntil(source, edits, 0, edge);
    assert source[0..edge] == source[..edge];
  }

  lemma NothingBetween(edits: seq<Edit>, down: seq<Edit>, i: nat, edge: nat)
    requires Down(down) && forall e :: e in down <==> e in edits
    requires Parted(down, i, edge)
    requires i < |down| && forall e | e in edits :: e.lo < e.hi
    ensures Parted(down, i + 1, down[i].lo)
    ensures forall e | e in edits :: !(down[i].hi <= e.lo < edge)
  {
    assert down[i] in down;
    forall e | e in edits ensures !(down[i].hi <= e.lo < edge) {
      var j :| 0 <= j < |down| && down[j] == e;
    }
  }

  lemma SpliceStep(source: string, edits: seq<Edit>, edit: Edit, edge: nat, next: string)
    requires Fitting(edits, |source|) && AllClear(edits) && edit in edits
    requires edit.hi <= edge <= |source|
    requires next == source[..edge] + Replaced(source, edits, edge)
    requires forall e | e in edits :: !(edit.hi <= e.lo < edge)
    ensures edit.lo < edit.hi <= |next|
    ensures next[..edit.lo] + edit.text + next[edit.hi..] == source[..edit.lo] + Replaced(source, edits, edit.lo)
  {
    CopiedUntil(source, edits, edit.hi, edge);
    EditAtIs(edits, edit, |source|);
    assert Replaced(source, edits, edit.lo) == edit.text + Replaced(source, edits, edit.hi);
    var rest := Replaced(source, edits, edge);
    assert next[edit.hi..] == source[edit.hi..edge] + rest;
    assert next[..edit.lo] == source[..edit.lo];
  }
}
